/** The "no data" sentinel: pandas reports a missing mean, median or growth
    rate as NaN; the model reports it as None. */
module Options {

  datatype Option<+T> = None | Some(value: T)
}
