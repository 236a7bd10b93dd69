/** The optional value used for Rust's `Option<T>`: a hand that may be
    unknown, a trick winner that may not exist yet, a bidder that may be absent. */
module Options {

  datatype Option<+T> = None | Some(value: T)
}
