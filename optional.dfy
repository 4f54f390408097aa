/** Python's "a value or None", as used for the results of the two rule matchers
    and for the cascade's `diagnostico` variable. */
module Optional {

  datatype Option<+T> = None | Some(value: T)
}
