/** An optional value: a NULL entry of the interleaver, an absent packet, and so on. */
module Options {
  datatype Option<+T> = None | Some(value: T)
}
