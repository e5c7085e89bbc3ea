/** What several parts share. */
module Common {
  datatype Option<T> = None | Some(value: T)

  /** `MACHNET_MSG_MAX_LEN`. */
  const MSG_MAX_LEN: nat := 8 * 1024 * 1024
}
