/** Small definitions shared by the ledger and the client components. */
module Util {

  /** A value that may be absent: a React hook's `data` before it has loaded,
      or a wallet address when no wallet is connected. */
  datatype Option<+T> = None | Some(value: T)

  function Min(a: int, b: int): int
  {
    if a <= b then a else b
  }

  function Max(a: int, b: int): int
  {
    if a <= b then b else a
  }
}
