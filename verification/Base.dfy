/** Bytes, options and outcomes shared by every component. */
module Base {
  type Byte = x: int | 0 <= x < 256

  datatype Option<+T> = None | Some(value: T)

  /** What a fallible operation reports; the reason for a failure is not modelled. */
  datatype Outcome = Ok | Err

  function Min(a: int, b: int): int {
    if a <= b then a else b
  }

  lemma Pick<T>(s: set<T>) returns (x: T)
    requires s != {}
    ensures x in s
  {
    x :| x in s;
  }
}
