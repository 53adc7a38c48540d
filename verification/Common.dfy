/** What several parts of the model share. */
module Common {
  datatype Option<+T> = None | Some(value: T)

  /** CK_UNAVAILABLE_INFORMATION and CK_INVALID_HANDLE of PKCS #11. */
  const UNAVAILABLE: nat := 0xFFFF_FFFF_FFFF_FFFF
  const CK_INVALID_HANDLE: nat := 0

  lemma Regroup<T>(a: seq<T>, b: seq<T>, c: seq<T>)
    ensures (a + b) + c == a + (b + c)
  {
  }
}
