/** The two bulk updates that the kbuf drivers make to a device's buffer, in place. */
module ByteArrays {
  import opened Fifo

  /** `memmove(a, a + n, len - n)`, byte by byte from the front. */
  method MoveDown(a: array<Byte>, n: nat, len: nat)
    requires n <= len <= a.Length
    modifies a
    ensures a[..] == MovedDown(old(a[..]), n, len)
  {
    var i := 0;
    while i < len - n
      invariant 0 <= i <= len - n
      invariant forall j :: 0 <= j < i ==> a[j] == old(a[n + j])
      invariant forall j :: i <= j < a.Length ==> a[j] == old(a[j])
    {
      a[i] := a[n + i];
      i := i + 1;
    }
  }

  /** Stores `bytes` from index `at` on, as `copy_from_user` does with what it can read. */
  method Store(a: array<Byte>, at: nat, bytes: seq<Byte>)
    requires at + |bytes| <= a.Length
    modifies a
    ensures a[..] == Stored(old(a[..]), at, bytes)
  {
    var i := 0;
    while i < |bytes|
      invariant 0 <= i <= |bytes|
      invariant forall j :: 0 <= j < i ==> a[at + j] == bytes[j]
      invariant forall j :: 0 <= j < a.Length && !(at <= j < at + i) ==> a[j] == old(a[j])
    {
      a[at + i] := bytes[i];
      i := i + 1;
    }
  }
}
