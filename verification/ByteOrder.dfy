/** The two orders on names that the search trees use. */
module ByteOrder {
  type Byte = b: int | 0 <= b < 256

  type Bytes = seq<Byte>

  /** The sign of memcmp on two blocks of the same length. */
  function Memcmp(a: Bytes, b: Bytes): int
    requires |a| == |b|
  {
    if a == [] then 0
    else if a[0] < b[0] then -1
    else if a[0] > b[0] then 1
    else Memcmp(a[1..], b[1..])
  }

  /** Shorter names first, names of one length by their bytes. */
  function CompareByLength(a: Bytes, b: Bytes): int {
    if |a| < |b| then -1
    else if |a| > |b| then 1
    else Memcmp(a, b)
  }

  /** The sign of strcmp on two strings given without their final NUL. */
  function Strcmp(a: Bytes, b: Bytes): int {
    if a == [] then if b == [] then 0 else -1
    else if b == [] then 1
    else if a[0] < b[0] then -1
    else if a[0] > b[0] then 1
    else Strcmp(a[1..], b[1..])
  }

  ghost predicate TotalOrder(cmp: (Bytes, Bytes) -> int) {
    && (forall a, b :: cmp(a, b) == 0 <==> a == b)
    && (forall a, b :: cmp(a, b) < 0 <==> cmp(b, a) > 0)
    && (forall a, b, c :: cmp(a, b) < 0 && cmp(b, c) < 0 ==> cmp(a, c) < 0)
  }

  lemma Compare3(cmp: (Bytes, Bytes) -> int, a: Bytes, b: Bytes, c: Bytes)
    requires TotalOrder(cmp)
    ensures cmp(a, b) == 0 <==> a == b
    ensures cmp(a, b) < 0 <==> cmp(b, a) > 0
    ensures cmp(a, b) < 0 && cmp(b, c) < 0 ==> cmp(a, c) < 0
    ensures cmp(a, b) > 0 && cmp(b, c) > 0 ==> cmp(a, c) > 0
  {
    assert cmp(b, a) < 0 <==> cmp(a, b) > 0;
    assert cmp(c, b) < 0 <==> cmp(b, c) > 0;
    assert cmp(c, a) < 0 <==> cmp(a, c) > 0;
  }

  lemma {:induction false} MemcmpOrders(a: Bytes, b: Bytes, c: Bytes)
    requires |a| == |b| == |c|
    ensures Memcmp(a, b) == 0 <==> a == b
    ensures Memcmp(a, b) < 0 <==> Memcmp(b, a) > 0
    ensures Memcmp(a, b) < 0 && Memcmp(b, c) < 0 ==> Memcmp(a, c) < 0
  {
    if a != [] {
      MemcmpOrders(a[1..], b[1..], c[1..]);
      assert a == [a[0]] + a[1..] && b == [b[0]] + b[1..];
    }
  }

  lemma {:induction false} StrcmpOrders(a: Bytes, b: Bytes, c: Bytes)
    ensures Strcmp(a, b) == 0 <==> a == b
    ensures Strcmp(a, b) < 0 <==> Strcmp(b, a) > 0
    ensures Strcmp(a, b) < 0 && Strcmp(b, c) < 0 ==> Strcmp(a, c) < 0
  {
    if a != [] && b != [] {
      StrcmpOrders(a[1..], b[1..], if c == [] then [] else c[1..]);
      assert a == [a[0]] + a[1..] && b == [b[0]] + b[1..];
    }
  }

  lemma LengthOrderIsTotal()
    ensures TotalOrder(CompareByLength)
  {
    forall a: Bytes, b: Bytes
      ensures CompareByLength(a, b) == 0 <==> a == b
      ensures CompareByLength(a, b) < 0 <==> CompareByLength(b, a) > 0
    {
      if |a| == |b| {
        MemcmpOrders(a, b, b);
      }
    }
    forall a: Bytes, b: Bytes, c: Bytes | CompareByLength(a, b) < 0 && CompareByLength(b, c) < 0
      ensures CompareByLength(a, c) < 0
    {
      if |a| == |b| == |c| {
        MemcmpOrders(a, b, c);
      }
    }
  }

  lemma StringOrderIsTotal()
    ensures TotalOrder(Strcmp)
  {
    forall a: Bytes, b: Bytes
      ensures Strcmp(a, b) == 0 <==> a == b
      ensures Strcmp(a, b) < 0 <==> Strcmp(b, a) > 0
    {
      StrcmpOrders(a, b, b);
    }
    forall a: Bytes, b: Bytes, c: Bytes | Strcmp(a, b) < 0 && Strcmp(b, c) < 0
      ensures Strcmp(a, c) < 0
    {
      StrcmpOrders(a, b, c);
    }
  }
}
