/** compareKeys (BPlusTree.cpp) and the order it induces, as positions on the unit interval. */
module KeyOrder {
  import opened NodeLayout

  /** Keys of a string tree: no byte is NUL. */
  ghost predicate NulFree(s: seq<Byte>) {
    forall i :: 0 <= i < |s| ==> s[i] > 0
  }

  /** The C library's strncmp on the first `n` bytes. */
  function Strncmp(a: seq<Byte>, b: seq<Byte>, n: nat): int
    requires n <= |a| && n <= |b|
  {
    if n == 0 then 0
    else if a[0] != b[0] then a[0] - b[0]
    else if a[0] == 0 then 0
    else Strncmp(a[1..], b[1..], n - 1)
  }

  /** The string case; `afterA` and `afterB` are whatever bytes follow the keys in memory. */
  function CompareStrings(a: seq<Byte>, b: seq<Byte>, afterA: Byte, afterB: Byte): int {
    var n := if |a| <= |b| then |a| else |b|;
    var result := Strncmp(a, b, n);
    var endA, endB := if n < |a| then a[n] else afterA, if n < |b| then b[n] else afterB;
    if result == 0 && !(endA == 0 && endB == 0) then |a| - |b| else result
  }

  /** Where a string lies in [0, 1): its bytes are the digits of a base 256 fraction. */
  function Ord(s: seq<Byte>): (r: real)
    ensures 0.0 <= r < 1.0
  {
    if s == [] then 0.0 else (s[0] as real + Ord(s[1..])) / 256.0
  }

  lemma OrdOfNonEmpty(s: seq<Byte>)
    requires NulFree(s) && s != []
    ensures Ord(s) > 0.0
  {
  }

  /** strncmp decides like the fractions, up to strings of which one continues the other. */
  lemma {:induction false} StrncmpOrder(a: seq<Byte>, b: seq<Byte>, n: nat)
    requires NulFree(a) && NulFree(b) && n <= |a| && n <= |b| && (n == |a| || n == |b|)
    ensures Strncmp(a, b, n) < 0 ==> Ord(a) < Ord(b)
    ensures Strncmp(a, b, n) > 0 ==> Ord(a) > Ord(b)
    ensures Strncmp(a, b, n) == 0 ==> a[..n] == b[..n]
    ensures Strncmp(a, b, n) == 0 && |a| < |b| ==> Ord(a) < Ord(b)
    ensures Strncmp(a, b, n) == 0 && |a| > |b| ==> Ord(a) > Ord(b)
  {
    if n > 0 {
      assert a[0] == a[..n][0] && b[0] == b[..n][0];
      if a[0] == b[0] {
        StrncmpOrder(a[1..], b[1..], n - 1);
        assert a[..n] == [a[0]] + a[1..][..n - 1] && b[..n] == [b[0]] + b[1..][..n - 1];
      }
    } else if |a| < |b| {
      OrdOfNonEmpty(b);
    } else if |a| > |b| {
      OrdOfNonEmpty(a);
    }
  }

  /** compareKeys orders NUL-free strings totally, whatever follows them in memory. */
  lemma StringOrder(a: seq<Byte>, b: seq<Byte>, afterA: Byte, afterB: Byte)
    requires NulFree(a) && NulFree(b)
    ensures CompareStrings(a, b, afterA, afterB) < 0 <==> Ord(a) < Ord(b)
    ensures CompareStrings(a, b, afterA, afterB) > 0 <==> Ord(a) > Ord(b)
    ensures CompareStrings(a, b, afterA, afterB) == 0 <==> a == b
    ensures Ord(a) == Ord(b) <==> a == b
  {
    var n := if |a| <= |b| then |a| else |b|;
    StrncmpOrder(a, b, n);
    if Strncmp(a, b, n) == 0 && |a| == |b| {
      assert a == a[..n] && b == b[..n];
    }
  }

  const TWO31: int := 0x8000_0000
  const TWO32: int := 0x1_0000_0000
  const TWO63: int := 0x8000_0000_0000_0000
  const TWO64: int := 0x1_0000_0000_0000_0000

  /** The 64-bit cases. */
  function Compare64(a: int, b: int): int {
    if a == b then 0 else if a > b then 1 else -1
  }

  function OrdInt64(v: int): real {
    (v + TWO63) as real / TWO64 as real
  }

  lemma Int64Order(a: int, b: int)
    requires -TWO63 <= a < TWO63 && -TWO63 <= b < TWO63
    ensures 0.0 <= OrdInt64(a) < 1.0
    ensures Compare64(a, b) < 0 <==> OrdInt64(a) < OrdInt64(b)
    ensures Compare64(a, b) == 0 <==> OrdInt64(a) == OrdInt64(b)
  {
    assert a < b ==> (a + TWO63) as real < (b + TWO63) as real;
    assert b < a ==> (b + TWO63) as real < (a + TWO63) as real;
  }

  /** The 32-bit signed case subtracts, and the difference wraps. */
  function CompareInt32(a: int, b: int): int {
    (a - b + TWO31) % TWO32 - TWO31
  }

  /** So it is the order of the integers exactly when the difference fits. */
  lemma Int32OrderIff(a: int, b: int)
    requires -TWO31 <= a < TWO31 && -TWO31 <= b < TWO31
    ensures ((CompareInt32(a, b) < 0 <==> a < b) && (CompareInt32(a, b) > 0 <==> a > b)) <==> -TWO31 <= a - b < TWO31
  {
    var d := a - b + TWO31;
    if 0 <= d < TWO32 {
      assert d % TWO32 == d;
    } else if d < 0 {
      assert (d + TWO32) % TWO32 == d + TWO32;
      assert d % TWO32 == d + TWO32;
    } else {
      assert (d - TWO32) % TWO32 == d - TWO32;
      assert d % TWO32 == d - TWO32;
    }
  }

  /** Three keys that it puts in a circle. */
  lemma Int32OrderFails()
    ensures CompareInt32(-0x6000_0000, 0) < 0 && CompareInt32(0, 0x6000_0000) < 0
    ensures CompareInt32(0x6000_0000, -0x6000_0000) < 0
  {
    Int32OrderIff(-0x6000_0000, 0);
    Int32OrderIff(0, 0x6000_0000);
  }
}
