/** Bytes, 32-bit words and the little helpers every other module builds on. */
module Bytes {

  type byte = x: int | 0 <= x < 256

  type u32 = x: int | 0 <= x < 0x1_0000_0000

  datatype Option<+T> = None | Some(value: T)

  /** `n` copies of one byte, the effect of memset on an `n`-byte region. */
  function Repeat(b: byte, n: nat): (s: seq<byte>)
    ensures |s| == n
    ensures forall i :: 0 <= i < n ==> s[i] == b
  {
    seq(n, _ => b)
  }

  /** The four bytes a native (little-endian) memcpy of a uint32_t produces. */
  function Le32(v: u32): (b: seq<byte>)
    ensures |b| == 4
  {
    [v % 256, v / 256 % 256, v / 65536 % 256, v / 16777216]
  }

  function FromLe32(b: seq<byte>): u32
    requires |b| == 4
  {
    b[0] as int + 256 * (b[1] as int) + 65536 * (b[2] as int) + 16777216 * (b[3] as int)
  }

  lemma Le32ThenBack(v: u32)
    ensures FromLe32(Le32(v)) == v
  {
    var a, b, c := v / 256, v / 65536, v / 16777216;
    assert b == a / 256 && c == b / 256;
    assert v == v % 256 + 256 * a && a == a % 256 + 256 * b && b == b % 256 + 256 * c;
  }

  lemma LowByte(x: byte, y: nat)
    ensures (x + 256 * y) % 256 == x && (x + 256 * y) / 256 == y
  {
  }

  lemma HighBytes(v: nat)
    ensures v / 65536 == v / 256 / 256 && v / 16777216 == v / 256 / 256 / 256
  {
  }

  lemma BackThenLe32(b: seq<byte>)
    requires |b| == 4
    ensures Le32(FromLe32(b)) == b
  {
    var high: nat := b[2] + 256 * (b[3] as int);
    var upper: nat := b[1] + 256 * high;
    LowByte(b[0], upper);
    LowByte(b[1], high);
    LowByte(b[2], b[3]);
    HighBytes(FromLe32(b));
    assert FromLe32(b) == b[0] + 256 * upper;
  }

  ghost predicate Distinct<T>(s: seq<T>) {
    forall i, j :: 0 <= i < j < |s| ==> s[i] != s[j]
  }

  function Elements<T>(s: seq<T>): set<T> {
    set x | x in s
  }

  lemma {:induction false} DistinctCount<T>(s: seq<T>)
    requires Distinct(s)
    ensures |Elements(s)| == |s|
  {
    if s != [] {
      var n := |s| - 1;
      DistinctCount(s[..n]);
      assert s == s[..n] + [s[n]];
      assert Elements(s) == Elements(s[..n]) + {s[n]};
      assert s[n] !in s[..n];
    }
  }

  lemma {:induction false} SubsetCount<T>(a: set<T>, b: set<T>)
    requires a <= b
    ensures |a| <= |b|
  {
    assert b == a + (b - a);
  }

  /** Any `n` members of a set, in some order. */
  lemma {:induction false} PickDistinct<T>(s: set<T>, n: nat) returns (p: seq<T>)
    requires n <= |s|
    ensures |p| == n && Distinct(p) && Elements(p) <= s
  {
    if n == 0 {
      p := [];
    } else {
      var x :| x in s;
      p := PickDistinct(s - {x}, n - 1);
      assert forall y :: y in p ==> y in Elements(p);
      p := p + [x];
    }
  }
}
