// Byte sequences, little-endian integers and C strings.
module Bytes {

  type Byte = b: int | 0 <= b < 256

  const TWO_32: nat := 0x1_0000_0000

  datatype Option<+T> = None | Some(value: T)

  /** 32-bit unsigned arithmetic: n modulo 2^32. */
  function Wrap32(n: nat): (r: nat)
    ensures r < TWO_32
  {
    if n < TWO_32 then n else Wrap32(n - TWO_32)
  }

  lemma {:induction false} Wrap32Add(a: nat, b: nat)
    ensures Wrap32(Wrap32(a) + b) == Wrap32(a + b)
  {
    if a >= TWO_32 {
      Wrap32Add(a - TWO_32, b);
    }
  }

  /** That is, the remainder. */
  lemma {:induction false} Wrap32IsRemainder(n: nat)
    ensures Wrap32(n) == n % TWO_32
  {
    if n >= TWO_32 {
      Wrap32IsRemainder(n - TWO_32);
    }
  }

  function Min(a: int, b: int): int {
    if a < b then a else b
  }

  /** 256 to the power k: the number of values a k-byte field can hold. */
  function Pow256(k: nat): (p: nat)
    ensures p > 0
  {
    if k == 0 then 1 else 256 * Pow256(k - 1)
  }

  lemma FieldWidths()
    ensures Pow256(1) == 0x100
    ensures Pow256(2) == 0x1_0000
    ensures Pow256(4) == TWO_32
    ensures Pow256(8) == TWO_32 * TWO_32
  {
    assert Pow256(2) == 256 * Pow256(1);
    assert Pow256(4) == 256 * Pow256(3) && Pow256(3) == 256 * Pow256(2);
    assert Pow256(6) == 256 * Pow256(5) && Pow256(5) == 256 * Pow256(4);
    assert Pow256(8) == 256 * Pow256(7) && Pow256(7) == 256 * Pow256(6);
  }

  /** The low k bytes of n, least significant first: storing n in a k-byte field truncates it. */
  function Le(n: nat, k: nat): (s: seq<Byte>)
    ensures |s| == k
    decreases n, k
  {
    if k == 0 then [] else [n % 256] + Le(n / 256, k - 1)
  }

  function LeVal(s: seq<Byte>): nat {
    if s == [] then 0 else s[0] + 256 * LeVal(s[1..])
  }

  lemma {:induction false} LeValBound(s: seq<Byte>)
    ensures LeVal(s) < Pow256(|s|)
  {
    if s != [] {
      LeValBound(s[1..]);
    }
  }

  lemma {:induction false} LeRoundTrip(n: nat, k: nat)
    requires n < Pow256(k)
    ensures LeVal(Le(n, k)) == n
    decreases k
  {
    if k > 0 {
      LeRoundTrip(n / 256, k - 1);
      assert Le(n, k)[1..] == Le(n / 256, k - 1);
    }
  }

  /** Integers of the four wire widths survive a store and a load. */
  lemma LeWidths(n: nat)
    ensures n < 0x100 ==> LeVal(Le(n, 1)) == n
    ensures n < 0x1_0000 ==> LeVal(Le(n, 2)) == n
    ensures n < TWO_32 ==> LeVal(Le(n, 4)) == n
    ensures n < TWO_32 * TWO_32 ==> LeVal(Le(n, 8)) == n
  {
    FieldWidths();
    if n < 0x100 { LeRoundTrip(n, 1); }
    if n < 0x1_0000 { LeRoundTrip(n, 2); }
    if n < TWO_32 { LeRoundTrip(n, 4); }
    if n < TWO_32 * TWO_32 { LeRoundTrip(n, 8); }
  }

  lemma FirstByte(s: seq<Byte>)
    requires s != []
    ensures LeVal(s) == s[0] + 256 * LeVal(s[1..]) && LeVal([]) == 0
    ensures |s| > 1 ==> s[1..][1..] == s[2..]
    ensures |s| > 2 ==> s[1..][2..] == s[3..] && s[2..][1..] == s[3..]
    ensures |s| > 3 ==> s[3..][1..] == s[4..]
  {
  }

  /** The least significant byte comes first. */
  lemma LittleEndian(s: seq<Byte>)
    ensures |s| == 1 ==> LeVal(s) == s[0]
    ensures |s| == 2 ==> LeVal(s) == s[0] + 0x100 * (s[1] as int)
    ensures |s| == 4 ==>
      LeVal(s) == s[0] + 0x100 * (s[1] as int) + 0x1_0000 * (s[2] as int) + 0x100_0000 * (s[3] as int)
    ensures |s| == 8 ==> LeVal(s) == LeVal(s[..4]) + TWO_32 * LeVal(s[4..])
  {
    if |s| == 8 {
      FirstByte(s);
      FirstByte(s[1..]);
      FirstByte(s[2..]);
      FirstByte(s[3..]);
      LittleEndian(s[..4]);
      assert s[..4][3] == s[3];
    } else if |s| == 4 {
      FirstByte(s);
      FirstByte(s[1..]);
      LittleEndian(s[2..]);
    } else if |s| == 2 {
      FirstByte(s);
      LittleEndian(s[1..]);
    } else if |s| == 1 {
      FirstByte(s);
    }
  }

  // A pointer to characters is modelled by the bytes it points at; the end of the sequence
  // stands for a terminating NUL.

  type Name = seq<Byte>

  const SLASH: Byte := 47
  const DOT: Byte := 46

  /** What lies before the first `stop` or NUL byte: strchrnul (s, stop) - s bytes of s. */
  function Until(s: seq<Byte>, stop: Byte): (r: seq<Byte>)
    ensures |r| <= |s| && r == s[..|r|]
    ensures forall i :: 0 <= i < |r| ==> r[i] != stop && r[i] != 0
    ensures |r| < |s| ==> s[|r|] == stop || s[|r|] == 0
  {
    if s == [] || s[0] == stop || s[0] == 0 then [] else [s[0]] + Until(s[1..], stop)
  }

  /** The C string at s: strlen (s) is |CStr(s)|. */
  function CStr(s: seq<Byte>): seq<Byte> {
    Until(s, 0)
  }

  predicate NulFree(s: seq<Byte>) {
    forall i :: 0 <= i < |s| ==> s[i] != 0
  }

  lemma CStrOfNulFree(s: seq<Byte>)
    requires NulFree(s)
    ensures CStr(s) == s
  {
    if |CStr(s)| < |s| { assert false; }
  }

  // Facts about sequences that the solver is slow to find among larger terms.

  lemma Assoc<T>(x: seq<T>, y: seq<T>, z: seq<T>)
    ensures x + y + z == x + (y + z)
  {
  }

  lemma DropHead<T>(a: seq<T>, b: seq<T>)
    requires a != []
    ensures (a + b)[0] == a[0]
    ensures (a + b)[1..] == a[1..] + b
  {
  }

  lemma TakeNext<T>(s: seq<T>, i: nat)
    requires i < |s|
    ensures s[..i + 1] == s[..i] + [s[i]]
    ensures s[i..] == [s[i]] + s[i + 1..]
    ensures s == s[..i] + s[i..]
    ensures s[i..][1..] == s[i + 1..]
  {
  }

  lemma SubSlice<T>(s: seq<T>, a: nat, b: nat, i: nat, j: nat)
    requires a <= b <= |s| && i <= j <= b - a
    ensures s[a..b][i..j] == s[a + i..a + j]
  {
    var mid, l, r := s[a..b], s[a..b][i..j], s[a + i..a + j];
    forall x | 0 <= x < |l| ensures l[x] == r[x] {
      assert l[x] == mid[i + x];
    }
  }

  lemma OneTail<T>(x: T)
    ensures [x][0] == x && [x][1..] == []
  {
  }

  lemma TakeAll<T>(s: seq<T>)
    ensures s[..|s|] == s
  {
  }

  /** The bytes b stand at position `at` of data. */
  predicate Holds(data: seq<Byte>, at: nat, b: seq<Byte>) {
    at + |b| <= |data| && data[at..at + |b|] == b
  }

  lemma HoldsItself(data: seq<Byte>)
    ensures Holds(data, 0, data)
  {
  }

  lemma HoldsSplit(data: seq<Byte>, at: nat, a: seq<Byte>, b: seq<Byte>)
    ensures Holds(data, at, a + b) <==> Holds(data, at, a) && Holds(data, at + |a|, b)
  {
    if Holds(data, at, a + b) {
      assert data[at..at + |a|] == data[at..at + |a + b|][..|a|];
      assert data[at + |a|..at + |a| + |b|] == data[at..at + |a + b|][|a|..];
    }
    if Holds(data, at, a) && Holds(data, at + |a|, b) {
      assert data[at..at + |a + b|] == data[at..at + |a|] + data[at + |a|..at + |a| + |b|];
    }
  }

  /** Everything after a common prefix is found where that prefix ends. */
  lemma SliceAfter(pre: seq<Byte>, mid: seq<Byte>, post: seq<Byte>)
    ensures (pre + mid + post)[|pre|..|pre| + |mid|] == mid
    ensures (pre + mid + post)[|pre|..] == mid + post
  {
  }
}
