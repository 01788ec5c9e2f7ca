// A directory as the server lists it, as it travels in read replies, and as it is returned to
// the caller of readdir.
module Listing {
  import opened Bytes
  import opened Wire
  import opened RecvLaws
  import opened Stat
  import opened StatLaws

  /** One entry: a stat before 9P2000.L, a directory entry with a cookie from then on. */
  datatype Entry =
    | Core(stat: StatRec)
    | Linux(qid: Qid, cookie: nat, kind: nat, entryName: seq<Byte>)

  predicate EntryOk(v: Version, e: Entry) {
    match e
    case Core(s) => v != V9P2000L && StatInRange(s) && StatLength(v, s) - 2 < 0x1_0000
    case Linux(q, c, k, n) => v == V9P2000L && DirentInRange(q, c, k, n)
  }

  function NameOf(e: Entry): seq<Byte> {
    if e.Core? then e.stat.name else e.entryName
  }

  function InoOf(e: Entry): nat {
    if e.Core? then e.stat.qid.path else e.qid.path
  }

  // d_type values.

  const DT_FIFO: nat := 1
  const DT_CHR: nat := 2
  const DT_DIR: nat := 4
  const DT_BLK: nat := 6
  const DT_REG: nat := 8
  const DT_LNK: nat := 10
  const DT_SOCK: nat := 12

  /** The bit of weight w (a power of two) in n. */
  predicate BitSet(n: nat, w: nat)
    requires w > 0
  {
    n / w % 2 == 1
  }

  function ModeToDType(v: Version, mode: nat, blockDevice: bool): (t: nat)
    ensures t < 16
  {
    if Extended(v) && BitSet(mode, 0x10_0000) then DT_SOCK
    else if Extended(v) && BitSet(mode, 0x20_0000) then DT_FIFO
    else if Extended(v) && BitSet(mode, 0x80_0000) then (if blockDevice then DT_BLK else DT_CHR)
    else if Extended(v) && BitSet(mode, 0x200_0000) then DT_LNK
    else if BitSet(mode, 0x8000_0000) then DT_DIR
    else DT_REG
  }

  /** One bit at a time, above any permission bits: which type each of them gives, and that the older
      protocol knows directories only. */
  lemma TypeBits(v: Version, low: nat, blockDevice: bool)
    requires low < 0x10_0000
    ensures ModeToDType(v, low, blockDevice) == 8 && ModeToDType(v, low + 0x8000_0000, blockDevice) == 4
    ensures ModeToDType(v, low + 0x10_0000, blockDevice) == if v == V9P2000 then 8 else 12
    ensures ModeToDType(v, low + 0x20_0000, blockDevice) == if v == V9P2000 then 8 else 1
    ensures ModeToDType(v, low + 0x80_0000, blockDevice) ==
      if v == V9P2000 then 8 else if blockDevice then 6 else 2
    ensures ModeToDType(v, low + 0x200_0000, blockDevice) == if v == V9P2000 then 8 else 10
  {
  }

  /** Of several bits the first in this order decides. */
  lemma TypeOrder(v: Version, mode: nat, blockDevice: bool)
    requires v != V9P2000
    ensures var t := ModeToDType(v, mode, blockDevice);
      if mode / 0x10_0000 % 2 == 1 then t == 12
      else if mode / 0x20_0000 % 2 == 1 then t == 1
      else if mode / 0x80_0000 % 2 == 1 then t == if blockDevice then 6 else 2
      else if mode / 0x200_0000 % 2 == 1 then t == 10
      else t == if mode / 0x8000_0000 % 2 == 1 then 4 else 8
  {
  }

  function SkipSpace(s: seq<Byte>): seq<Byte> {
    if s != [] && (s[0] == 32 || 9 <= s[0] <= 13) then SkipSpace(s[1..]) else s
  }

  function SkipDigits(s: seq<Byte>): seq<Byte> {
    if s != [] && 48 <= s[0] <= 57 then SkipDigits(s[1..]) else s
  }

  /** What a "%d" conversion leaves, if it matches. */
  function ScanInt(s: seq<Byte>): Option<seq<Byte>> {
    var t := SkipSpace(s);
    var u := if t != [] && (t[0] == 43 || t[0] == 45) then t[1..] else t;
    if u != [] && 48 <= u[0] <= 57 then Some(SkipDigits(u)) else None
  }

  /** The extension of a device is "b major minor" or "c major minor". */
  predicate IsBlockDevice(extension: seq<Byte>) {
    && extension != [] && extension[0] == 98
    && ScanInt(extension[1..]).Some?
    && ScanInt(ScanInt(extension[1..]).value).Some?
  }

  predicate Digits(s: seq<Byte>) {
    s != [] && forall i :: 0 <= i < |s| ==> 48 <= s[i] <= 57
  }

  lemma {:induction false} DigitsSkipped(s: seq<Byte>, rest: seq<Byte>)
    requires (forall i :: 0 <= i < |s| ==> 48 <= s[i] <= 57) && (rest == [] || rest[0] == 32)
    ensures SkipDigits(s + rest) == rest
  {
    if s == [] {
      assert s + rest == rest;
    } else {
      DropHead(s, rest);
      DigitsSkipped(s[1..], rest);
    }
  }

  lemma NumberScanned(s: seq<Byte>, rest: seq<Byte>)
    requires Digits(s) && (rest == [] || rest[0] == 32)
    ensures ScanInt([32] + s + rest) == Some(rest)
  {
    assert ([32] + s + rest)[1..] == s + rest && (s + rest)[0] == s[0];
    assert SkipSpace(s + rest) == s + rest;
    DigitsSkipped(s, rest);
  }

  /** "b 8 1" is a block device, and "c 8 1" and all else that does not begin with 'b' are not. */
  lemma BlockDevices(major: seq<Byte>, minor: seq<Byte>, other: seq<Byte>)
    requires Digits(major) && Digits(minor) && (other == [] || other[0] != 98)
    ensures IsBlockDevice([98] + ([32] + major + ([32] + minor))) && !IsBlockDevice(other)
  {
    var numbers := [32] + major + ([32] + minor);
    assert ([98] + numbers)[1..] == numbers;
    NumberScanned(major, [32] + minor);
    NumberScanned(minor, []);
    assert [32] + minor + [] == [32] + minor;
  }

  function TypeOf(v: Version, e: Entry): nat {
    match e
    case Core(s) => ModeToDType(v, s.mode, Extended(v) && IsBlockDevice(s.extension))
    case Linux(_, _, k, _) => k
  }

  // On the wire.

  function RecordOf(v: Version, e: Entry): seq<Byte> {
    match e
    case Core(s) => Encode(StatItems(v, s, StatLength(v, s) - 2))
    case Linux(q, c, k, n) => Encode(DirentItems(q, c, k, n))
  }

  function WireLength(v: Version, e: Entry): nat {
    match e
    case Core(s) => StatLength(v, s)
    case Linux(_, _, _, n) => DIRENT_MIN + |n|
  }

  lemma RecordLength(v: Version, e: Entry)
    requires EntryOk(v, e)
    ensures |RecordOf(v, e)| == WireLength(v, e) && WireLength(v, e) > 0
  {
    hide Encode, StatItems, DirentItems;
    match e
    case Core(s) => EncodedStatLength(v, s, StatLength(v, s) - 2);
    case Linux(q, c, k, n) => DirentLength(q, c, k, n);
  }

  /** Entries i..j, back to back. */
  function Flat(v: Version, d: seq<Entry>, i: nat, j: nat): seq<Byte>
    requires j <= |d|
    decreases j - i
  {
    if i >= j then [] else RecordOf(v, d[i]) + Flat(v, d, i + 1, j)
  }

  predicate ListingOk(v: Version, d: seq<Entry>) {
    && (forall i :: 0 <= i < |d| ==> EntryOk(v, d[i]))
    && (v == V9P2000L ==>
          && (forall i :: 0 <= i < |d| ==> d[i].cookie != 0)
          && (forall i, j :: 0 <= i < j < |d| ==> d[i].cookie != d[j].cookie))
  }

  function ByteOffset(v: Version, d: seq<Entry>, k: nat): nat
    requires k <= |d|
  {
    if k == 0 then 0 else ByteOffset(v, d, k - 1) + WireLength(v, d[k - 1])
  }

  /** The offset at which a client asks for the entries from k on: a byte count, or the cookie
      of the entry before. */
  function OffsetOf(v: Version, d: seq<Entry>, k: nat): nat
    requires k <= |d| && ListingOk(v, d)
  {
    if v == V9P2000L then (if k == 0 then 0 else d[k - 1].cookie)
    else ByteOffset(v, d, k)
  }

  lemma FlatStart(v: Version, d: seq<Entry>, i: nat, j: nat)
    requires ListingOk(v, d) && j <= |d|
    ensures i < j ==> Flat(v, d, i, j) != [] && Holds(Flat(v, d, i, j), 0, RecordOf(v, d[i]))
    ensures i < j ==>
      |RecordOf(v, d[i])| == WireLength(v, d[i]) && Flat(v, d, i, j)[WireLength(v, d[i])..] == Flat(v, d, i + 1, j)
    ensures i >= j ==> Flat(v, d, i, j) == []
  {
    hide RecordOf;
    if i < j {
      assert EntryOk(v, d[i]);
      RecordLength(v, d[i]);
      SliceAfter([], RecordOf(v, d[i]), Flat(v, d, i + 1, j));
      assert [] + RecordOf(v, d[i]) + Flat(v, d, i + 1, j) == Flat(v, d, i, j);
    }
  }

  lemma {:induction false} FlatLength(v: Version, d: seq<Entry>, i: nat, j: nat)
    requires ListingOk(v, d) && i <= j <= |d|
    ensures |Flat(v, d, i, j)| + ByteOffset(v, d, i) == ByteOffset(v, d, j)
    decreases j - i
  {
    hide RecordOf, WireLength;
    if i < j {
      assert EntryOk(v, d[i]);
      RecordLength(v, d[i]);
      FlatLength(v, d, i + 1, j);
    }
  }

  // As returned: struct dirent64 records, each padded to the alignment of the next.

  const DIRENT64_SIZE: nat := 16
  const NAME_AT: nat := 12

  /** The alignment of struct dirent64, which is that of its 64-bit member: 8, or 4 on a host like
      the i386. */
  type Alignment = a: nat | a == 4 || a == 8 witness 8
  const ALIGN: Alignment

  predicate Aligned(n: nat) {
    if ALIGN == 4 then n % 4 == 0 else n % 8 == 0
  }

  lemma Sum4(a: nat, b: nat)
    requires a % 4 == 0 && b % 4 == 0
    ensures (a + b) % 4 == 0
  {
  }

  lemma Sum8(a: nat, b: nat)
    requires a % 8 == 0 && b % 8 == 0
    ensures (a + b) % 8 == 0
  {
  }

  lemma AlignedSum(a: nat, b: nat)
    requires Aligned(a) && Aligned(b)
    ensures Aligned(a + b)
  {
    if ALIGN == 4 {
      Sum4(a, b);
    } else {
      Sum8(a, b);
    }
  }

  function UpTo4(size: nat): (r: nat)
    ensures size <= r < size + 4 && r % 4 == 0
  {
    (size + 3) / 4 * 4
  }

  function UpTo8(size: nat): (r: nat)
    ensures size <= r < size + 8 && r % 8 == 0
  {
    (size + 7) / 8 * 8
  }

  function RoundUp(size: nat): (r: nat)
    ensures size <= r < size + ALIGN && Aligned(r)
  {
    if ALIGN == 4 then UpTo4(size) else UpTo8(size)
  }

  function RecLen(e: Entry): (n: nat)
    ensures n >= DIRENT64_SIZE + |NameOf(e)| && Aligned(n)
  {
    RoundUp(DIRENT64_SIZE + |NameOf(e)|)
  }

  /** The fields of one struct dirent64 at `at`; whatever follows the NUL is padding. */
  predicate Fields(s: seq<Byte>, at: nat, ino: nat, reclen: nat, kind: nat, name: seq<Byte>) {
    && at + NAME_AT + |name| < |s|
    && Holds(s, at, Le(ino, 8))
    && Holds(s, at + 8, Le(reclen, 2))
    && s[at + 10] == kind % 256
    && s[at + 11] == |name| % 256
    && Holds(s, at + NAME_AT, name)
    && s[at + NAME_AT + |name|] == 0
  }

  /** The record of e stands at `at`. */
  predicate RecordAt(v: Version, e: Entry, s: seq<Byte>, at: nat) {
    at + RecLen(e) <= |s| && Fields(s, at, InoOf(e), RecLen(e), TypeOf(v, e), NameOf(e))
  }

  /** Where the fields of a record stand, and that it is no longer than it must be. */
  lemma RecordPlaces(v: Version, e: Entry, s: seq<Byte>, at: nat)
    requires RecordAt(v, e, s, at)
    ensures 16 + |NameOf(e)| <= RecLen(e) < 16 + |NameOf(e)| + ALIGN && at + RecLen(e) <= |s|
    ensures InoOf(e) < TWO_32 * TWO_32 ==> LeVal(s[at..at + 8]) == InoOf(e)
    ensures LeVal(s[at + 8..at + 10]) == RecLen(e) % 0x1_0000
    ensures s[at + 10] == TypeOf(v, e) % 256 && s[at + 11] == |NameOf(e)| % 256
    ensures s[at + 12..at + 12 + |NameOf(e)|] == NameOf(e) && s[at + 12 + |NameOf(e)|] == 0
  {
    hide Le, LeVal, TypeOf, InoOf, NameOf;
    LeWidths(InoOf(e));
    LeTwo(RecLen(e));
  }

  lemma HoldsFrame(s: seq<Byte>, t: seq<Byte>, n: nat, at: nat, b: seq<Byte>)
    requires n <= |s| && n <= |t| && s[..n] == t[..n] && at + |b| <= n && Holds(s, at, b)
    ensures Holds(t, at, b)
  {
    SubSlice(s, 0, n, at, at + |b|);
    SubSlice(t, 0, n, at, at + |b|);
  }

  /** A whole record depends only on its own bytes. */
  lemma RecordAtFrame(v: Version, e: Entry, s: seq<Byte>, t: seq<Byte>, at: nat, n: nat)
    requires RecordAt(v, e, s, at) && at + RecLen(e) <= n <= |s| && n <= |t| && s[..n] == t[..n]
    ensures RecordAt(v, e, t, at)
  {
    hide Le, TypeOf, InoOf, NameOf;
    HoldsFrame(s, t, n, at, Le(InoOf(e), 8));
    HoldsFrame(s, t, n, at + 8, Le(RecLen(e), 2));
    HoldsFrame(s, t, n, at + NAME_AT, NameOf(e));
    assert forall i :: 0 <= i < n ==> s[i] == s[..n][i] && t[i] == t[..n][i];
  }

  function PackLen(d: seq<Entry>, i: nat, k: nat): nat
    requires i <= k <= |d|
  {
    if k == i then 0 else PackLen(d, i, k - 1) + RecLen(d[k - 1])
  }

  lemma NothingAligned()
    ensures Aligned(0)
  {
  }

  /** Every record starts aligned. */
  lemma {:induction false} PackLenAligned(d: seq<Entry>, i: nat, k: nat)
    requires i <= k <= |d|
    ensures Aligned(PackLen(d, i, k))
    decreases k
  {
    hide Aligned, RecLen;
    if k == i {
      NothingAligned();
    } else {
      PackLenAligned(d, i, k - 1);
      AlignedSum(PackLen(d, i, k - 1), RecLen(d[k - 1]));
    }
  }

  /** s starts with the records of entries i..j, each at an aligned offset. */
  predicate Packed(v: Version, d: seq<Entry>, i: nat, j: nat, s: seq<Byte>)
    requires i <= j <= |d|
  {
    && PackLen(d, i, j) <= |s|
    && forall k :: i <= k < j ==> RecordAt(v, d[k], s, PackLen(d, i, k))
  }

  lemma {:induction false} PackLenMonotone(d: seq<Entry>, i: nat, k: nat, j: nat)
    requires i <= k <= j <= |d|
    ensures PackLen(d, i, k) <= PackLen(d, i, j)
    decreases j
  {
    if k < j {
      PackLenMonotone(d, i, k, j - 1);
    }
  }

  lemma PackLenNext(d: seq<Entry>, i: nat, k: nat)
    requires i <= k < |d|
    ensures PackLen(d, i, k + 1) == PackLen(d, i, k) + RecLen(d[k])
  {
  }

  /** One of the records, within those that are packed. */
  lemma PackedAt(v: Version, d: seq<Entry>, i: nat, k: nat, j: nat, s: seq<Byte>)
    requires i <= k < j <= |d| && Packed(v, d, i, j, s)
    ensures RecordAt(v, d[k], s, PackLen(d, i, k)) && PackLen(d, i, k) + RecLen(d[k]) <= PackLen(d, i, j) <= |s|
  {
    hide RecordAt, RecLen, PackLen;
    PackLenNext(d, i, k);
    PackLenMonotone(d, i, k + 1, j);
  }

  lemma PackedFrame(v: Version, d: seq<Entry>, i: nat, j: nat, s: seq<Byte>, t: seq<Byte>)
    requires i <= j <= |d| && Packed(v, d, i, j, s)
    requires PackLen(d, i, j) <= |t| && s[..PackLen(d, i, j)] == t[..PackLen(d, i, j)]
    ensures Packed(v, d, i, j, t)
  {
    hide RecordAt, PackLen, RecLen;
    var n := PackLen(d, i, j);
    forall k | i <= k < j ensures RecordAt(v, d[k], t, PackLen(d, i, k)) {
      PackedAt(v, d, i, k, j, s);
      RecordAtFrame(v, d[k], s, t, PackLen(d, i, k), n);
    }
  }

  lemma PackedNext(v: Version, d: seq<Entry>, i: nat, j: nat, s: seq<Byte>)
    requires i <= j < |d| && Packed(v, d, i, j, s) && RecordAt(v, d[j], s, PackLen(d, i, j))
    ensures Packed(v, d, i, j + 1, s)
  {
    hide PackLen, Fields, RecLen;
    PackLenNext(d, i, j);
  }

  // Reading the returned buffer back without knowing what is in it.

  datatype OutRec = OutRec(ino: nat, reclen: nat, kind: nat, namlen: nat, name: seq<Byte>)

  /** Follows d_reclen from record to record up to the buffer's end. */
  function Unpack(s: seq<Byte>, at: nat, end: nat): seq<OutRec>
    requires end <= |s|
    decreases end - at
  {
    if at + DIRENT64_SIZE > end then []
    else
      var reclen := LeVal(s[at + 8..at + 10]);
      if reclen < DIRENT64_SIZE || at + reclen > end then []
      else
        [OutRec(LeVal(s[at..at + 8]), reclen, s[at + 10], s[at + 11], CStr(s[at + NAME_AT..at + reclen]))]
        + Unpack(s, at + reclen, end)
  }

  function OutOf(v: Version, e: Entry): OutRec {
    OutRec(InoOf(e), RecLen(e), TypeOf(v, e) % 256, |NameOf(e)| % 256, NameOf(e))
  }

  /** What of an entry the caller sees: as inode number the path of its qid, its type, its name. */
  lemma EntrySeen(v: Version, s: StatRec, q: Qid, cookie: nat, kind: nat, name: seq<Byte>)
    ensures var o := OutOf(v, Core(s));
      && o.ino == s.qid.path && o.name == s.name && o.namlen == |s.name| % 256
      && o.kind == ModeToDType(v, s.mode, v != V9P2000 && IsBlockDevice(s.extension))
    ensures var o := OutOf(v, Linux(q, cookie, kind, name));
      o.ino == q.path && o.name == name && o.namlen == |name| % 256 && o.kind == kind % 256
  {
  }

  function OutsOf(v: Version, d: seq<Entry>, i: nat, j: nat): seq<OutRec>
    requires j <= |d|
    decreases j - i
  {
    if i >= j then [] else [OutOf(v, d[i])] + OutsOf(v, d, i + 1, j)
  }

  /** The entry's name is a C string short enough for the 16-bit d_reclen. */
  predicate ShortName(e: Entry) {
    NulFree(NameOf(e)) && RecLen(e) < 0x1_0000 && InoOf(e) < TWO_32 * TWO_32
  }

  lemma UntilFound(s: seq<Byte>, name: seq<Byte>)
    requires NulFree(name) && Holds(s, 0, name) && |name| < |s| && s[|name|] == 0
    ensures CStr(s) == name
  {
    var r := CStr(s);
    assert forall i :: 0 <= i < |name| ==> s[i] == name[i];
    assert forall i :: 0 <= i < |r| ==> r[i] == s[i];
    assert |r| == |name|;
  }

  lemma RecordReads(v: Version, e: Entry, s: seq<Byte>, at: nat)
    requires ShortName(e) && RecordAt(v, e, s, at)
    ensures LeVal(s[at + 8..at + 10]) == RecLen(e)
    ensures OutOf(v, e) ==
      OutRec(LeVal(s[at..at + 8]), RecLen(e), s[at + 10], s[at + 11], CStr(s[at + NAME_AT..at + RecLen(e)]))
  {
    hide Le, LeVal, TypeOf, InoOf, NameOf, Until;
    LeWidths(InoOf(e));
    LeWidths(RecLen(e));
    var name, t := NameOf(e), s[at + NAME_AT..at + RecLen(e)];
    SubSlice(s, at + NAME_AT, at + RecLen(e), 0, |name|);
    assert t[|name|] == s[at + NAME_AT + |name|];
    UntilFound(t, name);
  }

  lemma PackedFits(v: Version, d: seq<Entry>, i: nat, j: nat, s: seq<Byte>)
    requires i <= j <= |d| && Packed(v, d, i, j, s)
    ensures PackLen(d, i, j) <= |s|
  {
  }

  lemma OutsStep(v: Version, d: seq<Entry>, k: nat, j: nat)
    requires k < j <= |d|
    ensures OutsOf(v, d, k, j) == [OutOf(v, d[k])] + OutsOf(v, d, k + 1, j)
  {
  }

  lemma NoOuts(v: Version, d: seq<Entry>, j: nat)
    requires j <= |d|
    ensures OutsOf(v, d, j, j) == []
  {
  }

  lemma UnpackEnd(s: seq<Byte>, end: nat)
    requires end <= |s|
    ensures Unpack(s, end, end) == []
  {
  }

  lemma UnpackStep(v: Version, e: Entry, s: seq<Byte>, at: nat, end: nat)
    requires ShortName(e) && RecordAt(v, e, s, at) && at + RecLen(e) <= end <= |s|
    ensures Unpack(s, at, end) == [OutOf(v, e)] + Unpack(s, at + RecLen(e), end)
  {
    hide OutOf, NameOf, RecordAt, LeVal, Until, ShortName, Aligned, RecLen;
    RecordReads(v, e, s, at);
  }

  lemma {:induction false} UnpackFrom(v: Version, d: seq<Entry>, i: nat, k: nat, j: nat, s: seq<Byte>)
    requires i <= k <= j <= |d| && Packed(v, d, i, j, s)
    requires forall e :: i <= e < j ==> ShortName(d[e])
    ensures PackLen(d, i, j) <= |s| && Unpack(s, PackLen(d, i, k), PackLen(d, i, j)) == OutsOf(v, d, k, j)
    decreases j - k
  {
    hide RecordAt, OutOf, RecLen, PackLen, ShortName, Unpack, OutsOf, Packed;
    PackedFits(v, d, i, j, s);
    if k < j {
      PackLenNext(d, i, k);
      PackedAt(v, d, i, k, j, s);
      UnpackStep(v, d[k], s, PackLen(d, i, k), PackLen(d, i, j));
      UnpackFrom(v, d, i, k + 1, j, s);
      OutsStep(v, d, k, j);
    } else {
      UnpackEnd(s, PackLen(d, i, j));
      NoOuts(v, d, j);
    }
  }

  /** The returned bytes are self-delimiting: following the record lengths recovers exactly the
      entries, in order. */
  lemma Unpacks(v: Version, d: seq<Entry>, i: nat, j: nat, s: seq<Byte>)
    requires i <= j <= |d| && Packed(v, d, i, j, s)
    requires forall e :: i <= e < j ==> ShortName(d[e])
    ensures PackLen(d, i, j) <= |s| && Unpack(s, 0, PackLen(d, i, j)) == OutsOf(v, d, i, j)
  {
    hide Packed, Unpack, OutsOf, ShortName;
    assert PackLen(d, i, i) == 0;
    UnpackFrom(v, d, i, i, j, s);
  }

  /** d_reclen names the record's real length exactly when that fits 16 bits. */
  lemma RecLenFits(v: Version, e: Entry, s: seq<Byte>, at: nat)
    requires RecordAt(v, e, s, at)
    ensures at + 10 <= |s|
    ensures LeVal(s[at + 8..at + 10]) == RecLen(e) <==> RecLen(e) < 0x1_0000
  {
    hide Le, LeVal, RecLen, TypeOf, InoOf, NameOf;
    LeTwo(RecLen(e));
  }
}
