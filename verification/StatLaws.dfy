// Laws of the stat and directory-entry codecs: bounds on arbitrary bytes, and parsing as the
// inverse of what is sent.
module StatLaws {
  import opened Bytes
  import opened Wire
  import opened Recv
  import opened RecvLaws
  import opened Stat

  // Bounds.

  lemma {:induction false} MinTotalConcat(a: seq<Slot>, b: seq<Slot>)
    ensures MinTotal(a + b) == MinTotal(a) + MinTotal(b)
  {
    if a == [] {
      assert a + b == b;
    } else {
      DropHead(a, b);
      MinTotalConcat(a[1..], b);
    }
  }

  lemma TwoMore(a: Slot, b: Slot)
    ensures MinTotal([a, b]) == MinBytes(a) + MinBytes(b)
  {
    assert [a, b][1..] == [b];
    OneTail(b);
    assert MinTotal([b]) == MinBytes(b) + MinTotal([]);
  }

  lemma FourMore(a: Slot, b: Slot, c: Slot, d: Slot)
    ensures MinTotal([a, b, c, d]) == MinBytes(a) + MinBytes(b) + MinBytes(c) + MinBytes(d)
  {
    hide MinTotal;
    assert [a, b, c, d] == [a, b] + [c, d];
    MinTotalConcat([a, b], [c, d]);
    TwoMore(a, b);
    TwoMore(c, d);
  }

  lemma NoMore()
    ensures MinTotal([]) == 0
  {
  }

  /** The least a stat can occupy: 49 bytes, or 63 in the extended layout. */
  lemma StatMinTotal(v: Version)
    ensures MinTotal(StatSlots(v)) == MinSize(v) + 2
  {
    hide MinTotal;
    var tail := NAME_SLOTS + (if Extended(v) then U_SLOTS else []);
    MinTotalConcat(FIXED_SLOTS, tail);
    MinTotalConcat(NAME_SLOTS, if Extended(v) then U_SLOTS else []);
    FourMore(SStr, SStr, SStr, SStr);
    FourMore(SStr, S4, S4, S4);
    assert FIXED_SLOTS == [S2, S2, S4, S1] + ([S4, S8, S4, S4] + [S4, S8]);
    MinTotalConcat([S2, S2, S4, S1], [S4, S8, S4, S4] + [S4, S8]);
    MinTotalConcat([S4, S8, S4, S4], [S4, S8]);
    FourMore(S2, S2, S4, S1);
    FourMore(S4, S8, S4, S4);
    TwoMore(S4, S8);
    NoMore();
  }

  /** On arbitrary bytes, success consumes at least the minimum and no more than the record. */
  lemma StatBounds(v: Version, data: seq<Byte>)
    requires StatSpec(v, data).Success?
    ensures |data| >= 2
    ensures MinSize(v) + 2 <= StatSpec(v, data).consumed <= LeVal(data[0..2]) + 2 <= |data|
  {
    hide Parse, StatSlots, StatOf;
    SlotTable(v);
    StatMinTotal(v);
    FitNeeds(StatSlots(v), data, 0, LeVal(data[0..2]) + 2);
  }

  /** Nothing beyond the size that the record itself declares has any influence on success. */
  lemma StatLocal(v: Version, data: seq<Byte>, other: seq<Byte>)
    requires StatSpec(v, data).Success?
    requires |data| >= 2 && LeVal(data[0..2]) + 2 <= |other| && LeVal(data[0..2]) + 2 <= |data|
    requires other[..LeVal(data[0..2]) + 2] == data[..LeVal(data[0..2]) + 2]
    ensures StatSpec(v, other) == StatSpec(v, data)
  {
    hide Parse, StatSlots, StatOf, LeVal;
    var end := LeVal(data[0..2]) + 2;
    SliceLocal(data, end, 0, 2);
    SliceLocal(other, end, 0, 2);
    ParseLocal(StatSlots(v), data, 0, end);
    ParseLocal(StatSlots(v), other, 0, end);
  }

  // Parsing is the inverse of sending.

  predicate Name16(s: seq<Byte>) {
    NulFree(s) && |s| < 0x1_0000
  }

  predicate StatInRange(s: StatRec) {
    && s.kind < 0x1_0000 && s.dev < TWO_32 && QidInRange(s.qid) && s.mode < TWO_32
    && s.atime < TWO_32 && s.mtime < TWO_32 && s.length < TWO_32 * TWO_32
    && Name16(s.name) && Name16(s.uid) && Name16(s.gid) && Name16(s.muid)
    && Name16(s.extension) && s.nUid < TWO_32 && s.nGid < TWO_32 && s.nMuid < TWO_32
  }

  /** A stat as its version can carry it. */
  function Carried(v: Version, s: StatRec, size: nat): StatRec {
    if Extended(v) then s.(size := size)
    else s.(size := size, extension := [], nUid := 0, nGid := 0, nMuid := 0)
  }

  lemma MatchesFour(a: Slot, b: Slot, c: Slot, d: Slot, w: Item, x: Item, y: Item, z: Item)
    requires InRange(w) && Accepts(a, w) && InRange(x) && Accepts(b, x)
    requires InRange(y) && Accepts(c, y) && InRange(z) && Accepts(d, z)
    ensures Matches([a, b, c, d], [w, x, y, z])
  {
    hide InRange, Accepts, Matches;
    MatchesNone();
    MatchesOne(d, z, [], []);
    assert [d] + [] == [d] && [z] + [] == [z];
    MatchesOne(c, y, [d], [z]);
    assert [c] + [d] == [c, d] && [y] + [z] == [y, z];
    MatchesOne(b, x, [c, d], [y, z]);
    assert [b] + [c, d] == [b, c, d] && [x] + [y, z] == [x, y, z];
    MatchesOne(a, w, [b, c, d], [x, y, z]);
    assert [a] + [b, c, d] == [a, b, c, d] && [w] + [x, y, z] == [w, x, y, z];
  }

  lemma FixedMatches(s: StatRec, size: nat)
    requires StatInRange(s) && size < 0x1_0000
    ensures Matches(FIXED_SLOTS, FixedItems(s, size))
  {
    hide Matches, Name16;
    MatchesNone();
    MatchesOne(S8, U64(s.length), [], []);
    assert [S8] + [] == [S8] && [U64(s.length)] + [] == [U64(s.length)];
    MatchesOne(S4, U32(s.mtime), [S8], [U64(s.length)]);
    MatchesFour(S4, S8, S4, S4, U32(s.qid.version), U64(s.qid.path), U32(s.mode), U32(s.atime));
    MatchesFour(S2, S2, S4, S1, U16(size), U16(s.kind), U32(s.dev), U8(s.qid.kind));
    var a, b, c := [S2, S2, S4, S1], [S4, S8, S4, S4], [S4] + [S8];
    var x, y, z := [U16(size), U16(s.kind), U32(s.dev), U8(s.qid.kind)],
      [U32(s.qid.version), U64(s.qid.path), U32(s.mode), U32(s.atime)], [U32(s.mtime)] + [U64(s.length)];
    MatchesConcat(b, y, c, z);
    MatchesConcat(a, x, b + c, y + z);
    assert FIXED_SLOTS == a + (b + c);
    assert FixedItems(s, size) == x + (y + z);
  }

  lemma StatMatches(v: Version, s: StatRec, size: nat)
    requires StatInRange(s) && size < 0x1_0000
    ensures Matches(StatSlots(v), StatItems(v, s, size))
  {
    hide Matches;
    FixedMatches(s, size);
    CStrOfNulFree(s.name);
    CStrOfNulFree(s.uid);
    CStrOfNulFree(s.gid);
    CStrOfNulFree(s.muid);
    CStrOfNulFree(s.extension);
    MatchesFour(SStr, SStr, SStr, SStr, Str(s.name), Str(s.uid), Str(s.gid), Str(s.muid));
    MatchesFour(SStr, S4, S4, S4, Str(s.extension), U32(s.nUid), U32(s.nGid), U32(s.nMuid));
    MatchesNone();
    var slots, items := if Extended(v) then U_SLOTS else [], if Extended(v) then UItems(s) else [];
    MatchesConcat(NAME_SLOTS, NameItems(s), slots, items);
    MatchesConcat(FIXED_SLOTS, FixedItems(s, size), NAME_SLOTS + slots, NameItems(s) + items);
  }

  lemma {:induction false} ValsAt(items: seq<Item>, i: nat)
    requires i < |items|
    ensures ValsOf(items)[i] == ValOf(items[i])
  {
    if i > 0 {
      ValsAt(items[1..], i - 1);
    }
  }

  lemma ItemCounts(s: StatRec, size: nat)
    ensures |FixedItems(s, size)| == 10 && |NameItems(s)| == 4 && |UItems(s)| == 4
  {
  }

  lemma ItemTable(v: Version, s: StatRec, size: nat)
    ensures |StatItems(v, s, size)| == if Extended(v) then 18 else 14
    ensures StatItems(v, s, size)[..10] == FixedItems(s, size)
    ensures StatItems(v, s, size)[10..14] == NameItems(s)
    ensures Extended(v) ==> StatItems(v, s, size)[14..18] == UItems(s)
  {
    hide FixedItems, NameItems, UItems;
    assert |FixedItems(s, size)| == 10 && |NameItems(s)| == 4 && |UItems(s)| == 4 by { ItemCounts(s, size); }
  }

  function Number(it: Item): nat {
    match it
    case U8(n) => n
    case U16(n) => n
    case U32(n) => n
    case U64(n) => n
    case _ => 0
  }

  lemma NumValue(items: seq<Item>, i: nat)
    requires i < |items|
    requires items[i].U8? || items[i].U16? || items[i].U32? || items[i].U64?
    ensures NumAt(ValsOf(items), i) == Number(items[i])
  {
    ValsAt(items, i);
  }

  lemma FixedValues(items: seq<Item>, s: StatRec, size: nat)
    requires |items| >= 10 && items[..10] == FixedItems(s, size)
    ensures FixedOf(ValsOf(items)) == s.(size := size, name := [], uid := [], gid := [], muid := [],
                                         extension := [], nUid := 0, nGid := 0, nMuid := 0)
  {
    hide ValsOf, NumAt;
    assert forall i :: 0 <= i < 10 ==> items[i] == FixedItems(s, size)[i];
    NumValue(items, 0);
    NumValue(items, 1);
    NumValue(items, 2);
    NumValue(items, 3);
    NumValue(items, 4);
    NumValue(items, 5);
    NumValue(items, 6);
    NumValue(items, 7);
    NumValue(items, 8);
    NumValue(items, 9);
  }

  lemma TextValue(items: seq<Item>, i: nat, t: seq<Byte>)
    requires i < |items| && items[i] == Str(t) && NulFree(t)
    ensures TextAt(ValsOf(items), i) == t
  {
    ValsAt(items, i);
    CStrOfNulFree(t);
  }

  lemma PastTheEnd(vals: seq<Val>)
    requires |vals| == 14
    ensures TextAt(vals, 14) == [] && NumAt(vals, 15) == 0 && NumAt(vals, 16) == 0 && NumAt(vals, 17) == 0
  {
  }

  lemma StatValues(v: Version, s: StatRec, size: nat)
    requires StatInRange(s)
    ensures StatOf(ValsOf(StatItems(v, s, size))) == Carried(v, s, size)
  {
    hide StatItems, FixedOf, FixedItems, TextAt, NumAt;
    var items := StatItems(v, s, size);
    ItemTable(v, s, size);
    FixedValues(items, s, size);
    assert forall i :: 10 <= i < 14 ==> items[i] == NameItems(s)[i - 10];
    TextValue(items, 10, s.name);
    TextValue(items, 11, s.uid);
    TextValue(items, 12, s.gid);
    TextValue(items, 13, s.muid);
    if Extended(v) {
      assert forall i :: 14 <= i < 18 ==> items[i] == UItems(s)[i - 14];
      TextValue(items, 14, s.extension);
      NumValue(items, 15);
      NumValue(items, 16);
      NumValue(items, 17);
    } else {
      PastTheEnd(ValsOf(items));
    }
  }

  /** The wire length of a stat, its own size field included. */
  function StatLength(v: Version, s: StatRec): (n: nat)
    ensures n >= 49
  {
    MinSize(v) + 2 + |s.name| + |s.uid| + |s.gid| + |s.muid| + (if Extended(v) then |s.extension| else 0)
  }

  lemma LengthTwo(w: Item, x: Item)
    ensures |Encode([w, x])| == |EncodeItem(w)| + |EncodeItem(x)|
  {
    hide EncodeItem;
    assert [w, x] == [w] + [x];
    EncodeConcat([w], [x]);
    EncodeOne(w);
    EncodeOne(x);
  }

  lemma LengthFour(w: Item, x: Item, y: Item, z: Item)
    ensures |Encode([w, x, y, z])| == |EncodeItem(w)| + |EncodeItem(x)| + |EncodeItem(y)| + |EncodeItem(z)|
  {
    hide EncodeItem;
    assert [w, x, y, z] == [w, x] + [y, z];
    EncodeConcat([w, x], [y, z]);
    LengthTwo(w, x);
    LengthTwo(y, z);
  }

  lemma FixedLength(s: StatRec, size: nat)
    ensures |Encode(FixedItems(s, size))| == 41
  {
    hide Encode;
    var a := [U16(size), U16(s.kind), U32(s.dev), U8(s.qid.kind)];
    var b := [U32(s.qid.version), U64(s.qid.path), U32(s.mode), U32(s.atime)];
    var c := [U32(s.mtime), U64(s.length)];
    assert FixedItems(s, size) == a + (b + c);
    EncodeConcat(a, b + c);
    EncodeConcat(b, c);
    LengthFour(U16(size), U16(s.kind), U32(s.dev), U8(s.qid.kind));
    LengthFour(U32(s.qid.version), U64(s.qid.path), U32(s.mode), U32(s.atime));
    LengthTwo(U32(s.mtime), U64(s.length));
  }

  lemma FixedParts(s: StatRec, size: nat)
    ensures Encode(FixedItems(s, size)) ==
      Encode([U16(size), U16(s.kind), U32(s.dev), U8(s.qid.kind)])
      + (Encode([U32(s.qid.version), U64(s.qid.path), U32(s.mode), U32(s.atime)])
         + (EncodeItem(U32(s.mtime)) + EncodeItem(U64(s.length))))
  {
    hide Encode, EncodeItem;
    var a := [U16(size), U16(s.kind), U32(s.dev), U8(s.qid.kind)];
    var b := [U32(s.qid.version), U64(s.qid.path), U32(s.mode), U32(s.atime)];
    assert FixedItems(s, size) == a + (b + ([U32(s.mtime)] + [U64(s.length)]));
    EncodeConcat(a, b + ([U32(s.mtime)] + [U64(s.length)]));
    EncodeConcat(b, [U32(s.mtime)] + [U64(s.length)]);
    EncodeConcat([U32(s.mtime)], [U64(s.length)]);
    EncodeOne(U32(s.mtime));
    EncodeOne(U64(s.length));
  }

  lemma EncodeNone()
    ensures Encode([]) == []
  {
  }

  lemma EncodedStatLength(v: Version, s: StatRec, size: nat)
    requires StatInRange(s)
    ensures |Encode(StatItems(v, s, size))| == StatLength(v, s)
  {
    hide Encode, FixedItems;
    CStrOfNulFree(s.name);
    CStrOfNulFree(s.uid);
    CStrOfNulFree(s.gid);
    CStrOfNulFree(s.muid);
    CStrOfNulFree(s.extension);
    FixedLength(s, size);
    LengthFour(Str(s.name), Str(s.uid), Str(s.gid), Str(s.muid));
    LengthFour(Str(s.extension), U32(s.nUid), U32(s.nGid), U32(s.nMuid));
    EncodeNone();
    var items := if Extended(v) then UItems(s) else [];
    EncodeConcat(NameItems(s), items);
    EncodeConcat(FixedItems(s, size), NameItems(s) + items);
  }

  lemma FirstFixed(s: StatRec, size: nat)
    ensures |FixedItems(s, size)| == 10 && FixedItems(s, size)[0] == U16(size)
  {
  }

  lemma SizeFieldFirst(v: Version, s: StatRec, size: nat)
    ensures Holds(Encode(StatItems(v, s, size)), 0, Le(size, 2))
  {
    hide FixedItems, NameItems, UItems;
    var items := StatItems(v, s, size);
    ItemTable(v, s, size);
    assert items[0] == FixedItems(s, size)[0] == U16(size) by { FirstFixed(s, size); }
    assert Encode(items) == EncodeItem(items[0]) + Encode(items[1..]);
  }

  /** A stat sent with size field total - 2 is parsed back, with anything behind it. */
  lemma EncodedStatParses(v: Version, s: StatRec, data: seq<Byte>)
    requires StatInRange(s) && StatLength(v, s) - 2 < 0x1_0000
    requires Holds(data, 0, Encode(StatItems(v, s, StatLength(v, s) - 2)))
    ensures StatSpec(v, data) == Success(Carried(v, s, StatLength(v, s) - 2), StatLength(v, s))
  {
    hide Encode, Parse, StatItems, StatSlots, StatOf, ValsOf, Matches, Carried, StatInRange, Le, LeVal;
    var size := StatLength(v, s) - 2;
    var items := StatItems(v, s, size);
    EncodedStatLength(v, s, size);
    SizeFieldFirst(v, s, size);
    LeWidths(size);
    assert data[0..2] == Encode(items)[0..2];
    StatMatches(v, s, size);
    ParseWhole(StatSlots(v), items, data, 0);
    StatValues(v, s, size);
  }

  /** C arithmetic: n - 2 passed as an unsigned argument. */
  function LessTwo(n: nat): nat {
    if n >= 2 then n - 2 else TWO_32 + n - 2
  }

  /** The wstat request's arguments; the stat's length is kept in 16 bits. */
  function WstatItems(v: Version, fid: nat, s: StatRec): seq<Item> {
    var statSize := Wrap32(|Encode(StatItems(v, s, s.size))|) % 0x1_0000;
    [U32(fid), U16(statSize)] + StatItems(v, s, LessTwo(statSize))
  }

  lemma {:induction false} MatchedSendable(slots: seq<Slot>, items: seq<Item>)
    requires Matches(slots, items)
    ensures forall i :: 0 <= i < |items| ==> InRange(items[i])
    decreases |items|
  {
    hide InRange, Accepts;
    if items != [] {
      MatchedSendable(slots[1..], items[1..]);
      forall i | 0 <= i < |items| ensures InRange(items[i]) {
        if i > 0 { assert items[i] == items[1..][i - 1]; }
      }
    }
  }

  lemma NoQids(v: Version, s: StatRec, size: nat)
    ensures forall i :: 0 <= i < |StatItems(v, s, size)| ==> !StatItems(v, s, size)[i].Qids?
  {
  }

  lemma StatSendable(v: Version, s: StatRec, size: nat)
    requires StatInRange(s) && size < 0x1_0000
    ensures forall i :: 0 <= i < |StatItems(v, s, size)| ==> Sendable(StatItems(v, s, size)[i])
  {
    hide StatItems, StatSlots;
    StatMatches(v, s, size);
    MatchedSendable(StatSlots(v), StatItems(v, s, size));
    NoQids(v, s, size);
  }

  method Wstat(v: Version, fid: nat, s: StatRec) returns (items: seq<Item>)
    requires StatInRange(s) && s.size < 0x1_0000 && fid < TWO_32
    ensures items == WstatItems(v, fid, s)
  {
    hide StatItems;
    StatSendable(v, s, s.size);
    var n := SerializedSize(StatItems(v, s, s.size));
    var statSize := n % 0x1_0000;
    items := [U32(fid), U16(statSize)] + StatItems(v, s, LessTwo(statSize));
  }

  lemma LengthBound(v: Version, s: StatRec)
    requires StatInRange(s)
    ensures StatLength(v, s) < TWO_32
  {
  }

  lemma WstatBody(v: Version, fid: nat, s: StatRec)
    requires StatInRange(s)
    ensures var total := StatLength(v, s); var statSize := total % 0x1_0000;
      Encode(WstatItems(v, fid, s)) == Le(fid, 4) + Le(statSize, 2) + Encode(StatItems(v, s, LessTwo(statSize)))
  {
    hide StatItems, StatInRange, Encode, StatLength;
    EncodedStatLength(v, s, s.size);
    assert StatLength(v, s) < TWO_32 by { LengthBound(v, s); }
    var statSize := StatLength(v, s) % 0x1_0000;
    var head := [U32(fid), U16(statSize)];
    EncodeConcat(head, StatItems(v, s, LessTwo(statSize)));
    assert head == [U32(fid)] + [U16(statSize)];
    EncodeConcat([U32(fid)], [U16(statSize)]);
    EncodeOne(U32(fid));
    EncodeOne(U16(statSize));
  }

  lemma LeTwo(n: nat)
    ensures LeVal(Le(n, 2)) == n % 0x1_0000
  {
    assert Le(n, 2) == [n % 256] + Le(n / 256, 1);
    assert Le(n, 2)[1..] == Le(n / 256, 1);
    assert Le(n / 256, 1) == [n / 256 % 256] + Le(n / 256 / 256, 0);
    assert Le(n / 256, 1)[1..] == [];
    assert LeVal(Le(n / 256, 1)) == n / 256 % 256 + 256 * LeVal([]);
  }

  lemma LowHalf(n: nat)
    requires n < 0x10_0000
    ensures LeVal(Le(LessTwo(n % 0x1_0000), 2)) == (n + 0x1_0000 - 2) % 0x1_0000
  {
    LeTwo(LessTwo(n % 0x1_0000));
    hide Le, LeVal;
    var m := n % 0x1_0000;
    if m < 2 {
      assert LessTwo(m) == 0xFFFF * 0x1_0000 + (m + 0x1_0000 - 2);
      assert LessTwo(m) % 0x1_0000 == m + 0x1_0000 - 2;
    } else {
      assert LessTwo(m) % 0x1_0000 == m - 2;
    }
  }

  lemma LengthSmall(v: Version, s: StatRec)
    requires StatInRange(s)
    ensures 49 <= StatLength(v, s) < 0x10_0000
  {
  }

  lemma SameLow(a: nat, b: nat)
    requires b < 0x1_0000 && a % 0x1_0000 == b
    ensures Le(a, 2) == Le(b, 2)
  {
    assert a % 256 == b % 256;
    assert a / 256 % 256 == b / 256 % 256;
    assert Le(a, 2) == [a % 256] + ([a / 256 % 256] + Le(a / 256 / 256, 0));
    assert Le(b, 2) == [b % 256] + ([b / 256 % 256] + Le(b / 256 / 256, 0));
  }

  /** Only the low 16 bits of the size argument reach the wire. */
  lemma LowBytesOnly(v: Version, s: StatRec, a: nat, b: nat)
    requires b < 0x1_0000 && LeVal(Le(a, 2)) == b
    ensures Encode(StatItems(v, s, a)) == Encode(StatItems(v, s, b))
  {
    hide Encode, NameItems, UItems;
    LeTwo(a);
    assert a % 0x1_0000 == b;
    SameLow(a, b);
    var tail := NameItems(s) + (if Extended(v) then UItems(s) else []);
    EncodeConcat(FixedItems(s, a), tail);
    EncodeConcat(FixedItems(s, b), tail);
    var others := FixedItems(s, a)[1..];
    assert FixedItems(s, a) == [U16(a)] + others && FixedItems(s, b) == [U16(b)] + others;
    EncodeConcat([U16(a)], others);
    EncodeConcat([U16(b)], others);
    EncodeOne(U16(a));
    EncodeOne(U16(b));
  }

  /** The stat inside a wstat message, followed by any bytes, is parsed to the same fields with
      size = length - 2 and the length consumed, exactly when length - 2 fits 16 bits; the outer
      count in front of it is right exactly when the length itself does. */
  lemma WstatParsesBack(v: Version, fid: nat, s: StatRec, rest: seq<Byte>)
    requires StatInRange(s)
    ensures var total, body := StatLength(v, s), Encode(WstatItems(v, fid, s));
      && |body| == 6 + total && (fid < TWO_32 ==> LeVal(body[..4]) == fid)
      && (LeVal(body[4..6]) == total <==> total < 0x1_0000)
      && (StatSpec(v, body[6..] + rest) == Success(Carried(v, s, total - 2), total) <==> total - 2 < 0x1_0000)
  {
    hide StatItems, StatInRange, Encode, StatLength, StatSpec, Carried, Le, LeVal, WstatItems;
    var total, body := StatLength(v, s), Encode(WstatItems(v, fid, s));
    var statSize := total % 0x1_0000;
    var stat := Encode(StatItems(v, s, LessTwo(statSize)));
    WstatBody(v, fid, s);
    EncodedStatLength(v, s, LessTwo(statSize));
    assert body[..4] == Le(fid, 4) && body[4..6] == Le(statSize, 2) && body[6..] == stat;
    LeWidths(fid);
    LeWidths(statSize);
    LengthSmall(v, s);
    LowHalf(total);
    SizeFieldFirst(v, s, LessTwo(statSize));
    var data := stat + rest;
    assert data[0..2] == Le(LessTwo(statSize), 2);
    if total - 2 < 0x1_0000 {
      LowBytesOnly(v, s, LessTwo(statSize), total - 2);
      assert data[0..|stat|] == stat;
      EncodedStatParses(v, s, data);
    } else if StatSpec(v, data).Success? {
      StatBounds(v, data);
    }
  }

  /** The "don't touch" stat's size field is its real encoded size less two. */
  method DontTouchSize(v: Version) returns (s: StatRec)
    ensures StatInRange(s) && |Encode(StatItems(v, s, s.size))| == s.size + 2
  {
    hide Encode, StatItems;
    s := StatDontTouch(v);
    EncodedStatLength(v, s, s.size);
  }

  // Directory entries.

  function DirentItems(qid: Qid, offset: nat, kind: nat, name: seq<Byte>): seq<Item> {
    [U8(qid.kind), U32(qid.version), U64(qid.path), U64(offset), U8(kind), Str(name)]
  }

  predicate DirentInRange(qid: Qid, offset: nat, kind: nat, name: seq<Byte>) {
    QidInRange(qid) && offset < TWO_32 * TWO_32 && kind < 0x100 && Name16(name)
  }

  lemma DirentMatches(qid: Qid, offset: nat, kind: nat, name: seq<Byte>)
    requires DirentInRange(qid, offset, kind, name)
    ensures Matches(DIRENT_SLOTS, DirentItems(qid, offset, kind, name))
  {
    hide Matches;
    CStrOfNulFree(name);
    MatchesNone();
    MatchesOne(SStr, Str(name), [], []);
    assert [SStr] + [] == [SStr] && [Str(name)] + [] == [Str(name)];
    MatchesOne(S1, U8(kind), [SStr], [Str(name)]);
    MatchesFour(S1, S4, S8, S8, U8(qid.kind), U32(qid.version), U64(qid.path), U64(offset));
    var a, b := [S1, S4, S8, S8], [S1] + [SStr];
    var x, y := [U8(qid.kind), U32(qid.version), U64(qid.path), U64(offset)], [U8(kind)] + [Str(name)];
    MatchesConcat(a, x, b, y);
    assert DIRENT_SLOTS == a + b && DirentItems(qid, offset, kind, name) == x + y;
  }

  lemma DirentLength(qid: Qid, offset: nat, kind: nat, name: seq<Byte>)
    requires NulFree(name)
    ensures |Encode(DirentItems(qid, offset, kind, name))| == DIRENT_MIN + |name|
  {
    hide Encode;
    CStrOfNulFree(name);
    var x, y := [U8(qid.kind), U32(qid.version), U64(qid.path), U64(offset)], [U8(kind), Str(name)];
    assert DirentItems(qid, offset, kind, name) == x + y;
    EncodeConcat(x, y);
    LengthFour(U8(qid.kind), U32(qid.version), U64(qid.path), U64(offset));
    LengthTwo(U8(kind), Str(name));
  }

  /** A directory entry followed by any bytes is parsed to its fields and length. */
  lemma EncodedDirentParses(qid: Qid, offset: nat, kind: nat, name: seq<Byte>, data: seq<Byte>)
    requires DirentInRange(qid, offset, kind, name)
    requires Holds(data, 0, Encode(DirentItems(qid, offset, kind, name)))
    ensures DirentSpec(data) == Dirent(qid, offset, kind, name, DIRENT_MIN + |name|)
  {
    hide Encode, Parse, Matches, ValsOf, NumAt;
    var items := DirentItems(qid, offset, kind, name);
    var n := DIRENT_MIN + |name|;
    DirentMatches(qid, offset, kind, name);
    DirentLength(qid, offset, kind, name);
    assert DIRENT_SLOTS + [] == DIRENT_SLOTS;
    ParsePrefix(DIRENT_SLOTS, items, [], data, 0, |data|);
    ParseNothing(data, n, |data|);
    assert ValsOf(items) + [] == ValsOf(items);
    NumValue(items, 0);
    NumValue(items, 1);
    NumValue(items, 2);
    NumValue(items, 3);
    NumValue(items, 4);
    TextValue(items, 5, name);
  }

  lemma DirentBounds(data: seq<Byte>)
    requires DirentSpec(data).Dirent?
    ensures DIRENT_MIN <= DirentSpec(data).consumed <= |data|
  {
    hide Parse;
    DirentTable();
    FitNeeds(DIRENT_SLOTS, data, 0, |data|);
  }

  // Where the fields stand.

  lemma HoldsFour(data: seq<Byte>, at: nat, w: Item, x: Item, y: Item, z: Item, rest: seq<Byte>)
    requires Holds(data, at, Encode([w, x, y, z]) + rest)
    ensures var i := at + |EncodeItem(w)|; var j := i + |EncodeItem(x)|; var k := j + |EncodeItem(y)|;
      && Holds(data, at, EncodeItem(w)) && Holds(data, i, EncodeItem(x)) && Holds(data, j, EncodeItem(y))
      && Holds(data, k, EncodeItem(z)) && Holds(data, k + |EncodeItem(z)|, rest)
  {
    hide EncodeItem, Holds;
    Body4(w, x, y, z);
    var a, b, c, d := EncodeItem(w), EncodeItem(x), EncodeItem(y), EncodeItem(z);
    HoldsSplit(data, at, a + b + c + d, rest);
    HoldsSplit(data, at, a + b + c, d);
    HoldsSplit(data, at, a + b, c);
    HoldsSplit(data, at, a, b);
  }

  /** The number n stands in k bytes at `at`, least significant byte first. */
  predicate NumberIs(data: seq<Byte>, at: nat, k: nat, n: nat) {
    at + k <= |data| && LeVal(data[at..at + k]) == n
  }

  /** The string s stands at `at`, after its 16-bit length. */
  predicate TextIs(data: seq<Byte>, at: nat, s: seq<Byte>) {
    NumberIs(data, at, 2, |s|) && at + 2 + |s| <= |data| && data[at + 2..at + 2 + |s|] == s
  }

  predicate FixedStand(s: StatRec, size: nat, data: seq<Byte>) {
    && NumberIs(data, 0, 2, size) && NumberIs(data, 2, 2, s.kind) && NumberIs(data, 4, 4, s.dev)
    && NumberIs(data, 8, 1, s.qid.kind) && NumberIs(data, 9, 4, s.qid.version) && NumberIs(data, 13, 8, s.qid.path)
    && NumberIs(data, 21, 4, s.mode) && NumberIs(data, 25, 4, s.atime) && NumberIs(data, 29, 4, s.mtime)
    && NumberIs(data, 33, 8, s.length)
  }

  predicate NamesStand(s: StatRec, data: seq<Byte>) {
    && TextIs(data, 41, s.name) && TextIs(data, 43 + |s.name|, s.uid)
    && TextIs(data, 45 + |s.name| + |s.uid|, s.gid) && TextIs(data, 47 + |s.name| + |s.uid| + |s.gid|, s.muid)
  }

  predicate UStand(s: StatRec, at: nat, data: seq<Byte>) {
    && TextIs(data, at, s.extension) && NumberIs(data, at + 2 + |s.extension|, 4, s.nUid)
    && NumberIs(data, at + 6 + |s.extension|, 4, s.nGid) && NumberIs(data, at + 10 + |s.extension|, 4, s.nMuid)
  }

  lemma StoredAt(data: seq<Byte>, at: nat, n: nat, k: nat)
    requires Holds(data, at, Le(n, k)) && LeVal(Le(n, k)) == n
    ensures NumberIs(data, at, k, n)
  {
  }

  lemma TextStored(data: seq<Byte>, at: nat, s: seq<Byte>)
    requires Name16(s) && Holds(data, at, EncodeItem(Str(s)))
    ensures TextIs(data, at, s)
  {
    CStrOfNulFree(s);
    LeWidths(|s|);
    HoldsSplit(data, at, Le(|s|, 2), s);
  }

  /** A number that fits its field. */
  predicate Numeric(it: Item) {
    (it.U8? || it.U16? || it.U32? || it.U64?) && InRange(it)
  }

  function Width(it: Item): nat {
    if it.U8? then 1 else if it.U16? then 2 else if it.U32? then 4 else 8
  }

  lemma NumberLength(it: Item)
    requires Numeric(it)
    ensures |EncodeItem(it)| == Width(it)
  {
  }

  lemma NumberStored(data: seq<Byte>, at: nat, it: Item)
    requires Numeric(it) && Holds(data, at, EncodeItem(it))
    ensures NumberIs(data, at, Width(it), Number(it))
  {
    LeWidths(it.n);
    hide Le, LeVal, Holds, NumberIs;
    StoredAt(data, at, it.n, Width(it));
  }

  lemma FourNumbers(data: seq<Byte>, at: nat, w: Item, x: Item, y: Item, z: Item, rest: seq<Byte>)
    requires Numeric(w) && Numeric(x) && Numeric(y) && Numeric(z) && Holds(data, at, Encode([w, x, y, z]) + rest)
    ensures var i := at + Width(w); var j := i + Width(x); var k := j + Width(y);
      && NumberIs(data, at, Width(w), Number(w)) && NumberIs(data, i, Width(x), Number(x))
      && NumberIs(data, j, Width(y), Number(y)) && NumberIs(data, k, Width(z), Number(z))
      && Holds(data, k + Width(z), rest)
  {
    hide EncodeItem, Encode, Holds, NumberIs, Numeric, Width;
    HoldsFour(data, at, w, x, y, z, rest);
    NumberLength(w);
    NumberLength(x);
    NumberLength(y);
    NumberLength(z);
    NumberStored(data, at, w);
    NumberStored(data, at + Width(w), x);
    NumberStored(data, at + Width(w) + Width(x), y);
    NumberStored(data, at + Width(w) + Width(x) + Width(y), z);
  }

  lemma LastTwo(mtime: nat, length: nat, data: seq<Byte>, rest: seq<Byte>)
    requires mtime < TWO_32 && length < TWO_32 * TWO_32
    requires Holds(data, 29, EncodeItem(U32(mtime)) + (EncodeItem(U64(length)) + rest))
    ensures NumberIs(data, 29, 4, mtime) && NumberIs(data, 33, 8, length) && Holds(data, 41, rest)
  {
    hide EncodeItem, Holds, NumberIs;
    NumberLength(U32(mtime));
    NumberLength(U64(length));
    HoldsSplit(data, 29, EncodeItem(U32(mtime)), EncodeItem(U64(length)) + rest);
    HoldsSplit(data, 33, EncodeItem(U64(length)), rest);
    NumberStored(data, 29, U32(mtime));
    NumberStored(data, 33, U64(length));
  }

  lemma FixedLayout(s: StatRec, size: nat, data: seq<Byte>, rest: seq<Byte>)
    requires StatInRange(s) && size < 0x1_0000 && Holds(data, 0, Encode(FixedItems(s, size)) + rest)
    ensures FixedStand(s, size, data) && Holds(data, 41, rest)
  {
    hide Holds, Encode, Name16, NumberIs, EncodeItem;
    FixedParts(s, size);
    var a := Encode([U16(size), U16(s.kind), U32(s.dev), U8(s.qid.kind)]);
    var b := Encode([U32(s.qid.version), U64(s.qid.path), U32(s.mode), U32(s.atime)]);
    var c, d := EncodeItem(U32(s.mtime)), EncodeItem(U64(s.length));
    assert Encode(FixedItems(s, size)) + rest == a + (b + (c + (d + rest)));
    FourNumbers(data, 0, U16(size), U16(s.kind), U32(s.dev), U8(s.qid.kind), b + (c + (d + rest)));
    FourNumbers(data, 9, U32(s.qid.version), U64(s.qid.path), U32(s.mode), U32(s.atime), c + (d + rest));
    LastTwo(s.mtime, s.length, data, rest);
  }

  lemma TextLength(s: seq<Byte>)
    requires Name16(s)
    ensures |EncodeItem(Str(s))| == 2 + |s|
  {
    CStrOfNulFree(s);
  }

  lemma FourTexts(a: seq<Byte>, b: seq<Byte>, c: seq<Byte>, d: seq<Byte>, data: seq<Byte>, at: nat, rest: seq<Byte>)
    requires Name16(a) && Name16(b) && Name16(c) && Name16(d)
    requires Holds(data, at, Encode([Str(a), Str(b), Str(c), Str(d)]) + rest)
    ensures TextIs(data, at, a) && TextIs(data, at + 2 + |a|, b) && TextIs(data, at + 4 + |a| + |b|, c)
    ensures TextIs(data, at + 6 + |a| + |b| + |c|, d) && Holds(data, at + 8 + |a| + |b| + |c| + |d|, rest)
  {
    hide Holds, Encode, TextIs, Name16, EncodeItem;
    TextLength(a);
    TextLength(b);
    TextLength(c);
    TextLength(d);
    HoldsFour(data, at, Str(a), Str(b), Str(c), Str(d), rest);
    TextStored(data, at, a);
    TextStored(data, at + 2 + |a|, b);
    TextStored(data, at + 4 + |a| + |b|, c);
    TextStored(data, at + 6 + |a| + |b| + |c|, d);
  }

  lemma NamesLayout(s: StatRec, data: seq<Byte>, rest: seq<Byte>)
    requires StatInRange(s) && Holds(data, 41, Encode(NameItems(s)) + rest)
    ensures NamesStand(s, data) && Holds(data, 49 + |s.name| + |s.uid| + |s.gid| + |s.muid|, rest)
  {
    hide Holds, Encode, TextIs, Name16;
    FourTexts(s.name, s.uid, s.gid, s.muid, data, 41, rest);
  }

  lemma ExtensionThen(e: seq<Byte>, x: nat, y: nat, z: nat, at: nat, data: seq<Byte>)
    requires Name16(e) && x < TWO_32 && y < TWO_32 && z < TWO_32
    requires Holds(data, at, Encode([Str(e), U32(x), U32(y), U32(z)]) + [])
    ensures TextIs(data, at, e) && NumberIs(data, at + 2 + |e|, 4, x) && NumberIs(data, at + 6 + |e|, 4, y)
    ensures NumberIs(data, at + 10 + |e|, 4, z)
  {
    hide Holds, Encode, TextIs, Name16, NumberIs, EncodeItem;
    TextLength(e);
    NumberLength(U32(x));
    NumberLength(U32(y));
    NumberLength(U32(z));
    HoldsFour(data, at, Str(e), U32(x), U32(y), U32(z), []);
    TextStored(data, at, e);
    NumberStored(data, at + 2 + |e|, U32(x));
    NumberStored(data, at + 6 + |e|, U32(y));
    NumberStored(data, at + 10 + |e|, U32(z));
  }

  lemma ULayout(s: StatRec, at: nat, data: seq<Byte>)
    requires StatInRange(s) && Holds(data, at, Encode(UItems(s)) + [])
    ensures UStand(s, at, data)
  {
    hide Holds, Encode, TextIs, Name16, NumberIs;
    ExtensionThen(s.extension, s.nUid, s.nGid, s.nMuid, at, data);
  }

  /** Where stat(5) has the fields of a stat, the encoding has them: the fixed ones in the first 41
      bytes, then four names, and after these the extension and three numbers, from 9P2000.u on. */
  lemma StatLayout(v: Version, s: StatRec, size: nat)
    requires StatInRange(s) && size < 0x1_0000
    ensures var data := Encode(StatItems(v, s, size)); var end := 49 + |s.name| + |s.uid| + |s.gid| + |s.muid|;
      && FixedStand(s, size, data) && NamesStand(s, data)
      && if v == V9P2000 then |data| == end else UStand(s, end, data) && |data| == end + 14 + |s.extension|
  {
    hide Encode, FixedItems, NameItems, UItems, FixedStand, NamesStand, UStand, StatInRange;
    EncodedStatLength(v, s, size);
    var data := Encode(StatItems(v, s, size));
    var last := if Extended(v) then UItems(s) else [];
    EncodeConcat(FixedItems(s, size), NameItems(s) + last);
    EncodeConcat(NameItems(s), last);
    HoldsItself(data);
    FixedLayout(s, size, data, Encode(NameItems(s)) + Encode(last));
    NamesLayout(s, data, Encode(last));
    if Extended(v) {
      assert Encode(last) + [] == Encode(last);
      ULayout(s, 49 + |s.name| + |s.uid| + |s.gid| + |s.muid|, data);
    }
  }

  /** Likewise for a directory entry: qid, offset, type and name. */
  lemma DirentLayout(qid: Qid, offset: nat, kind: nat, name: seq<Byte>)
    requires DirentInRange(qid, offset, kind, name)
    ensures var data := Encode(DirentItems(qid, offset, kind, name));
      && NumberIs(data, 0, 1, qid.kind) && NumberIs(data, 1, 4, qid.version) && NumberIs(data, 5, 8, qid.path)
      && NumberIs(data, 13, 8, offset) && NumberIs(data, 21, 1, kind) && TextIs(data, 22, name)
      && |data| == 24 + |name|
  {
    hide Encode, Holds, NumberIs, TextIs, EncodeItem, NulFree;
    DirentLength(qid, offset, kind, name);
    NumberLength(U8(kind));
    var data := Encode(DirentItems(qid, offset, kind, name));
    var head, tail := [U8(qid.kind), U32(qid.version), U64(qid.path), U64(offset)], [U8(kind)] + [Str(name)];
    assert DirentItems(qid, offset, kind, name) == head + tail;
    EncodeConcat(head, tail);
    EncodeConcat([U8(kind)], [Str(name)]);
    EncodeOne(U8(kind));
    EncodeOne(Str(name));
    HoldsItself(data);
    FourNumbers(data, 0, U8(qid.kind), U32(qid.version), U64(qid.path), U64(offset), Encode(tail));
    HoldsSplit(data, 21, EncodeItem(U8(kind)), EncodeItem(Str(name)));
    NumberStored(data, 21, U8(kind));
    TextStored(data, 22, name);
  }
}
