// The second, hand-written codec: stat records and directory entries parsed from memory, and
// the wstat message. It is specified by the format-driven codec it duplicates.
module Stat {
  import opened Bytes
  import opened Wire
  import opened Recv
  import opened RecvLaws

  datatype Version = V9P2000 | V9P2000u | V9P2000L

  /** The extended (.u) stat layout is used from 9P2000.u on. */
  predicate Extended(v: Version) {
    v != V9P2000
  }

  /** The fields of a stat; the last four exist in extended stats only. */
  datatype StatRec = StatRec(
    size: nat, kind: nat, dev: nat, qid: Qid, mode: nat, atime: nat, mtime: nat, length: nat,
    name: seq<Byte>, uid: seq<Byte>, gid: seq<Byte>, muid: seq<Byte>,
    extension: seq<Byte>, nUid: nat, nGid: nat, nMuid: nat)

  const STAT_MIN: nat := 2 + 4 + 13 + 4 + 4 + 4 + 8 + 2 + 2 + 2 + 2
  const U_STAT_MIN: nat := STAT_MIN + 2 + 4 + 4 + 4

  function MinSize(v: Version): nat {
    if Extended(v) then U_STAT_MIN else STAT_MIN
  }

  // The format strings.

  const FIXED_SLOTS: seq<Slot> := [S2, S2, S4, S1, S4, S8, S4, S4, S4, S8]
  const NAME_SLOTS: seq<Slot> := [SStr, SStr, SStr, SStr]
  const U_SLOTS: seq<Slot> := [SStr, S4, S4, S4]

  function StatSlots(v: Version): seq<Slot> {
    FIXED_SLOTS + (NAME_SLOTS + (if Extended(v) then U_SLOTS else []))
  }

  function FixedItems(s: StatRec, size: nat): seq<Item> {
    [U16(size), U16(s.kind), U32(s.dev), U8(s.qid.kind), U32(s.qid.version), U64(s.qid.path),
     U32(s.mode), U32(s.atime), U32(s.mtime), U64(s.length)]
  }

  function NameItems(s: StatRec): seq<Item> {
    [Str(s.name), Str(s.uid), Str(s.gid), Str(s.muid)]
  }

  function UItems(s: StatRec): seq<Item> {
    [Str(s.extension), U32(s.nUid), U32(s.nGid), U32(s.nMuid)]
  }

  /** A stat's arguments, with whatever is passed for its own size field. */
  function StatItems(v: Version, s: StatRec, size: nat): seq<Item> {
    FixedItems(s, size) + (NameItems(s) + (if Extended(v) then UItems(s) else []))
  }

  datatype Result = Failure | Success(stat: StatRec, consumed: nat)

  // What the parsers must agree with: the format-driven codec, confined to the record.

  /** A parse that used no byte past `limit` and met every field. */
  predicate Fit(p: Parsed, limit: nat) {
    p.err.Ok? && !p.eof && p.at <= limit
  }

  function NumAt(vals: seq<Val>, i: nat): nat {
    if i < |vals| && vals[i].Num? then vals[i].n else 0
  }

  /** strndup stops at an embedded NUL. */
  function TextAt(vals: seq<Val>, i: nat): seq<Byte> {
    if i < |vals| && vals[i].Text? then CStr(vals[i].s) else []
  }

  function FixedOf(vals: seq<Val>): StatRec {
    StatRec(NumAt(vals, 0), NumAt(vals, 1), NumAt(vals, 2),
            Qid(NumAt(vals, 3) % 256, NumAt(vals, 4), NumAt(vals, 5)),
            NumAt(vals, 6), NumAt(vals, 7), NumAt(vals, 8), NumAt(vals, 9),
            [], [], [], [], [], 0, 0, 0)
  }

  function NamesOf(s: StatRec, vals: seq<Val>): StatRec {
    s.(name := TextAt(vals, 10), uid := TextAt(vals, 11), gid := TextAt(vals, 12), muid := TextAt(vals, 13))
  }

  function StatOf(vals: seq<Val>): StatRec {
    NamesOf(FixedOf(vals), vals)
      .(extension := TextAt(vals, 14), nUid := NumAt(vals, 15), nGid := NumAt(vals, 16), nMuid := NumAt(vals, 17))
  }

  /** A record announces its size less two, at least the minimum, and is parsed within it. */
  function StatSpec(v: Version, data: seq<Byte>): Result {
    if |data| < 2 then Failure
    else
      var size := LeVal(data[0..2]);
      if size + 2 > |data| || size < MinSize(v) then Failure
      else
        var p := Parse(StatSlots(v), data, 0, size + 2);
        if Fit(p, size + 2) then Success(StatOf(p.vals), p.at) else Failure
  }

  function MinBytes(slot: Slot): nat {
    match slot
    case S1 => 1
    case S2 => 2
    case S4 => 4
    case S8 => 8
    case SBlob(_) => 4
    case SStr => 2
    case SQids => 2
    case SMore => 0
  }

  function MinTotal(slots: seq<Slot>): nat {
    if slots == [] then 0 else MinBytes(slots[0]) + MinTotal(slots[1..])
  }

  lemma FieldNeeds(slot: Slot, data: seq<Byte>, at: nat)
    requires !slot.SMore? && ReadField(slot, data, at).Got?
    ensures ReadField(slot, data, at).next >= at + MinBytes(slot)
  {
  }

  predicate Mandatory(slots: seq<Slot>) {
    forall i :: 0 <= i < |slots| ==> !slots[i].SMore?
  }

  lemma {:induction false} FitNeeds(slots: seq<Slot>, data: seq<Byte>, at: nat, limit: nat)
    requires Mandatory(slots) && Fit(Parse(slots, data, at, limit), limit)
    ensures Parse(slots, data, at, limit).at >= at + MinTotal(slots)
    decreases |slots|
  {
    hide ReadField;
    if slots != [] {
      FieldNeeds(slots[0], data, at);
      assert Mandatory(slots[1..]);
      FitNeeds(slots[1..], data, ReadField(slots[0], data, at).next, limit);
    }
  }

  // The parser. `at` is the source's `consumed` counter; the ghost `vals` records what the
  // format-driven parse has produced when it stands at the same place.

  ghost predicate InStep(slots: seq<Slot>, data: seq<Byte>, limit: nat, at: nat, vals: seq<Val>) {
    && limit <= |data| && at <= limit && |vals| <= |slots| && Mandatory(slots)
    && Parse(slots, data, 0, limit) == Prepend(vals, Parse(slots[|vals|..], data, at, limit))
  }

  /** Later values do not disturb earlier ones. */
  predicate Extends(vals: seq<Val>, more: seq<Val>) {
    && |more| == |vals| + 1
    && (forall i :: 0 <= i < |vals| ==> NumAt(more, i) == NumAt(vals, i))
    && (forall i :: 0 <= i < |vals| ==> TextAt(more, i) == TextAt(vals, i))
  }

  lemma InStepStart(slots: seq<Slot>, data: seq<Byte>, limit: nat)
    requires limit <= |data| && Mandatory(slots)
    ensures InStep(slots, data, limit, 0, [])
  {
  }

  lemma InStepNext(slots: seq<Slot>, data: seq<Byte>, limit: nat, at: nat, vals: seq<Val>, v: Val, next: nat)
    requires InStep(slots, data, limit, at, vals) && |vals| < |slots| && at < limit && next <= limit
    requires ReadField(slots[|vals|], data, at) == Got(v, next)
    ensures InStep(slots, data, limit, next, vals + [v]) && Extends(vals, vals + [v])
  {
    hide ReadField;
    TakeNext(slots, |vals|);
    ParseStep(slots[|vals|], slots[|vals| + 1..], slots[|vals|..], data, at, limit);
    PrependTwice(vals, [v], Parse(slots[|vals| + 1..], data, next, limit));
  }

  lemma NoRoom(slots: seq<Slot>, data: seq<Byte>, limit: nat, at: nat, vals: seq<Val>)
    requires InStep(slots, data, limit, at, vals) && at + MinTotal(slots[|vals|..]) > limit
    ensures !Fit(Parse(slots, data, 0, limit), limit)
  {
    if Fit(Parse(slots, data, 0, limit), limit) {
      assert Mandatory(slots[|vals|..]);
      FitNeeds(slots[|vals|..], data, at, limit);
      assert false;
    }
  }

  lemma TooLong(slots: seq<Slot>, data: seq<Byte>, limit: nat, at: nat, vals: seq<Val>, len: nat)
    requires InStep(slots, data, limit, at, vals) && at + 2 <= limit
    requires |vals| < |slots| && slots[|vals|] == SStr && len == LeVal(data[at..at + 2])
    requires at + 2 + len + MinTotal(slots[|vals| + 1..]) > limit
    ensures !Fit(Parse(slots, data, 0, limit), limit)
  {
    TakeNext(slots, |vals|);
    var rest := slots[|vals| + 1..];
    if Fit(Parse(slots, data, 0, limit), limit) {
      assert Fit(Parse(slots[|vals|..], data, at, limit), limit);
      FitNeeds(rest, data, at + 2 + len, limit);
      assert false;
    }
  }

  lemma AtEnd(slots: seq<Slot>, data: seq<Byte>, limit: nat, at: nat, vals: seq<Val>)
    requires InStep(slots, data, limit, at, vals) && |vals| == |slots|
    ensures Parse(slots, data, 0, limit) == Parsed(Ok, vals, at, false)
  {
    assert slots[|vals|..] == [];
  }

  function IntSlot(k: nat): Slot {
    if k == 1 then S1 else if k == 2 then S2 else if k == 4 then S4 else S8
  }

  /** memcpy of a k-byte field and conversion from little-endian. */
  method Int(data: seq<Byte>, at: nat, k: nat, limit: nat, ghost slots: seq<Slot>, ghost vals: seq<Val>)
    returns (n: nat, ghost more: seq<Val>)
    requires InStep(slots, data, limit, at, vals) && at + k <= limit
    requires k == 1 || k == 2 || k == 4 || k == 8
    requires |vals| < |slots| && slots[|vals|] == IntSlot(k)
    ensures InStep(slots, data, limit, at + k, more) && Extends(vals, more) && NumAt(more, |vals|) == n
    ensures n == LeVal(data[at..at + k])
  {
    n := LeVal(data[at..at + k]);
    InStepNext(slots, data, limit, at, vals, Num(n), at + k);
    more := vals + [Num(n)];
  }

  /** Reads a counted string, after checking that it leaves `after` bytes of the record. */
  method Chars(data: seq<Byte>, at: nat, after: nat, limit: nat, ghost slots: seq<Slot>, ghost vals: seq<Val>)
    returns (ok: bool, text: seq<Byte>, next: nat, ghost more: seq<Val>)
    requires InStep(slots, data, limit, at, vals) && at + 2 <= limit
    requires |vals| < |slots| && slots[|vals|] == SStr
    requires after <= MinTotal(slots[|vals| + 1..])
    ensures !ok ==> !Fit(Parse(slots, data, 0, limit), limit)
    ensures ok ==> InStep(slots, data, limit, next, more) && Extends(vals, more) && TextAt(more, |vals|) == text
    ensures ok ==> at + 2 <= next && next + after <= limit
  {
    var len := LeVal(data[at..at + 2]);
    next := at + 2;
    if next + len + after > limit {
      TooLong(slots, data, limit, at, vals, len);
      return false, [], next, vals;
    }
    var raw := data[next..next + len];
    InStepNext(slots, data, limit, at, vals, Text(raw), next + len);
    ok, text, next, more := true, CStr(raw), next + len, vals + [Text(raw)];
  }

  lemma SlotTable(v: Version)
    ensures |StatSlots(v)| == if Extended(v) then 18 else 14
    ensures StatSlots(v)[..10] == FIXED_SLOTS && StatSlots(v)[10..14] == NAME_SLOTS
    ensures Extended(v) ==> StatSlots(v)[14..18] == U_SLOTS
    ensures Mandatory(StatSlots(v))
  {
    var slots := StatSlots(v);
    forall i | 0 <= i < |slots| ensures !slots[i].SMore? {
      assert i < 10 ==> slots[i] == FIXED_SLOTS[i];
      assert 10 <= i < 14 ==> slots[i] == NAME_SLOTS[i - 10];
      assert 14 <= i ==> slots[i] == U_SLOTS[i - 14];
    }
  }

  lemma RoomAfter(slots: seq<Slot>, i: nat)
    requires i < |slots|
    ensures MinTotal(slots[i..]) == MinBytes(slots[i]) + MinTotal(slots[i + 1..])
  {
    TakeNext(slots, i);
  }

  /** The ten fixed fields occupy 41 bytes. */
  method ReadFixed(v: Version, data: seq<Byte>, limit: nat) returns (s: StatRec, ghost vals: seq<Val>)
    requires 41 <= limit <= |data|
    ensures InStep(StatSlots(v), data, limit, 41, vals) && |vals| == 10 && s == FixedOf(vals)
  {
    hide InStep, StatSlots, MinTotal, Mandatory, LeVal, NumAt, TextAt;
    SlotTable(v);
    ghost var slots := StatSlots(v);
    assert forall i :: 0 <= i < 10 ==> slots[i] == FIXED_SLOTS[i];
    InStepStart(slots, data, limit);
    vals := [];
    var size, kind, dev, qidKind, qidVersion, qidPath, mode, atime, mtime, length;
    size, vals := Int(data, 0, 2, limit, slots, vals);
    kind, vals := Int(data, 2, 2, limit, slots, vals);
    dev, vals := Int(data, 4, 4, limit, slots, vals);
    qidKind, vals := Int(data, 8, 1, limit, slots, vals);
    qidVersion, vals := Int(data, 9, 4, limit, slots, vals);
    qidPath, vals := Int(data, 13, 8, limit, slots, vals);
    mode, vals := Int(data, 21, 4, limit, slots, vals);
    atime, vals := Int(data, 25, 4, limit, slots, vals);
    mtime, vals := Int(data, 29, 4, limit, slots, vals);
    length, vals := Int(data, 33, 8, limit, slots, vals);
    s := StatRec(size, kind, dev, Qid(qidKind % 256, qidVersion, qidPath), mode, atime, mtime, length,
                 [], [], [], [], [], 0, 0, 0);
  }

  method ReadNames(v: Version, data: seq<Byte>, limit: nat, s0: StatRec, ghost vals0: seq<Val>)
    returns (ok: bool, s: StatRec, at: nat, ghost vals: seq<Val>)
    requires InStep(StatSlots(v), data, limit, 41, vals0) && |vals0| == 10 && limit >= 43 && s0 == FixedOf(vals0)
    ensures !ok ==> !Fit(Parse(StatSlots(v), data, 0, limit), limit)
    ensures ok ==> InStep(StatSlots(v), data, limit, at, vals) && |vals| == 14
    ensures ok ==> s == NamesOf(FixedOf(vals), vals)
  {
    hide InStep, StatSlots, Mandatory, LeVal, NumAt, TextAt, Parse;
    SlotTable(v);
    ghost var slots := StatSlots(v);
    assert forall i :: 10 <= i < 14 ==> slots[i] == NAME_SLOTS[i - 10];
    RoomAfter(slots, 11);
    RoomAfter(slots, 12);
    RoomAfter(slots, 13);
    var name, uid, gid, muid;
    s, vals := s0, vals0;
    ok, name, at, vals := Chars(data, 41, 2, limit, slots, vals);
    if !ok { return; }
    ok, uid, at, vals := Chars(data, at, 2, limit, slots, vals);
    if !ok { return; }
    ok, gid, at, vals := Chars(data, at, 2, limit, slots, vals);
    if !ok { return; }
    ok, muid, at, vals := Chars(data, at, 0, limit, slots, vals);
    if !ok { return; }
    s := s.(name := name, uid := uid, gid := gid, muid := muid);
  }

  method ReadExtension(v: Version, data: seq<Byte>, limit: nat, s0: StatRec, at0: nat, ghost vals0: seq<Val>)
    returns (ok: bool, s: StatRec, at: nat, ghost vals: seq<Val>)
    requires Extended(v) && InStep(StatSlots(v), data, limit, at0, vals0) && |vals0| == 14
    requires s0 == NamesOf(FixedOf(vals0), vals0)
    ensures !ok ==> !Fit(Parse(StatSlots(v), data, 0, limit), limit)
    ensures ok ==> InStep(StatSlots(v), data, limit, at, vals) && |vals| == 18 && s == StatOf(vals)
  {
    hide InStep, StatSlots, Mandatory, LeVal, NumAt, TextAt, Parse;
    SlotTable(v);
    ghost var slots := StatSlots(v);
    assert forall i :: 14 <= i < 18 ==> slots[i] == U_SLOTS[i - 14];
    RoomAfter(slots, 14);
    RoomAfter(slots, 15);
    RoomAfter(slots, 16);
    RoomAfter(slots, 17);
    s, vals, at := s0, vals0, at0;
    if at + 2 > limit {
      NoRoom(slots, data, limit, at, vals);
      return false, s, at, vals;
    }
    var extension, nUid, nGid, nMuid;
    ok, extension, at, vals := Chars(data, at, 12, limit, slots, vals);
    if !ok { return; }
    nUid, vals := Int(data, at, 4, limit, slots, vals);
    at := at + 4;
    nGid, vals := Int(data, at, 4, limit, slots, vals);
    at := at + 4;
    nMuid, vals := Int(data, at, 4, limit, slots, vals);
    at := at + 4;
    s := s.(extension := extension, nUid := nUid, nGid := nGid, nMuid := nMuid);
  }

  lemma InStepBound(slots: seq<Slot>, data: seq<Byte>, limit: nat, at: nat, vals: seq<Val>)
    requires InStep(slots, data, limit, at, vals)
    ensures at <= limit
  {
  }

  lemma CoreStat(vals: seq<Val>)
    requires |vals| == 14
    ensures StatOf(vals) == NamesOf(FixedOf(vals), vals)
  {
  }

  /** The stat parser agrees with the format-driven codec on all bytes, in every version. */
  method StatDeserialize(v: Version, data: seq<Byte>) returns (r: Result)
    ensures r == StatSpec(v, data)
  {
    hide Parse, StatSlots, StatOf, FixedOf, NamesOf, InStep;
    if |data| < 2 { return Failure; }
    var size := LeVal(data[0..2]);
    if size + 2 > |data| { return Failure; }
    if size < STAT_MIN { return Failure; }
    if Extended(v) && size < U_STAT_MIN { return Failure; }
    SlotTable(v);
    ghost var slots := StatSlots(v);
    var limit := size + 2;
    var s, vals := ReadFixed(v, data, limit);
    var ok, at;
    ok, s, at, vals := ReadNames(v, data, limit, s, vals);
    if !ok { return Failure; }
    if Extended(v) {
      ok, s, at, vals := ReadExtension(v, data, limit, s, at, vals);
      if !ok { return Failure; }
    } else {
      CoreStat(vals);
    }
    AtEnd(slots, data, limit, at, vals);
    InStepBound(slots, data, limit, at, vals);
    r := Success(s, at);
  }

  // Directory entries of 9P2000.L.

  datatype DirentResult =
    | NoDirent
    | Dirent(qid: Qid, offset: nat, kind: nat, name: seq<Byte>, consumed: nat)

  const DIRENT_SLOTS: seq<Slot> := [S1, S4, S8, S8, S1, SStr]
  const DIRENT_MIN: nat := 13 + 8 + 1 + 2

  function DirentSpec(data: seq<Byte>): DirentResult {
    var p := Parse(DIRENT_SLOTS, data, 0, |data|);
    if Fit(p, |data|) then
      Dirent(Qid(NumAt(p.vals, 0) % 256, NumAt(p.vals, 1), NumAt(p.vals, 2)),
             NumAt(p.vals, 3), NumAt(p.vals, 4), TextAt(p.vals, 5), p.at)
    else NoDirent
  }

  lemma EmptyTotal()
    ensures MinTotal([]) == 0
  {
  }

  lemma DirentTable()
    ensures Mandatory(DIRENT_SLOTS) && MinTotal(DIRENT_SLOTS) == DIRENT_MIN
    ensures MinTotal(DIRENT_SLOTS[6..]) == 0
  {
    hide MinTotal;
    assert DIRENT_SLOTS[0..] == DIRENT_SLOTS && DIRENT_SLOTS[6..] == [];
    RoomAfter(DIRENT_SLOTS, 0);
    RoomAfter(DIRENT_SLOTS, 1);
    RoomAfter(DIRENT_SLOTS, 2);
    RoomAfter(DIRENT_SLOTS, 3);
    RoomAfter(DIRENT_SLOTS, 4);
    RoomAfter(DIRENT_SLOTS, 5);
    assert MinTotal([]) == 0 by { EmptyTotal(); }
  }

  method DirentDeserialize(data: seq<Byte>) returns (r: DirentResult)
    ensures r == DirentSpec(data)
  {
    hide Parse, InStep, MinTotal, Mandatory, LeVal, NumAt, TextAt;
    var limit := |data|;
    ghost var slots := DIRENT_SLOTS;
    ghost var vals: seq<Val> := [];
    DirentTable();
    InStepStart(slots, data, limit);
    if limit < DIRENT_MIN {
      assert slots[0..] == slots;
      NoRoom(slots, data, limit, 0, vals);
      return NoDirent;
    }
    var qidKind, qidVersion, qidPath, offset, kind;
    qidKind, vals := Int(data, 0, 1, limit, slots, vals);
    qidVersion, vals := Int(data, 1, 4, limit, slots, vals);
    qidPath, vals := Int(data, 5, 8, limit, slots, vals);
    offset, vals := Int(data, 13, 8, limit, slots, vals);
    kind, vals := Int(data, 21, 1, limit, slots, vals);
    var ok, name, at;
    ok, name, at, vals := Chars(data, 22, 0, limit, slots, vals);
    if !ok { return NoDirent; }
    AtEnd(slots, data, limit, at, vals);
    InStepBound(slots, data, limit, at, vals);
    r := Dirent(Qid(qidKind % 256, qidVersion, qidPath), offset, kind, name, at);
  }

  const ONES_16: nat := 0xFFFF
  const ONES_32: nat := 0xFFFF_FFFF
  const ONES_64: nat := 0xFFFF_FFFF_FFFF_FFFF

  /** The stat that leaves every field alone: all ones, empty strings. */
  method StatDontTouch(v: Version) returns (s: StatRec)
    ensures s.size == if v == V9P2000 then 47 else 61
    ensures s.kind == 0xFFFF && s.dev == 0xFFFF_FFFF && s.qid == Qid(0xFF, 0xFFFF_FFFF, 0xFFFF_FFFF_FFFF_FFFF)
    ensures s.mode == s.atime == s.mtime == s.nUid == s.nGid == s.nMuid == 0xFFFF_FFFF
    ensures s.length == 0xFFFF_FFFF_FFFF_FFFF
    ensures s.name == s.uid == s.gid == s.muid == s.extension == []
  {
    var size := STAT_MIN;
    if Extended(v) {
      size := U_STAT_MIN;
    }
    s := StatRec(size, ONES_16, ONES_32, Qid(0xFF, ONES_32, ONES_64), ONES_32, ONES_32, ONES_32, ONES_64,
                 [], [], [], [], [], ONES_32, ONES_32, ONES_32);
  }
}
