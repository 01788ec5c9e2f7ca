// Laws of the codec: what a send writes a receive reads back, and a receive stays inside its
// frame exactly when no field straddles the frame's end.
module RecvLaws {
  import opened Bytes
  import opened Wire
  import opened Recv

  // Frame resynchronisation.

  /** Some field that the format reaches is not contained in the frame ending at `limit`. */
  predicate Straddles(slots: seq<Slot>, data: seq<Byte>, at: nat, limit: nat)
    requires limit <= |data|
  {
    Parse(slots, data[..limit], at, limit).eof
  }

  lemma QidsLocal(data: seq<Byte>, limit: nat, at: nat, n: nat)
    requires at + 13 * n <= limit <= |data|
    ensures QidsAt(data[..limit], at, n) == QidsAt(data, at, n)
    decreases n
  {
    if n > 0 {
      QidsLocal(data, limit, at + 13, n - 1);
      assert data[..limit][at + 1..at + 5] == data[at + 1..at + 5];
      assert data[..limit][at + 5..at + 13] == data[at + 5..at + 13];
    }
  }

  lemma SliceLocal(data: seq<Byte>, limit: nat, at: nat, k: nat)
    requires limit <= |data|
    ensures at + k <= limit ==> data[..limit][at..at + k] == data[at..at + k]
  {
  }

  /** What a field reads is the same without what follows the limit, if it stays below it. */
  predicate SameWithin(f: Field, cut: Field, limit: nat) {
    if cut.Eof? then f.Eof? || f.next > limit else f == cut && f.next <= limit
  }

  lemma FixedLocal(k: nat, data: seq<Byte>, at: nat, limit: nat)
    requires at <= limit <= |data|
    ensures SameWithin(FixedField(k, data, at), FixedField(k, data[..limit], at), limit)
  {
    hide LeVal;
    SliceLocal(data, limit, at, k);
  }

  lemma CountedLocal(slot: Slot, data: seq<Byte>, at: nat, limit: nat)
    requires (slot.SBlob? || slot.SStr?) && at <= limit <= |data|
    ensures SameWithin(ReadField(slot, data, at), ReadField(slot, data[..limit], at), limit)
  {
    hide LeVal;
    var k := if slot.SStr? then 2 else 4;
    SliceLocal(data, limit, at, k);
    if at + k <= limit {
      SliceLocal(data, limit, at + k, LeVal(data[at..at + k]));
    }
  }

  lemma QidsFieldLocal(data: seq<Byte>, at: nat, limit: nat)
    requires at <= limit <= |data|
    ensures SameWithin(ReadField(SQids, data, at), ReadField(SQids, data[..limit], at), limit)
  {
    hide LeVal, QidsAt;
    SliceLocal(data, limit, at, 2);
    if at + 2 <= limit {
      var n := LeVal(data[at..at + 2]);
      if at + 2 + 13 * n <= limit {
        QidsLocal(data, limit, at + 2, n);
      }
    }
  }

  lemma FieldLocal(slot: Slot, data: seq<Byte>, at: nat, limit: nat)
    requires !slot.SMore? && at <= limit <= |data|
    ensures SameWithin(ReadField(slot, data, at), ReadField(slot, data[..limit], at), limit)
  {
    hide LeVal, QidsAt, FixedField, SameWithin;
    match slot
    case S1 => FixedLocal(1, data, at, limit);
    case S2 => FixedLocal(2, data, at, limit);
    case S4 => FixedLocal(4, data, at, limit);
    case S8 => FixedLocal(8, data, at, limit);
    case SQids => QidsFieldLocal(data, at, limit);
    case _ => CountedLocal(slot, data, at, limit);
  }

  lemma {:induction false} ParseAdvances(slots: seq<Slot>, data: seq<Byte>, at: nat, limit: nat)
    ensures Parse(slots, data, at, limit).at >= at
    decreases |slots|
  {
    if slots != [] {
      if slots[0].SMore? {
        ParseAdvances(slots[1..], data, at, limit);
      } else if at < limit {
        match ReadField(slots[0], data, at)
        case Got(_, next) => ParseAdvances(slots[1..], data, next, limit);
        case _ =>
      }
    }
  }

  lemma {:induction false} ParseLocal(slots: seq<Slot>, data: seq<Byte>, at: nat, limit: nat)
    requires at <= limit <= |data|
    ensures var p, q := Parse(slots, data[..limit], at, limit), Parse(slots, data, at, limit);
      if p.eof then q.eof || q.at > limit else q == p && q.at <= limit
    decreases |slots|
  {
    if slots != [] {
      if slots[0].SMore? {
        ParseLocal(slots[1..], data, at, limit);
      } else if at < limit {
        FieldLocal(slots[0], data, at, limit);
        match ReadField(slots[0], data, at)
        case Got(_, next) =>
          if next <= limit {
            ParseLocal(slots[1..], data, next, limit);
          } else {
            ParseAdvances(slots[1..], data, next, limit);
          }
        case _ =>
      }
    }
  }

  /** A receive ends exactly where its frame ends, and depends on nothing beyond it, if no
      reached field straddles the end; and only then, once the next frame has begun. This
      covers trailing bytes, missing fields, oversized data, wrong types and error replies. */
  lemma Resynchronised(kind: nat, request: nat, unix: bool, slots: seq<Slot>, data: seq<Byte>, at: nat, limit: nat)
    requires at <= limit <= |data|
    ensures var fields := EffectiveSlots(kind, request, unix, slots);
      var r := Receive(kind, request, unix, slots, data, at, limit);
      && (!Straddles(fields, data, at, limit) ==>
            r.end == limit && r == Receive(kind, request, unix, slots, data[..limit], at, limit))
      && (limit < |data| ==> (r.end == limit <==> !Straddles(fields, data, at, limit)))
  {
    ParseLocal(EffectiveSlots(kind, request, unix, slots), data, at, limit);
  }

  /** A single 4-byte field in a frame with 2 bytes left eats into the next frame. */
  lemma StraddleExample()
    ensures var data := [1, 2, 3, 4, 5];
      Straddles([S4], data, 0, 2) && Receive(101, 100, false, [S4], data, 0, 2).end == 4
  {
    var data: seq<Byte> := [1, 2, 3, 4, 5];
    assert Parse([], data, 4, 2) == Parsed(Ok, [], 4, false);
    assert [S4][1..] == [];
    assert ReadField(S4, data, 0) == Got(Num(LeVal(data[0..4])), 4);
    assert Parse([S4], data, 0, 2).at == 4;
    assert |data[..2]| == 2;
    assert ReadField(S4, data[..2], 0) == Eof;
  }

  // Round trip.

  predicate QidInRange(q: Qid) {
    q.version < TWO_32 && q.path < TWO_32 * TWO_32
  }

  /** The value fits its field; only then is nothing truncated on the way out. */
  predicate InRange(it: Item) {
    match it
    case U8(n) => n < 0x100
    case U16(n) => n < 0x1_0000
    case U32(n) => n < TWO_32
    case U64(n) => n < TWO_32 * TWO_32
    case Blob(d) => |d| < TWO_32
    case Str(s) => |CStr(s)| < 0x1_0000
    case Strs(_) => false
    case Qids(qs) => |qs| < 0x1_0000 && forall i :: 0 <= i < |qs| ==> QidInRange(qs[i])
  }

  /** The slot a peer uses for the item; a blob slot needs the capacity. */
  predicate Accepts(slot: Slot, it: Item) {
    match it
    case U8(_) => slot == S1
    case U16(_) => slot == S2
    case U32(_) => slot == S4
    case U64(_) => slot == S8
    case Blob(d) => slot.SBlob? && |d| <= slot.cap
    case Str(_) => slot == SStr
    case Strs(_) => false
    case Qids(_) => slot == SQids
  }

  predicate Matches(slots: seq<Slot>, items: seq<Item>)
    decreases |items|
  {
    if items == [] then slots == []
    else slots != [] && InRange(items[0]) && Accepts(slots[0], items[0]) && Matches(slots[1..], items[1..])
  }

  lemma {:induction false} MatchesConcat(a: seq<Slot>, x: seq<Item>, b: seq<Slot>, y: seq<Item>)
    requires Matches(a, x) && Matches(b, y)
    ensures Matches(a + b, x + y)
    decreases |x|
  {
    hide InRange, Accepts;
    if x == [] {
      assert a + b == b && x + y == y;
    } else {
      DropHead(a, b);
      DropHead(x, y);
      MatchesConcat(a[1..], x[1..], b, y);
    }
  }

  lemma MatchesOne(slot: Slot, it: Item, slots: seq<Slot>, items: seq<Item>)
    requires InRange(it) && Accepts(slot, it) && Matches(slots, items)
    ensures Matches([slot] + slots, [it] + items)
  {
    hide InRange, Accepts;
    DropHead([it], items);
    DropHead([slot], slots);
    OneTail(it);
    OneTail(slot);
    assert [] + items == items && [] + slots == slots;
  }

  lemma MatchesNone()
    ensures Matches([], [])
  {
  }

  function ValOf(it: Item): Val {
    match it
    case U8(n) => Num(n)
    case U16(n) => Num(n)
    case U32(n) => Num(n)
    case U64(n) => Num(n)
    case Blob(d) => Data(d)
    case Str(s) => Text(CStr(s))
    case Strs(_) => Num(0)
    case Qids(qs) => QidList(qs)
  }

  function ValsOf(items: seq<Item>): (v: seq<Val>)
    ensures |v| == |items|
  {
    if items == [] then [] else [ValOf(items[0])] + ValsOf(items[1..])
  }

  lemma {:induction false} ValsConcat(a: seq<Item>, b: seq<Item>)
    ensures ValsOf(a + b) == ValsOf(a) + ValsOf(b)
  {
    hide ValOf;
    if a == [] {
      assert a + b == b;
    } else {
      DropHead(a, b);
      ValsConcat(a[1..], b);
    }
  }

  lemma QidRoundTrip(q: Qid, data: seq<Byte>, at: nat)
    requires QidInRange(q) && Holds(data, at, EncodeQid(q))
    ensures QidAt(data, at) == q
  {
    HoldsSplit(data, at, [q.kind] + Le(q.version, 4), Le(q.path, 8));
    HoldsSplit(data, at, [q.kind], Le(q.version, 4));
    LeWidths(q.version);
    LeWidths(q.path);
    assert data[at..at + 1][0] == q.kind;
  }

  lemma {:induction false} QidsRoundTrip(qids: seq<Qid>, data: seq<Byte>, at: nat)
    requires forall i :: 0 <= i < |qids| ==> QidInRange(qids[i])
    requires Holds(data, at, EncodeQids(qids))
    ensures QidsAt(data, at, |qids|) == qids
  {
    if qids != [] {
      HoldsSplit(data, at, EncodeQid(qids[0]), EncodeQids(qids[1..]));
      QidRoundTrip(qids[0], data, at);
      QidsRoundTrip(qids[1..], data, at + 13);
    }
  }

  lemma FixedRoundTrip(n: nat, k: nat, data: seq<Byte>, at: nat)
    requires LeVal(Le(n, k)) == n && Holds(data, at, Le(n, k))
    ensures FixedField(k, data, at) == Got(Num(n), at + k)
  {
  }

  lemma CountedRoundTrip(k: nat, s: seq<Byte>, data: seq<Byte>, at: nat)
    requires LeVal(Le(|s|, k)) == |s| && Holds(data, at, Le(|s|, k) + s)
    ensures at + k + |s| <= |data|
    ensures LeVal(data[at..at + k]) == |s| && data[at + k..at + k + |s|] == s
  {
    HoldsSplit(data, at, Le(|s|, k), s);
  }

  lemma QidsFieldRoundTrip(qs: seq<Qid>, data: seq<Byte>, at: nat)
    requires InRange(Qids(qs)) && Holds(data, at, EncodeItem(Qids(qs)))
    ensures ReadField(SQids, data, at) == Got(QidList(qs), at + |EncodeItem(Qids(qs))|)
  {
    LeWidths(|qs|);
    HoldsSplit(data, at, Le(|qs|, 2), EncodeQids(qs));
    QidsRoundTrip(qs, data, at + 2);
  }

  lemma NumberRoundTrip(it: Item, slot: Slot, data: seq<Byte>, at: nat)
    requires it.U8? || it.U16? || it.U32? || it.U64?
    requires InRange(it) && Accepts(slot, it) && Holds(data, at, EncodeItem(it))
    ensures ReadField(slot, data, at) == Got(ValOf(it), at + |EncodeItem(it)|)
    ensures |EncodeItem(it)| > 0 && !slot.SMore?
  {
    hide Le, LeVal, FixedField, Holds;
    LeWidths(it.n);
    match it
    case U8(n) => FixedRoundTrip(n, 1, data, at);
    case U16(n) => FixedRoundTrip(n, 2, data, at);
    case U32(n) => FixedRoundTrip(n, 4, data, at);
    case U64(n) => FixedRoundTrip(n, 8, data, at);
  }

  lemma FieldRoundTrip(it: Item, slot: Slot, data: seq<Byte>, at: nat)
    requires InRange(it) && Accepts(slot, it) && Holds(data, at, EncodeItem(it))
    ensures ReadField(slot, data, at) == Got(ValOf(it), at + |EncodeItem(it)|)
    ensures |EncodeItem(it)| > 0 && !slot.SMore?
  {
    hide Le, LeVal, Until, EncodeQids, QidsAt, FixedField;
    match it
    case Blob(d) => LeWidths(|d|); CountedRoundTrip(4, d, data, at);
    case Str(s) => LeWidths(|CStr(s)|); CountedRoundTrip(2, CStr(s), data, at);
    case Qids(qs) => QidsFieldRoundTrip(qs, data, at);
    case _ => NumberRoundTrip(it, slot, data, at);
  }

  lemma ParseStep(slot: Slot, tail: seq<Slot>, slots: seq<Slot>, data: seq<Byte>, at: nat, limit: nat)
    requires !slot.SMore? && at < limit && ReadField(slot, data, at).Got?
    requires slots != [] && slots[0] == slot && slots[1..] == tail
    ensures Parse(slots, data, at, limit) ==
      var f := ReadField(slot, data, at); Prepend([f.val], Parse(tail, data, f.next, limit))
  {
  }

  lemma PrependTwice(a: seq<Val>, b: seq<Val>, p: Parsed)
    ensures Prepend(a, Prepend(b, p)) == Prepend(a + b, p)
  {
    Assoc(a, b, p.vals);
  }

  lemma PrefixStep(slots: seq<Slot>, items: seq<Item>, rest: seq<Slot>, data: seq<Byte>, at: nat, limit: nat)
    requires Matches(slots, items) && Holds(data, at, Encode(items)) && items != []
    requires at + |Encode(items)| <= limit
    ensures slots != [] && Matches(slots[1..], items[1..])
    ensures var next := at + |EncodeItem(items[0])|;
      && Holds(data, next, Encode(items[1..]))
      && Parse(slots + rest, data, at, limit)
           == Prepend([ValOf(items[0])], Parse(slots[1..] + rest, data, next, limit))
  {
    hide ReadField, Holds, EncodeItem, InRange, Accepts;
    HoldsSplit(data, at, EncodeItem(items[0]), Encode(items[1..]));
    FieldRoundTrip(items[0], slots[0], data, at);
    DropHead(slots, rest);
    ParseStep(slots[0], slots[1..] + rest, slots + rest, data, at, limit);
  }

  /** Parsing an encoding followed by anything, with a format that goes on arbitrarily: the
      values come first and the rest of the format starts where the encoding ended. */
  lemma {:induction false} ParsePrefix(slots: seq<Slot>, items: seq<Item>, rest: seq<Slot>,
                                       data: seq<Byte>, at: nat, limit: nat)
    requires Matches(slots, items) && Holds(data, at, Encode(items))
    requires at + |Encode(items)| <= limit
    ensures Parse(slots + rest, data, at, limit)
         == Prepend(ValsOf(items), Parse(rest, data, at + |Encode(items)|, limit))
    decreases |items|
  {
    hide ReadField, Holds, EncodeItem, InRange, Accepts;
    if items == [] {
      assert slots + rest == rest;
    } else {
      PrefixStep(slots, items, rest, data, at, limit);
      ParsePrefix(slots[1..], items[1..], rest, data, at + |EncodeItem(items[0])|, limit);
      PrependTwice([ValOf(items[0])], ValsOf(items[1..]), Parse(rest, data, at + |Encode(items)|, limit));
    }
  }

  lemma ParseNothing(data: seq<Byte>, at: nat, limit: nat)
    ensures Parse([], data, at, limit) == Parsed(Ok, [], at, false)
  {
  }

  lemma ParseWhole(slots: seq<Slot>, items: seq<Item>, data: seq<Byte>, at: nat)
    requires Matches(slots, items) && Holds(data, at, Encode(items))
    ensures var end := at + |Encode(items)|;
      Parse(slots, data, at, end) == Parsed(Ok, ValsOf(items), end, false)
  {
    hide ReadField, Matches, Encode, Holds;
    assert slots + [] == slots;
    ParsePrefix(slots, items, [], data, at, at + |Encode(items)|);
  }

  // An array of strings is received as that many strings.

  /** The strings of an array, each cut at its slash. */
  function Strings(names: seq<seq<Byte>>): seq<Item> {
    if names == [] then [] else [Str(Until(names[0], SLASH))] + Strings(names[1..])
  }

  /** The arguments one by one, with the strings of arrays as arguments of their own. */
  function Spread(items: seq<Item>): seq<Item> {
    if items == [] then []
    else (if items[0].Strs? then Strings(items[0].names) else [items[0]]) + Spread(items[1..])
  }

  lemma CutIsCStr(s: seq<Byte>)
    ensures CStr(Until(s, SLASH)) == Until(s, SLASH)
  {
    CStrOfNulFree(Until(s, SLASH));
  }

  lemma {:induction false} StringsEncode(names: seq<seq<Byte>>)
    ensures Encode(Strings(names)) == EncodeNames(names)
  {
    hide Until;
    if names == [] {
      assert Encode([]) == [];
    } else {
      CutIsCStr(names[0]);
      StringsEncode(names[1..]);
      EncodeConcat([Str(Until(names[0], SLASH))], Strings(names[1..]));
      EncodeOne(Str(Until(names[0], SLASH)));
    }
  }

  lemma EncodedArray(names: seq<seq<Byte>>)
    ensures EncodeItem(Strs(names)) == EncodeNames(names)
  {
  }

  lemma {:induction false} SpreadEncodes(items: seq<Item>)
    ensures Encode(Spread(items)) == Encode(items)
  {
    hide EncodeItem, Strings;
    if items != [] {
      var head := if items[0].Strs? then Strings(items[0].names) else [items[0]];
      SpreadEncodes(items[1..]);
      EncodeConcat(head, Spread(items[1..]));
      if items[0].Strs? {
        StringsEncode(items[0].names);
        assert EncodeItem(items[0]) == EncodeNames(items[0].names) by { EncodedArray(items[0].names); }
      } else {
        EncodeOne(items[0]);
      }
    }
  }

  /** Other arguments stand for themselves. */
  lemma {:induction false} SpreadPlain(items: seq<Item>)
    requires forall i :: 0 <= i < |items| ==> !items[i].Strs?
    ensures Spread(items) == items
  {
    if items != [] {
      SpreadPlain(items[1..]);
      assert items == [items[0]] + items[1..];
    }
  }

  /** What a send writes as a body, a receive with the same format reads back, whatever
      surrounds it in the stream; it ends exactly at the end of the frame. */
  lemma RoundTrip(slots: seq<Slot>, items: seq<Item>, request: nat, unix: bool, data: seq<Byte>, at: nat)
    requires Matches(slots, Spread(items)) && Holds(data, at, Encode(items))
    ensures Receive(request + 1, request, unix, slots, data, at, at + |Encode(items)|)
         == Outcome(Ok, ValsOf(Spread(items)), at + |Encode(items)|)
  {
    hide Parse, Encode, Matches, ValsOf, Holds, Spread;
    SpreadEncodes(items);
    ParseWhole(slots, Spread(items), data, at);
  }

  /** No two argument lists of one format share an encoding. */
  lemma EncodingInjective(slots: seq<Slot>, a: seq<Item>, b: seq<Item>)
    requires Matches(slots, Spread(a)) && Matches(slots, Spread(b)) && Encode(a) == Encode(b)
    ensures ValsOf(Spread(a)) == ValsOf(Spread(b))
  {
    hide Parse, Encode, Matches, ValsOf, Holds, Spread;
    HoldsItself(Encode(a));
    SpreadEncodes(a);
    SpreadEncodes(b);
    ParseWhole(slots, Spread(a), Encode(a), 0);
    ParseWhole(slots, Spread(b), Encode(a), 0);
  }

  /** n strings. */
  function StrSlots(n: nat): (slots: seq<Slot>)
    ensures |slots| == n && forall i :: 0 <= i < n ==> slots[i] == SStr
  {
    if n == 0 then [] else [SStr] + StrSlots(n - 1)
  }

  lemma {:induction false} StringsMatch(names: seq<seq<Byte>>)
    requires forall i :: 0 <= i < |names| ==> |Until(names[i], SLASH)| < 0x1_0000
    ensures Matches(StrSlots(|names|), Strings(names)) && |Strings(names)| == |names|
    ensures forall i :: 0 <= i < |names| ==> ValsOf(Strings(names))[i] == Text(Until(names[i], SLASH))
    decreases |names|
  {
    hide Until;
    if names != [] {
      CutIsCStr(names[0]);
      StringsMatch(names[1..]);
      forall i | 0 <= i < |names| ensures ValsOf(Strings(names))[i] == Text(Until(names[i], SLASH)) {
        if i > 0 {
          assert ValsOf(Strings(names))[i] == ValsOf(Strings(names[1..]))[i - 1] && names[i] == names[1..][i - 1];
        }
      }
    }
  }

  lemma WalkHead(fid: nat, newFid: nat, n: nat)
    requires fid < TWO_32 && newFid < TWO_32 && n < 0x1_0000
    ensures Matches([S4, S4, S2], [U32(fid), U32(newFid), U16(n)])
    ensures ValsOf([U32(fid), U32(newFid), U16(n)]) == [Num(fid), Num(newFid), Num(n)]
  {
    hide Matches;
    MatchesNone();
    MatchesOne(S2, U16(n), [], []);
    assert [S2] + [] == [S2] && [U16(n)] + [] == [U16(n)];
    MatchesOne(S4, U32(newFid), [S2], [U16(n)]);
    assert [S4] + [S2] == [S4, S2] && [U32(newFid)] + [U16(n)] == [U32(newFid), U16(n)];
    MatchesOne(S4, U32(fid), [S4, S2], [U32(newFid), U16(n)]);
    assert [S4] + [S4, S2] == [S4, S4, S2] && [U32(fid)] + [U32(newFid), U16(n)] == [U32(fid), U32(newFid), U16(n)];
    assert ValsOf([U32(newFid), U16(n)]) == [Num(newFid)] + ValsOf([U16(n)]);
  }

  lemma HeldWithin(data: seq<Byte>, at: nat, b: seq<Byte>)
    requires Holds(data, at, b)
    ensures at + |b| <= |data|
  {
  }

  /** A Twalk's arguments as the server reads them: two fids, the number of names, and each name
      after its 16-bit length. */
  lemma WalkRoundTrip(fid: nat, newFid: nat, names: seq<seq<Byte>>, data: seq<Byte>, at: nat)
    requires fid < TWO_32 && newFid < TWO_32 && |names| < 0x1_0000
    requires forall i :: 0 <= i < |names| ==> |Until(names[i], SLASH)| < 0x1_0000
    requires Holds(data, at, Encode([U32(fid), U32(newFid), U16(|names|), Strs(names)]))
    ensures var p := Parse([S4, S4, S2] + StrSlots(|names|), data, at, |data|);
      && p.err.Ok? && !p.eof && p.at == at + |Encode([U32(fid), U32(newFid), U16(|names|), Strs(names)])|
      && |p.vals| == 3 + |names| && p.vals[..3] == [Num(fid), Num(newFid), Num(|names|)]
      && forall i :: 0 <= i < |names| ==> p.vals[3 + i] == Text(Until(names[i], SLASH))
  {
    hide Parse, Encode, Holds, Until, EncodeItem, Matches, ValsOf, Strings, StrSlots;
    var head, texts := [U32(fid), U32(newFid), U16(|names|)], Strings(names);
    var items := head + [Strs(names)];
    assert items == [U32(fid), U32(newFid), U16(|names|), Strs(names)];
    StringsMatch(names);
    StringsEncode(names);
    EncodeConcat(head, [Strs(names)]);
    EncodeOne(Strs(names));
    EncodedArray(names);
    EncodeConcat(head, texts);
    WalkHead(fid, newFid, |names|);
    HeldWithin(data, at, Encode(items));
    MatchesConcat([S4, S4, S2], head, StrSlots(|names|), texts);
    assert ([S4, S4, S2] + StrSlots(|names|)) + [] == [S4, S4, S2] + StrSlots(|names|);
    ParsePrefix([S4, S4, S2] + StrSlots(|names|), head + texts, [], data, at, |data|);
    ValsConcat(head, texts);
    ParseNothing(data, at + |Encode(items)|, |data|);
  }

  lemma AtMark(rest: seq<Slot>, data: seq<Byte>, at: nat, limit: nat)
    ensures var p := Parse([SMore] + rest, data, at, limit);
      && |p.vals| > 0 && p.vals[0] == Flag(at < limit)
      && (at >= limit ==> p == Parsed(Ok, [Flag(false)], at, false))
  {
  }

  /** The optional mark reads 0 exactly when the frame ended at that field boundary; then the
      receive succeeds with what came before it. */
  lemma OptionalTail(slots: seq<Slot>, items: seq<Item>, rest: seq<Slot>, data: seq<Byte>, at: nat, limit: nat)
    requires Matches(slots, items) && Holds(data, at, Encode(items))
    requires at + |Encode(items)| <= limit
    ensures var p := Parse(slots + ([SMore] + rest), data, at, limit);
      && |p.vals| > |items| && p.vals[..|items|] == ValsOf(items)
      && p.vals[|items|] == Flag(at + |Encode(items)| < limit)
      && (at + |Encode(items)| == limit ==> p == Parsed(Ok, ValsOf(items) + [Flag(false)], limit, false))
  {
    hide Parse, Encode, Matches, Holds;
    ParsePrefix(slots, items, [SMore] + rest, data, at, limit);
    AtMark(rest, data, at + |Encode(items)|, limit);
  }
}
