// What each kind of reply is received as: errors of the server, wrong types, replies that are too
// short or too long; and that receiving loses nothing.
module ReplyLaws {
  import opened Bytes
  import opened Wire
  import opened Recv
  import opened RecvLaws

  // Error replies. Tlerror is 6 and Terror 106, which are never sent.

  lemma OneNumber(n: nat)
    requires n < TWO_32
    ensures Matches([S4], [U32(n)]) && ValsOf([U32(n)]) == [Num(n)]
  {
    MatchesNone();
    MatchesOne(S4, U32(n), [], []);
    assert [S4] + [] == [S4] && [U32(n)] + [] == [U32(n)];
    OneTail(U32(n));
    assert ValsOf([U32(n)]) == [ValOf(U32(n))] + ValsOf([]);
  }

  lemma OneText(s: seq<Byte>)
    requires |CStr(s)| < 0x1_0000
    ensures Matches([SStr], [Str(s)]) && ValsOf([Str(s)]) == [Text(CStr(s))]
  {
    MatchesNone();
    MatchesOne(SStr, Str(s), [], []);
    assert [SStr] + [] == [SStr] && [Str(s)] + [] == [Str(s)];
    OneTail(Str(s));
    assert ValsOf([Str(s)]) == [ValOf(Str(s))] + ValsOf([]);
  }

  /** A format that the body satisfies, whatever else the frame holds. */
  lemma ParseAll(slots: seq<Slot>, items: seq<Item>, data: seq<Byte>, at: nat, limit: nat)
    requires Matches(slots, items) && Holds(data, at, Encode(items))
    requires at + |Encode(items)| <= limit
    ensures Parse(slots, data, at, limit) == Parsed(Ok, ValsOf(items), at + |Encode(items)|, false)
  {
    hide ReadField, Matches, Encode, Holds;
    assert slots + [] == slots;
    ParsePrefix(slots, items, [], data, at, limit);
    ParseNothing(data, at + |Encode(items)|, limit);
  }

  /** Rlerror, type 7: the call fails with the number that it carries. */
  lemma NumberedError(n: nat, request: nat, unix: bool, slots: seq<Slot>, data: seq<Byte>, at: nat, limit: nat)
    requires n < TWO_32 && request + 1 != 7
    requires Holds(data, at, Encode([U32(n)])) && at + |Encode([U32(n)])| <= limit <= |data|
    ensures Receive(7, request, unix, slots, data, at, limit) == Outcome(ServerErrno(n), [], limit)
  {
    hide Parse, Encode, Matches, Holds;
    OneNumber(n);
    ParseAll([S4], [U32(n)], data, at, limit);
  }

  /** What Rerror carries: a text, and in the .u dialect a number after it. */
  function ErrorItems(unix: bool, s: seq<Byte>, n: nat): seq<Item> {
    if unix then [Str(s), U32(n)] else [Str(s)]
  }

  lemma ErrorMatches(unix: bool, s: seq<Byte>, n: nat)
    requires |CStr(s)| < 0x1_0000 && n < TWO_32
    ensures Matches(ErrorSlots(unix), ErrorItems(unix, s, n))
    ensures ValsOf(ErrorItems(unix, s, n)) != [] && ValsOf(ErrorItems(unix, s, n))[0] == Text(CStr(s))
  {
    hide Matches;
    OneText(s);
    OneNumber(n);
    if unix {
      MatchesOne(SStr, Str(s), [S4], [U32(n)]);
      assert [SStr] + [S4] == [SStr, S4] && [Str(s)] + [U32(n)] == [Str(s), U32(n)];
      assert [Str(s), U32(n)][1..] == [U32(n)];
    }
  }

  lemma CutTwice(s: seq<Byte>)
    ensures CStr(CStr(s)) == CStr(s)
  {
    CStrOfNulFree(CStr(s));
  }

  /** Rerror, type 107: the call fails with the text that it carries. */
  lemma TextError(s: seq<Byte>, n: nat, request: nat, unix: bool, slots: seq<Slot>, data: seq<Byte>, at: nat,
                  limit: nat)
    requires |CStr(s)| < 0x1_0000 && n < TWO_32 && request + 1 != 107
    requires Holds(data, at, Encode(if unix then [Str(s), U32(n)] else [Str(s)]))
    requires at + |Encode(if unix then [Str(s), U32(n)] else [Str(s)])| <= limit <= |data|
    ensures Receive(107, request, unix, slots, data, at, limit) == Outcome(ServerText(CStr(s)), [], limit)
  {
    hide Parse, Encode, Matches, Holds, ErrorSlots, CStr, ValsOf;
    CutTwice(s);
    ErrorMatches(unix, s, n);
    ParseAll(ErrorSlots(unix), ErrorItems(unix, s, n), data, at, limit);
  }

  /** A reply that is neither the one expected nor an error is skipped. */
  lemma UnexpectedType(kind: nat, request: nat, unix: bool, slots: seq<Slot>, data: seq<Byte>, at: nat, limit: nat)
    requires kind != request + 1 && kind != 7 && kind != 107 && at <= limit <= |data|
    ensures Receive(kind, request, unix, slots, data, at, limit) == Outcome(Eieio, [], limit)
  {
    ParseNothing(data, at, limit);
  }

  // Replies of the expected type that do not meet the format.

  /** The frame ends where a field should begin. */
  lemma MissingField(slots: seq<Slot>, items: seq<Item>, missing: Slot, rest: seq<Slot>, request: nat, unix: bool,
                     data: seq<Byte>, at: nat)
    requires Matches(slots, items) && Holds(data, at, Encode(items)) && !missing.SMore?
    ensures var limit := at + |Encode(items)|;
      Receive(request + 1, request, unix, slots + ([missing] + rest), data, at, limit)
        == Outcome(Eio, ValsOf(items), limit)
  {
    hide ReadField, Matches, Encode, ValsOf, Holds;
    ParsePrefix(slots, items, [missing] + rest, data, at, at + |Encode(items)|);
  }

  /** More data than the caller has room for. */
  lemma TooMuchData(slots: seq<Slot>, items: seq<Item>, cap: nat, n: nat, rest: seq<Slot>, request: nat, unix: bool,
                    data: seq<Byte>, at: nat, limit: nat)
    requires Matches(slots, items) && Holds(data, at, Encode(items)) && cap < n < TWO_32
    requires Holds(data, at + |Encode(items)|, Encode([U32(n)]))
    requires at + |Encode(items)| + 4 <= limit <= |data|
    ensures Receive(request + 1, request, unix, slots + ([SBlob(cap)] + rest), data, at, limit)
         == Outcome(Eoverflow, ValsOf(items), limit)
  {
    EncodeOne(U32(n));
    LeWidths(n);
    hide Matches, Encode, ValsOf, Le, LeVal;
    var next := at + |Encode(items)|;
    assert data[next..next + 4] == Le(n, 4);
    assert ReadField(SBlob(cap), data, next) == TooBig(next + 4);
    ParsePrefix(slots, items, [SBlob(cap)] + rest, data, at, limit);
  }

  /** The stream ends within a field: what was received so far is all there is, and no error. */
  lemma StreamEnds(slots: seq<Slot>, items: seq<Item>, cut: Slot, rest: seq<Slot>, request: nat, unix: bool,
                   data: seq<Byte>, at: nat, limit: nat)
    requires Matches(slots, items) && Holds(data, at, Encode(items)) && !cut.SMore?
    requires at + |Encode(items)| < limit && ReadField(cut, data, at + |Encode(items)|).Eof?
    ensures Receive(request + 1, request, unix, slots + ([cut] + rest), data, at, limit)
         == Outcome(Ok, ValsOf(items), |data|)
  {
    hide ReadField, Matches, Encode, ValsOf, Holds;
    ParsePrefix(slots, items, [cut] + rest, data, at, limit);
  }

  // Receiving loses nothing: sending what was received gives the same bytes.

  lemma LowByte(b: Byte, n: nat)
    ensures (256 * n + b) % 256 == b && (256 * n + b) / 256 == n
  {
  }

  lemma NoBytes()
    ensures Le(LeVal([]), 0) == []
  {
  }

  lemma LeStep(b: Byte, n: nat, k: nat)
    ensures Le(256 * n + b, k + 1) == [b] + Le(n, k)
  {
    LowByte(b, n);
  }

  lemma {:induction false} LeOfVal(s: seq<Byte>)
    ensures Le(LeVal(s), |s|) == s
  {
    hide Le, LeVal;
    if s != [] {
      LeOfVal(s[1..]);
      FirstByte(s);
      LeStep(s[0], LeVal(s[1..]), |s| - 1);
      assert s == [s[0]] + s[1..];
    } else {
      NoBytes();
    }
  }

  /** The argument that a field's value would be sent as. */
  function ItemFor(slot: Slot, v: Val): Item {
    match v
    case Num(n) => if slot == S1 then U8(n) else if slot == S2 then U16(n) else if slot == S4 then U32(n) else U64(n)
    case Data(d) => Blob(d)
    case Text(s) => Str(s)
    case QidList(qids) => Qids(qids)
    case Flag(more) => U8(if more then 1 else 0)
  }

  function ItemsFor(slots: seq<Slot>, vals: seq<Val>): seq<Item>
    requires |slots| == |vals|
  {
    if vals == [] then [] else [ItemFor(slots[0], vals[0])] + ItemsFor(slots[1..], vals[1..])
  }

  lemma FixedBytes(k: nat, data: seq<Byte>, at: nat)
    requires at + k <= |data|
    ensures Holds(data, at, Le(LeVal(data[at..at + k]), k))
  {
    LeOfVal(data[at..at + k]);
  }

  lemma QidBytes(data: seq<Byte>, at: nat)
    requires at + 13 <= |data|
    ensures Holds(data, at, EncodeQid(QidAt(data, at)))
  {
    var q := QidAt(data, at);
    FixedBytes(4, data, at + 1);
    FixedBytes(8, data, at + 5);
    hide Le, LeVal;
    assert Holds(data, at, [q.kind]);
    HoldsSplit(data, at, [q.kind], Le(q.version, 4));
    HoldsSplit(data, at, [q.kind] + Le(q.version, 4), Le(q.path, 8));
  }

  lemma {:induction false} QidsBytes(data: seq<Byte>, at: nat, n: nat)
    requires at + 13 * n <= |data|
    ensures Holds(data, at, EncodeQids(QidsAt(data, at, n))) && |QidsAt(data, at, n)| == n
    decreases n
  {
    hide QidAt, EncodeQid;
    if n > 0 {
      QidBytes(data, at);
      QidsBytes(data, at + 13, n - 1);
      HoldsSplit(data, at, EncodeQid(QidAt(data, at)), EncodeQids(QidsAt(data, at + 13, n - 1)));
    }
  }

  lemma CountedBytes(k: nat, data: seq<Byte>, at: nat, n: nat)
    requires at + k + n <= |data| && n == LeVal(data[at..at + k])
    ensures Holds(data, at, Le(n, k) + data[at + k..at + k + n])
  {
    FixedBytes(k, data, at);
    HoldsSplit(data, at, Le(n, k), data[at + k..at + k + n]);
  }

  lemma QidsStep(data: seq<Byte>, at: nat, n: nat)
    requires n > 0 && at + 13 * n <= |data|
    ensures QidsAt(data, at, n) == [QidAt(data, at)] + QidsAt(data, at + 13, n - 1)
  {
  }

  lemma SkipOne<T>(x: T, rest: seq<T>, i: nat)
    requires i <= |rest|
    ensures ([x] + rest)[i] == if i == 0 then x else rest[i - 1]
  {
  }

  /** Where the i-th qid of an array stands, and its parts. */
  lemma {:induction false} QidPlaces(data: seq<Byte>, at: nat, n: nat, i: nat)
    requires at + 13 * n <= |data| && i < n
    ensures at + 13 * i + 13 <= |data| && |QidsAt(data, at, n)| == n
    ensures var q := at + 13 * i;
      QidsAt(data, at, n)[i] == Qid(data[q], LeVal(data[q + 1..q + 5]), LeVal(data[q + 5..q + 13]))
    decreases n
  {
    hide LeVal, QidsAt;
    QidsBytes(data, at, n);
    QidsBytes(data, at + 13, n - 1);
    QidsStep(data, at, n);
    SkipOne(QidAt(data, at), QidsAt(data, at + 13, n - 1), i);
    if i > 0 {
      QidPlaces(data, at + 13, n - 1, i - 1);
    }
  }

  /** The field read at `at` is what its bytes would be sent as. */
  predicate Sent(slot: Slot, data: seq<Byte>, at: nat)
    requires !slot.SMore? && ReadField(slot, data, at).Got?
  {
    var f := ReadField(slot, data, at);
    Holds(data, at, EncodeItem(ItemFor(slot, f.val))) && f.next == at + |EncodeItem(ItemFor(slot, f.val))|
  }

  lemma NumberSent(slot: Slot, data: seq<Byte>, at: nat)
    requires (slot == S1 || slot == S2 || slot == S4 || slot == S8) && ReadField(slot, data, at).Got?
    ensures Sent(slot, data, at)
  {
    var k := if slot == S1 then 1 else if slot == S2 then 2 else if slot == S4 then 4 else 8;
    FixedBytes(k, data, at);
    hide Le, LeVal, Holds;
  }

  lemma BlobSent(cap: nat, data: seq<Byte>, at: nat)
    requires ReadField(SBlob(cap), data, at).Got?
    ensures Sent(SBlob(cap), data, at)
  {
    hide Le, LeVal, Holds;
    CountedBytes(4, data, at, LeVal(data[at..at + 4]));
  }

  lemma TextSent(data: seq<Byte>, at: nat)
    requires ReadField(SStr, data, at).Got? && ReadField(SStr, data, at).val.Text?
    requires NulFree(ReadField(SStr, data, at).val.s)
    ensures Sent(SStr, data, at)
  {
    hide Le, LeVal, Holds, NulFree, CStr;
    var n := LeVal(data[at..at + 2]);
    CountedBytes(2, data, at, n);
    CStrOfNulFree(data[at + 2..at + 2 + n]);
  }

  lemma QidsSent(data: seq<Byte>, at: nat)
    requires ReadField(SQids, data, at).Got?
    ensures Sent(SQids, data, at)
  {
    hide Le, LeVal, Holds, EncodeQids, QidsAt;
    var n := LeVal(data[at..at + 2]);
    FixedBytes(2, data, at);
    QidsBytes(data, at + 2, n);
    HoldsSplit(data, at, Le(n, 2), EncodeQids(QidsAt(data, at + 2, n)));
  }

  lemma TextField(data: seq<Byte>, at: nat)
    requires ReadField(SStr, data, at).Got?
    ensures ReadField(SStr, data, at).val.Text?
  {
  }

  lemma FieldBytes(slot: Slot, data: seq<Byte>, at: nat)
    requires !slot.SMore? && ReadField(slot, data, at).Got?
    requires ReadField(slot, data, at).val.Text? ==> NulFree(ReadField(slot, data, at).val.s)
    ensures Sent(slot, data, at)
  {
    hide ReadField, Sent;
    match slot
    case SBlob(cap) => BlobSent(cap, data, at);
    case SStr => TextField(data, at); TextSent(data, at);
    case SQids => QidsSent(data, at);
    case _ => NumberSent(slot, data, at);
  }

  lemma EmptyHeld(data: seq<Byte>, at: nat)
    requires at <= |data|
    ensures Holds(data, at, Encode([])) && |Encode([])| == 0
  {
  }

  lemma EncodeStep(it: Item, items: seq<Item>)
    ensures Encode([it] + items) == EncodeItem(it) + Encode(items)
  {
    EncodeConcat([it], items);
    EncodeOne(it);
  }

  predicate Texts(vals: seq<Val>) {
    forall i :: 0 <= i < |vals| && vals[i].Text? ==> NulFree(vals[i].s)
  }

  /** Whatever bytes a format is met by, they are the encoding of the values received. */
  lemma {:induction false} Reencodes(slots: seq<Slot>, data: seq<Byte>, at: nat, limit: nat)
    requires forall i :: 0 <= i < |slots| ==> !slots[i].SMore?
    requires var p := Parse(slots, data, at, limit);
      p.err.Ok? && !p.eof && |p.vals| == |slots| && Texts(p.vals) && at <= |data|
    ensures var p := Parse(slots, data, at, limit);
      && Holds(data, at, Encode(ItemsFor(slots, p.vals)))
      && p.at == at + |Encode(ItemsFor(slots, p.vals))|
    decreases |slots|
  {
    hide ReadField, EncodeItem, ItemFor, NulFree, Holds;
    if slots == [] {
      EmptyHeld(data, at);
    } else {
      var p, f := Parse(slots, data, at, limit), ReadField(slots[0], data, at);
      var q := Parse(slots[1..], data, f.next, limit);
      assert p == Prepend([f.val], q) && p.vals[0] == f.val && p.vals[1..] == q.vals;
      assert Texts(q.vals) by {
        forall i | 0 <= i < |q.vals| && q.vals[i].Text? ensures NulFree(q.vals[i].s) {
          assert p.vals[i + 1] == q.vals[i];
        }
      }
      FieldBytes(slots[0], data, at);
      HeldWithin(data, at, EncodeItem(ItemFor(slots[0], f.val)));
      Reencodes(slots[1..], data, f.next, limit);
      HoldsSplit(data, at, EncodeItem(ItemFor(slots[0], f.val)), Encode(ItemsFor(slots[1..], q.vals)));
      EncodeStep(ItemFor(slots[0], f.val), ItemsFor(slots[1..], q.vals));
    }
  }
}
