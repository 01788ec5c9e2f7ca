// The sending half of the format-driven codec: the size counter, the body writer and the
// framed send. A format string zipped with its variadic arguments is a sequence of items.
module Wire {
  import opened Bytes

  datatype Qid = Qid(kind: Byte, version: nat, path: nat)

  /** One format character with the argument it consumes. `Qids` never occurs in a request. */
  datatype Item =
    | U8(n: nat)
    | U16(n: nat)
    | U32(n: nat)
    | U64(n: nat)
    | Blob(data: seq<Byte>)
    | Str(s: seq<Byte>)
    | Strs(names: seq<seq<Byte>>)
    | Qids(qids: seq<Qid>)

  /** What the writer asserts, and the ranges of its argument types. */
  predicate Sendable(it: Item) {
    match it
    case U8(n) => n < TWO_32
    case U16(n) => n < TWO_32
    case U32(n) => n < TWO_32
    case U64(n) => n < TWO_32 * TWO_32
    case Blob(d) => |d| < TWO_32
    case Str(s) => |CStr(s)| < 0x1_0000
    case Strs(a) => forall i :: 0 <= i < |a| ==> |Until(a[i], SLASH)| < 0x1_0000
    case Qids(_) => false
  }

  function Counted(s: seq<Byte>): seq<Byte> {
    Le(|s|, 2) + s
  }

  /** One element of a string array, cut at its '/'. */
  function EncodeName(name: seq<Byte>): (s: seq<Byte>)
    ensures |s| == 2 + |Until(name, SLASH)|
  {
    Counted(Until(name, SLASH))
  }

  function EncodeNames(names: seq<seq<Byte>>): seq<Byte> {
    if names == [] then [] else EncodeName(names[0]) + EncodeNames(names[1..])
  }

  function EncodeQid(q: Qid): (s: seq<Byte>)
    ensures |s| == 13
  {
    [q.kind] + Le(q.version, 4) + Le(q.path, 8)
  }

  function EncodeQids(qids: seq<Qid>): (s: seq<Byte>)
    ensures |s| == 13 * |qids|
  {
    if qids == [] then [] else EncodeQid(qids[0]) + EncodeQids(qids[1..])
  }

  function EncodeItem(it: Item): seq<Byte> {
    match it
    case U8(n) => Le(n, 1)
    case U16(n) => Le(n, 2)
    case U32(n) => Le(n, 4)
    case U64(n) => Le(n, 8)
    case Blob(d) => Le(|d|, 4) + d
    case Str(s) => Counted(CStr(s))
    case Strs(a) => EncodeNames(a)
    case Qids(qs) => Le(|qs|, 2) + EncodeQids(qs)
  }

  function Encode(items: seq<Item>): seq<Byte> {
    if items == [] then [] else EncodeItem(items[0]) + Encode(items[1..])
  }

  lemma {:induction false} EncodeConcat(a: seq<Item>, b: seq<Item>)
    ensures Encode(a + b) == Encode(a) + Encode(b)
  {
    if a == [] {
      assert a + b == b;
    } else {
      EncodeConcat(a[1..], b);
      DropHead(a, b);
      Assoc(EncodeItem(a[0]), Encode(a[1..]), Encode(b));
    }
  }

  lemma EncodeOne(it: Item)
    ensures Encode([it]) == EncodeItem(it)
  {
    OneTail(it);
    assert Encode([it]) == EncodeItem(it) + Encode([]);
  }

  lemma EncodeSplit(items: seq<Item>, i: nat)
    requires i < |items|
    ensures Encode(items) == Encode(items[..i]) + (EncodeItem(items[i]) + Encode(items[i + 1..]))
    ensures Encode(items[..i + 1]) == Encode(items[..i]) + EncodeItem(items[i])
  {
    TakeNext(items, i);
    EncodeConcat(items[..i], items[i..]);
    EncodeConcat(items[..i], [items[i]]);
    EncodeOne(items[i]);
    assert items[i..][0] == items[i];
  }

  lemma {:induction false} NamesConcat(a: seq<seq<Byte>>, b: seq<seq<Byte>>)
    ensures EncodeNames(a + b) == EncodeNames(a) + EncodeNames(b)
  {
    if a == [] {
      assert a + b == b;
    } else {
      NamesConcat(a[1..], b);
      DropHead(a, b);
      Assoc(EncodeName(a[0]), EncodeNames(a[1..]), EncodeNames(b));
    }
  }

  lemma NamesSplit(names: seq<seq<Byte>>, i: nat)
    requires i < |names|
    ensures EncodeNames(names) == EncodeNames(names[..i]) + (EncodeName(names[i]) + EncodeNames(names[i + 1..]))
    ensures EncodeNames(names[..i + 1]) == EncodeNames(names[..i]) + EncodeName(names[i])
  {
    TakeNext(names, i);
    NamesConcat(names[..i], names[i..]);
    NamesConcat(names[..i], [names[i]]);
    OneTail(names[i]);
    assert EncodeNames([names[i]]) == EncodeName(names[i]) + EncodeNames([]);
    assert names[i..][0] == names[i];
  }

  lemma EncodedLength(items: seq<Item>, i: nat)
    requires i < |items|
    ensures |Encode(items[..i + 1])| == |Encode(items[..i])| + |EncodeItem(items[i])|
  {
    EncodeSplit(items, i);
  }

  lemma NamesLength(names: seq<seq<Byte>>, i: nat)
    requires i < |names|
    ensures |EncodeNames(names[..i + 1])| == |EncodeNames(names[..i])| + 2 + |Until(names[i], SLASH)|
  {
    NamesSplit(names, i);
  }

  method CountBytes(start: nat, ghost exact: nat, n: nat) returns (total: nat)
    requires start == Wrap32(exact)
    ensures total == Wrap32(exact + n)
  {
    Wrap32Add(exact, n);
    total := Wrap32(start + n);
  }

  /** The loop over a NULL-terminated array of '/'-terminated strings. */
  method CountNames(start: nat, ghost exact: nat, names: seq<seq<Byte>>) returns (total: nat)
    requires start == Wrap32(exact)
    ensures total == Wrap32(exact + |EncodeNames(names)|)
  {
    total := start;
    ghost var sofar := exact;
    for k := 0 to |names|
      invariant sofar == exact + |EncodeNames(names[..k])| && total == Wrap32(sofar)
    {
      var n := |Until(names[k], SLASH)|;
      total := CountBytes(total, sofar, 2);
      total := CountBytes(total, sofar + 2, n);
      NamesLength(names, k);
      sofar := sofar + 2 + n;
    }
    TakeAll(names);
  }

  method CountItem(start: nat, ghost exact: nat, it: Item) returns (total: nat)
    requires Sendable(it) && start == Wrap32(exact)
    ensures total == Wrap32(exact + |EncodeItem(it)|)
  {
    hide Wrap32, Le, Until, EncodeNames, EncodeQids;
    match it {
      case U8(_) => total := CountBytes(start, exact, 1);
      case U16(_) => total := CountBytes(start, exact, 2);
      case U32(_) => total := CountBytes(start, exact, 4);
      case U64(_) => total := CountBytes(start, exact, 8);
      case Blob(d) =>
        total := CountBytes(start, exact, 4);
        total := CountBytes(total, exact + 4, |d|);
      case Str(s) =>
        total := CountBytes(start, exact, 2);
        total := CountBytes(total, exact + 2, |CStr(s)|);
      case Strs(names) =>
        total := CountNames(start, exact, names);
    }
  }

  /** The size counter runs in 32 bits, so it is right up to a multiple of 2^32. */
  method SerializedSize(items: seq<Item>) returns (total: nat)
    requires forall i :: 0 <= i < |items| ==> Sendable(items[i])
    ensures total == Wrap32(|Encode(items)|)
  {
    total := 0;
    ghost var exact := 0;
    for i := 0 to |items|
      invariant exact == |Encode(items[..i])| && total == Wrap32(exact)
    {
      total := CountItem(total, exact, items[i]);
      EncodedLength(items, i);
      exact := exact + |EncodeItem(items[i])|;
    }
    TakeAll(items);
  }

  /** What a stream with room for n more bytes takes of b. */
  function Take(b: seq<Byte>, n: nat): seq<Byte> {
    if n < |b| then b[..n] else b
  }

  datatype OutState = OutState(sent: seq<Byte>, room: nat, failed: bool)

  /** The stream was offered b: it took what it had room for, and remembers falling short. */
  ghost predicate Offered(before: OutState, after: OutState, b: seq<Byte>) {
    && after.sent == before.sent + Take(b, before.room)
    && after.room == before.room - |Take(b, before.room)|
    && (after.failed <==> before.failed || |b| > before.room)
  }

  lemma OfferedThen(s0: OutState, s1: OutState, s2: OutState, a: seq<Byte>, b: seq<Byte>)
    requires Offered(s0, s1, a) && |a| <= s0.room && Offered(s1, s2, b)
    ensures Offered(s0, s2, a + b)
  {
    assert Take(a + b, s0.room) == a + Take(b, s1.room);
    Assoc(s0.sent, a, Take(b, s1.room));
  }

  lemma OfferedShort(s0: OutState, s1: OutState, a: seq<Byte>, b: seq<Byte>)
    requires Offered(s0, s1, a) && |a| > s0.room
    ensures Offered(s0, s1, a + b)
  {
    assert Take(a + b, s0.room) == Take(a, s0.room);
  }

  lemma OfferedNothing(s: OutState)
    ensures Offered(s, s, [])
  {
  }

  /** The buffered output stream. It accepts `room` more bytes, then every write comes up short. */
  class OutStream {
    var sent: seq<Byte>
    var room: nat
    var failed: bool

    function State(): OutState
      reads this
    {
      OutState(sent, room, failed)
    }

    constructor (room: nat)
      ensures State() == OutState([], room, false)
    {
      sent, failed := [], false;
      this.room := room;
    }

    /** fwrite: `ok` when every byte was taken; the error indicator is sticky. */
    method Write(bytes: seq<Byte>) returns (ok: bool)
      modifies this
      ensures Offered(old(State()), State(), bytes)
      ensures ok <==> |bytes| <= old(room)
    {
      var n := Min(room, |bytes|);
      sent := sent + bytes[..n];
      room := room - n;
      ok := n == |bytes|;
      failed := failed || !ok;
    }
  }

  method SendCounted(out: OutStream, s: seq<Byte>) returns (ok: bool)
    modifies out
    ensures Offered(old(out.State()), out.State(), Counted(s))
    ensures ok <==> |Counted(s)| <= old(out.room)
  {
    ghost var s0 := out.State();
    ok := out.Write(Le(|s|, 2));
    ghost var s1 := out.State();
    if !ok {
      OfferedShort(s0, s1, Le(|s|, 2), s);
      return;
    }
    ok := out.Write(s);
    OfferedThen(s0, s1, out.State(), Le(|s|, 2), s);
  }

  method SendNames(out: OutStream, names: seq<seq<Byte>>) returns (ok: bool)
    modifies out
    ensures Offered(old(out.State()), out.State(), EncodeNames(names))
    ensures ok <==> |EncodeNames(names)| <= old(out.room)
  {
    ghost var s0 := out.State();
    OfferedNothing(s0);
    for k := 0 to |names|
      invariant |EncodeNames(names[..k])| <= s0.room
      invariant Offered(s0, out.State(), EncodeNames(names[..k]))
    {
      NamesSplit(names, k);
      ghost var before, item := EncodeNames(names[..k]), EncodeName(names[k]);
      ghost var s1 := out.State();
      ok := SendCounted(out, Until(names[k], SLASH));
      OfferedThen(s0, s1, out.State(), before, item);
      if !ok {
        Assoc(before, item, EncodeNames(names[k + 1..]));
        OfferedShort(s0, out.State(), before + item, EncodeNames(names[k + 1..]));
        return;
      }
    }
    TakeAll(names);
    ok := true;
  }

  method SendBlob(out: OutStream, d: seq<Byte>) returns (ok: bool)
    modifies out
    ensures Offered(old(out.State()), out.State(), Le(|d|, 4) + d)
    ensures ok <==> 4 + |d| <= old(out.room)
  {
    ghost var s0 := out.State();
    ok := out.Write(Le(|d|, 4));
    ghost var s1 := out.State();
    if !ok {
      OfferedShort(s0, s1, Le(|d|, 4), d);
      return;
    }
    ok := out.Write(d);
    OfferedThen(s0, s1, out.State(), Le(|d|, 4), d);
  }

  method SendItem(out: OutStream, it: Item) returns (ok: bool)
    requires Sendable(it)
    modifies out
    ensures Offered(old(out.State()), out.State(), EncodeItem(it))
    ensures ok <==> |EncodeItem(it)| <= old(out.room)
  {
    match it {
      case U8(n) => ok := out.Write(Le(n, 1));
      case U16(n) => ok := out.Write(Le(n, 2));
      case U32(n) => ok := out.Write(Le(n, 4));
      case U64(n) => ok := out.Write(Le(n, 8));
      case Blob(d) => ok := SendBlob(out, d);
      case Str(s) => ok := SendCounted(out, CStr(s));
      case Strs(names) => ok := SendNames(out, names);
    }
  }

  /** The body writer: all of the encoding, or the prefix the stream had room for and a failure. */
  method DoSend(out: OutStream, items: seq<Item>) returns (ok: bool)
    requires forall i :: 0 <= i < |items| ==> Sendable(items[i])
    modifies out
    ensures Offered(old(out.State()), out.State(), Encode(items))
    ensures ok <==> |Encode(items)| <= old(out.room)
  {
    ghost var s0 := out.State();
    OfferedNothing(s0);
    for i := 0 to |items|
      invariant |Encode(items[..i])| <= s0.room
      invariant Offered(s0, out.State(), Encode(items[..i]))
    {
      EncodeSplit(items, i);
      ghost var before, item := Encode(items[..i]), EncodeItem(items[i]);
      ghost var s1 := out.State();
      ok := SendItem(out, items[i]);
      OfferedThen(s0, s1, out.State(), before, item);
      if !ok {
        Assoc(before, item, Encode(items[i + 1..]));
        OfferedShort(s0, out.State(), before + item, Encode(items[i + 1..]));
        return;
      }
    }
    TakeAll(items);
    ok := true;
  }

  const HEADER_SIZE: nat := 4 + 1 + 2

  function Header(size: nat, kind: Byte, tag: nat): (h: seq<Byte>)
    ensures |h| == HEADER_SIZE
  {
    Le(size, 4) + ([kind] + Le(tag, 2))
  }

  /** The bytes of one message: 32-bit declared size, type, tag, body. */
  function Frame(kind: Byte, tag: nat, body: seq<Byte>): (f: seq<Byte>)
    ensures |f| == HEADER_SIZE + |body|
  {
    Header(Wrap32(|body| + HEADER_SIZE), kind, tag) + body
  }

  method SendHeader(out: OutStream, size: nat, kind: Byte, tag: nat) returns (ok: bool)
    modifies out
    ensures Offered(old(out.State()), out.State(), Header(size, kind, tag))
    ensures ok <==> HEADER_SIZE <= old(out.room)
  {
    ghost var s0 := out.State();
    var first, second, third := Le(size, 4), [kind], Le(tag, 2);
    ok := out.Write(first);
    ghost var s1 := out.State();
    if !ok {
      OfferedShort(s0, s1, first, second + third);
      return;
    }
    ok := out.Write(second);
    ghost var s2 := out.State();
    if !ok {
      OfferedShort(s1, s2, second, third);
      OfferedThen(s0, s1, s2, first, second + third);
      return;
    }
    ok := out.Write(third);
    OfferedThen(s1, s2, out.State(), second, third);
    OfferedThen(s0, s1, out.State(), first, second + third);
  }

  /** Sends one framed message; the caller holds the write mutex. */
  method Send(out: OutStream, kind: Byte, tag: nat, items: seq<Item>) returns (ok: bool)
    requires forall i :: 0 <= i < |items| ==> Sendable(items[i])
    modifies out
    ensures Offered(old(out.State()), out.State(), Frame(kind, tag, Encode(items)))
    ensures ok <==> !out.failed
  {
    hide Le, Encode, Sendable;
    var n := SerializedSize(items);
    var size := CountBytes(n, |Encode(items)|, HEADER_SIZE);
    ghost var s0, head := out.State(), Header(size, kind, tag);
    ok := SendHeader(out, size, kind, tag);
    ghost var s1 := out.State();
    if ok {
      ok := DoSend(out, items);
      OfferedThen(s0, s1, out.State(), head, Encode(items));
    } else {
      OfferedShort(s0, s1, head, Encode(items));
    }
    ok := !out.failed && ok;
  }

  /** What a reader finds where in a frame. */
  lemma FrameLayout(kind: Byte, tag: nat, body: seq<Byte>)
    requires tag < 0x1_0000
    ensures var f := Frame(kind, tag, body);
      LeVal(f[..4]) == (7 + |body|) % TWO_32 && f[4] == kind && LeVal(f[5..7]) == tag && f[7..] == body
  {
    var size := Wrap32(|body| + HEADER_SIZE);
    Wrap32IsRemainder(|body| + HEADER_SIZE);
    LeWidths(size);
    LeWidths(tag);
    hide Le, LeVal, Wrap32;
    var f := Frame(kind, tag, body);
    assert f[..4] == Le(size, 4) && f[5..7] == Le(tag, 2);
  }

  lemma ZeroBytes()
    ensures Le(0, 1) == [0] && Le(0, 3) == [0, 0, 0]
  {
    assert Le(0, 2) == [0] + Le(0, 1) && Le(0, 3) == [0] + Le(0, 2);
  }

  lemma SmallBytes(n: nat)
    requires n < 256
    ensures Le(n, 2) == [n, 0] && Le(n, 4) == [n, 0, 0, 0]
  {
    ZeroBytes();
    assert Le(n, 2) == [n] + Le(0, 1) && Le(n, 4) == [n] + Le(0, 3);
  }

  lemma Body4(a: Item, b: Item, c: Item, d: Item)
    ensures Encode([a, b, c, d]) == EncodeItem(a) + EncodeItem(b) + EncodeItem(c) + EncodeItem(d)
  {
    hide EncodeItem;
    assert [a, b, c, d] == [a] + ([b] + ([c] + [d]));
    EncodeConcat([a], [b] + ([c] + [d]));
    EncodeConcat([b], [c] + [d]);
    EncodeConcat([c], [d]);
    EncodeOne(a);
    EncodeOne(b);
    EncodeOne(c);
    EncodeOne(d);
  }

  lemma NameBytes()
    ensures EncodeNames([[97, 98, SLASH, 99]]) == [2, 0, 97, 98]
  {
    SmallBytes(2);
    var name: seq<Byte> := [97, 98, SLASH, 99];
    assert name[1..] == [98, SLASH, 99] && name[2..] == [SLASH, 99] && name[1..][1..] == name[2..];
    assert Until(name[2..], SLASH) == [] && Until(name[1..], SLASH) == [98];
    assert Until(name, SLASH) == [97, 98];
    OneTail(name);
    assert EncodeNames([name]) == EncodeName(name) + EncodeNames([]);
  }

  /** A Twalk of the name "ab", cut out of "ab/c", byte by byte. */
  lemma TwalkBytes()
    ensures Frame(110, 3, Encode([U32(1), U32(2), U16(1), Strs([[97, 98, 47, 99]])]))
         == [21, 0, 0, 0] + [110] + [3, 0] + ([1, 0, 0, 0] + [2, 0, 0, 0] + [1, 0] + [2, 0, 97, 98])
  {
    hide Le, EncodeNames, Until, Encode;
    SmallBytes(1);
    SmallBytes(2);
    SmallBytes(3);
    SmallBytes(21);
    NameBytes();
    Body4(U32(1), U32(2), U16(1), Strs([[97, 98, 47, 99]]));
  }

  /** The declared size is the number of bytes written, exactly for frames below 4 GiB. */
  lemma DeclaredSizeIsLength(kind: Byte, tag: nat, body: seq<Byte>)
    ensures LeVal(Frame(kind, tag, body)[..4]) == |Frame(kind, tag, body)| <==> HEADER_SIZE + |body| < TWO_32
  {
    var size := Wrap32(|body| + HEADER_SIZE);
    LeWidths(size);
    var rest := [kind] + Le(tag, 2);
    Assoc(Le(size, 4), rest, body);
    SliceAfter([], Le(size, 4), rest + body);
  }
}
