// Reading and writing through a protid.
module Io {
  import opened Bytes
  import opened Server
  import opened Ledger
  import opened Fids
  import Wire

  /** The part of the message limit that the code sets aside for the headings. */
  const HEADINGS: nat := 24

  const TWO_64: nat := TWO_32 * TWO_32

  /** Where a transfer starts: -1 stands for the file pointer; other negative offsets wrap. */
  function StartOf(offset: int, pointer: nat): nat
    requires offset + TWO_64 >= 0
  {
    if offset == -1 then pointer else if offset < 0 then offset + TWO_64 else offset
  }

  /** A description's file pointer moves by what was transferred through it, and only then. */
  function Moved(pointer: nat, offset: int, n: nat): nat {
    if offset == -1 then pointer + n else pointer
  }

  lemma Starting(offset: int, pointer: nat)
    requires offset + TWO_64 >= 0
    ensures StartOf(offset, pointer) == if offset == -1 then pointer else if offset < 0 then offset + TWO_64 else offset
  {
  }

  lemma MovedPointer(opens: map<nat, Peropen>, o: nat, offset: int, n: nat)
    requires o in opens
    ensures opens[o := opens[o].(offset := Moved(opens[o].offset, offset, n))]
         == if offset == -1 then opens[o := opens[o].(offset := opens[o].offset + n)] else opens
  {
  }

  /** Nothing about the descriptions changes, but that one pointer moves and limits may shrink. */
  predicate OnlyPointerMoves(was: map<nat, Peropen>, now: map<nat, Peropen>, o: nat, offset: int, n: nat) {
    && now.Keys == was.Keys
    && forall x :: x in now ==>
      now[x].limit <= was[x].limit
      && now[x] == was[x].(limit := now[x].limit,
                           offset := if x == o then Moved(was[x].offset, offset, n) else was[x].offset)
  }

  /** After an open that may have limited the description, the pointer moves by n. */
  lemma PointerMoved(was: map<nat, Peropen>, mid: map<nat, Peropen>, o: nat, offset: int, n: nat)
    requires OnlyLimitsShrink(was, mid) && was.Keys == mid.Keys && o in was && o in mid
    ensures mid[o].offset == was[o].offset
    ensures OnlyPointerMoves(was, mid[o := mid[o].(offset := Moved(mid[o].offset, offset, n))], o, offset, n)
    ensures OnlyPointerMoves(was, mid, o, offset, 0)
  {
  }

  /** What stays of a protid whose I/O fid has been made sure of. */
  lemma StillItself(linux: bool, flags: set<Access>, was: Protid, now: Protid,
                    before: map<nat, Live>, after: map<nat, Live>, next: nat, next': nat, r: Answer<()>)
    requires Reopened(linux, flags, was, now, before, after, next, next', r)
    ensures now.walk == was.walk && now.po == was.po && next' <= next + 1
    ensures after - {now.io} == before - {was.io}
    ensures was.flags <= {Read, Write} && flags <= {Read, Write} ==> now.flags <= {Read, Write}
    ensures Read in flags || Write in flags ==> r.Fine? || r == Failed(Rejected)
  {
    assert Read in flags ==> Read in (flags + was.flags) * {Read, Write};
    assert Write in flags ==> Write in (flags + was.flags) * {Read, Write};
  }

  /** What an I/O fid just made sure of can be used for. */
  lemma OpenedFor(linux: bool, flags: set<Access>, was: Protid, now: Protid,
                  before: map<nat, Live>, after: map<nat, Live>, next: nat, next': nat, r: Answer<()>,
                  ps: map<nat, Protid>, extra: set<nat>, p: nat)
    requires Reopened(linux, flags, was, now, before, after, next, next', r) && r.Fine? && flags != {}
    requires Balanced(linux, ps, after, extra, next') && p in ps && ps[p] == now && now.walk != NO_FID
    ensures now.io in after && after[now.io].open.Some? && now.walk in after && flags <= now.flags
    ensures after[now.io].node == after[now.walk].node && Meets(linux, now.flags, after[now.io].open.value)
  {
    Entry(linux, ps, after, extra, next', p);
    hide Balanced;
    var a :| a in flags;
    assert a in now.flags && now.flags != {};
  }

  lemma PointerStep(protids: map<nat, Protid>, opens: map<nat, Peropen>, nextId: nat, maxMessage: nat, o: nat,
                    offset: nat)
    requires o in opens && Tables(protids, opens, nextId, maxMessage)
    ensures Tables(protids, opens[o := opens[o].(offset := offset)], nextId, maxMessage)
  {
  }

  /** Reads from the I/O fid at most `amount` bytes, asking for as many as one message carries. So
      nothing is read exactly at the end of the file, or if nothing was asked for, or if the limit
      on messages is the least possible, which the code takes to leave no room at all. */
  method IoRead(c: Client, p: nat, offset: int, amount: nat) returns (r: Answer<seq<Byte>>)
    requires p in c.protids && c.next + 1 < NO_FID && offset + TWO_64 >= 0 && Masked(c.protids) && c.Valid()
    modifies c`next, c`protids, c`opens
    modifies c.srv`live, c.srv`walks, c.srv`reported, c.srv`refused, c.srv`asked
    ensures c.next <= old(c.next) + 1 && Masked(c.protids)
    ensures p in c.protids && c.protids == old(c.protids)[p := c.protids[p]]
    ensures c.protids[p].walk == old(c.protids)[p].walk && c.protids[p].po == old(c.protids)[p].po
    ensures c.srv.live - {c.protids[p].io} == old(c.srv.live) - {old(c.protids)[p].io}
    ensures c.protids[p].po in old(c.opens) && c.protids[p].po in c.opens
    ensures OnlyPointerMoves(old(c.opens), c.opens, c.protids[p].po, offset, if r.Fine? then |r.value| else 0)
    ensures r.Fine? || r == Failed(EBADF) || r == Failed(Rejected)
    ensures r == Failed(EBADF) <==> Read !in old(c.opens)[c.protids[p].po].userFlags
    ensures c.srv.refused == old(c.srv.refused) + if r == Failed(Rejected) then 1 else 0
    ensures r.Fine? ==> c.protids[p].walk in c.srv.live && c.srv.live[c.protids[p].walk].node in c.srv.files
    ensures r.Fine? ==>
      var f, po := c.srv.files[c.srv.live[c.protids[p].walk].node], c.opens[c.protids[p].po];
      && 24 <= po.limit && c.srv.asked == Min(amount, po.limit - 24)
      && ReadsFrom(f, StartOf(offset, old(c.opens)[c.protids[p].po].offset), Min(amount, po.limit - 24), r.value)
    ensures c.Valid()
  {
    hide Balanced, FidsUsable, Covered, Tables, OnlyLimitsShrink, Meets, Reopened, Limited, StartOf, Moved, ReadsFrom;
    hide OnlyPointerMoves;
    TableEntry(c.protids, c.opens, c.nextId, c.srv.maxMessage, p);
    LimitsStay(c.opens);
    PointerMoved(c.opens, c.opens, c.protids[p].po, offset, 0);
    var o := c.protids[p].po;
    if Read !in c.opens[o].userFlags { return Failed(EBADF); }
    ghost var was, live0, next0, opens0 := c.protids[p], c.srv.live, c.next, c.opens;
    var count := Min(amount, c.opens[o].limit - HEADINGS);
    var opening := c.EnsureOpen(p, {Read});
    StillItself(c.linux, {Read}, was, c.protids[p], live0, c.srv.live, next0, c.next, opening);
    PointerMoved(opens0, c.opens, o, offset, 0);
    if opening.Failed? { return Failed(opening.error); }
    TableEntry(c.protids, c.opens, c.nextId, c.srv.maxMessage, p);
    OpenedFor(c.linux, {Read}, was, c.protids[p], live0, c.srv.live, next0, c.next, opening, c.protids, c.loose, p);
    MaskedMeets(c.linux, c.protids[p].flags, c.srv.live[c.protids[p].io].open.value);
    var po := c.opens[o];
    count := Min(count, po.limit - HEADINGS);
    var start := if offset == -1 then po.offset else if offset < 0 then offset + TWO_64 else offset;
    Starting(offset, po.offset);
    var ok, data := c.srv.ReadFile(c.protids[p].io, start, count);
    if !ok { return Failed(Rejected); }
    PointerStep(c.protids, c.opens, c.nextId, c.srv.maxMessage, o, Moved(po.offset, offset, |data|));
    PointerMoved(opens0, c.opens, o, offset, |data|);
    MovedPointer(c.opens, o, offset, |data|);
    if offset == -1 {
      c.opens := c.opens[o := po.(offset := po.offset + |data|)];
    }
    return Fine(data);
  }

  /** Writes as much as fits in one message, of which the server may take less. The request always
      goes to a fid that is open for writing, as the server's precondition demands. */
  method IoWrite(c: Client, p: nat, data: seq<Byte>, offset: int) returns (r: Answer<nat>)
    requires p in c.protids && c.next + 1 < NO_FID && offset + TWO_64 >= 0 && Masked(c.protids) && c.Valid()
    modifies c`next, c`protids, c`opens
    modifies c.srv`live, c.srv`walks, c.srv`reported, c.srv`files, c.srv`refused, c.srv`asked
    ensures c.next <= old(c.next) + 1 && Masked(c.protids)
    ensures p in c.protids && c.protids == old(c.protids)[p := c.protids[p]]
    ensures c.protids[p].walk == old(c.protids)[p].walk && c.protids[p].po == old(c.protids)[p].po
    ensures c.srv.live - {c.protids[p].io} == old(c.srv.live) - {old(c.protids)[p].io}
    ensures c.protids[p].po in old(c.opens) && c.protids[p].po in c.opens
    ensures OnlyPointerMoves(old(c.opens), c.opens, c.protids[p].po, offset, if r.Fine? then r.value else 0)
    ensures r.Fine? || r == Failed(EBADF) || r == Failed(EROFS) || r == Failed(Rejected)
    ensures r == Failed(EBADF) <==> Write !in old(c.opens)[c.protids[p].po].userFlags
    ensures r == Failed(EROFS) <==> Write in old(c.opens)[c.protids[p].po].userFlags && c.readonly
    ensures c.srv.refused == old(c.srv.refused) + if r == Failed(Rejected) then 1 else 0
    ensures r.Failed? ==> c.srv.files == old(c.srv.files)
    ensures r.Fine? ==> c.protids[p].walk in c.srv.live && c.srv.live[c.protids[p].walk].node in old(c.srv.files)
    ensures r.Fine? ==>
      var node, po := c.srv.live[c.protids[p].walk].node, c.opens[c.protids[p].po];
      var start := StartOf(offset, old(c.opens)[c.protids[p].po].offset);
      && r.value <= |data| && r.value + 24 <= po.limit && c.srv.asked == Min(|data|, po.limit - 24)
      && c.srv.files == old(c.srv.files)[node := Splice(old(c.srv.files)[node], start, data[..r.value])]
      && (r.value == 0 <==> (data == [] || po.limit == 24))
    ensures c.Valid()
  {
    hide Balanced, FidsUsable, Covered, Tables, OnlyLimitsShrink, Splice, Reopened, Limited, StartOf, Moved, Meets;
    hide OnlyPointerMoves;
    TableEntry(c.protids, c.opens, c.nextId, c.srv.maxMessage, p);
    LimitsStay(c.opens);
    PointerMoved(c.opens, c.opens, c.protids[p].po, offset, 0);
    var o := c.protids[p].po;
    if Write !in c.opens[o].userFlags { return Failed(EBADF); }
    if c.readonly { return Failed(EROFS); }
    ghost var was, live0, next0, opens0 := c.protids[p], c.srv.live, c.next, c.opens;
    var opening := c.EnsureOpen(p, {Write});
    StillItself(c.linux, {Write}, was, c.protids[p], live0, c.srv.live, next0, c.next, opening);
    PointerMoved(opens0, c.opens, o, offset, 0);
    if opening.Failed? { return Failed(opening.error); }
    TableEntry(c.protids, c.opens, c.nextId, c.srv.maxMessage, p);
    OpenedFor(c.linux, {Write}, was, c.protids[p], live0, c.srv.live, next0, c.next, opening, c.protids, c.loose, p);
    MaskedMeets(c.linux, c.protids[p].flags, c.srv.live[c.protids[p].io].open.value);
    var po := c.opens[o];
    var count := Min(|data|, po.limit - HEADINGS);
    var start := if offset == -1 then po.offset else if offset < 0 then offset + TWO_64 else offset;
    Starting(offset, po.offset);
    var ok, n := c.srv.WriteFile(c.protids[p].io, start, data[..count]);
    if !ok { return Failed(Rejected); }
    assert data[..count][..n] == data[..n];
    PointerStep(c.protids, c.opens, c.nextId, c.srv.maxMessage, o, Moved(po.offset, offset, n));
    PointerMoved(opens0, c.opens, o, offset, n);
    MovedPointer(c.opens, o, offset, n);
    if offset == -1 {
      c.opens := c.opens[o := po.(offset := po.offset + n)];
    }
    return Fine(n);
  }

  /** What follows a write of n bytes at `at`. */
  function Tail(f: seq<Byte>, at: nat, n: nat): seq<Byte> {
    if at + n < |f| then f[at + n..] else []
  }

  lemma TailOn(f: seq<Byte>, at: nat, n: nat, m: nat)
    ensures Tail(Tail(f, at, n), 0, m) == Tail(f, at, n + m)
  {
  }

  lemma TailBehind(a: seq<Byte>, b: seq<Byte>, m: nat)
    ensures Tail(a + b, |a|, m) == Tail(b, 0, m)
  {
  }

  lemma SpliceParts(f: seq<Byte>, at: nat, d: seq<Byte>)
    requires d != []
    ensures |Padded(f, at)| >= at
    ensures Splice(f, at, d) == Padded(f, at)[..at] + d + Tail(Padded(f, at), at, |d|)
  {
  }

  lemma Unpadded(f: seq<Byte>, at: nat)
    requires at <= |f|
    ensures Padded(f, at) == f
  {
  }

  /** Writing at the file pointer, which has moved on, continues what was written before. */
  lemma WritesCompose(f: seq<Byte>, at: nat, d: seq<Byte>, e: seq<Byte>)
    ensures Splice(Splice(f, at, d), at + |d|, e) == Splice(f, at, d + e)
  {
    if d == [] {
      assert d + e == e;
    } else if e == [] {
      assert d + e == d;
    } else {
      hide Splice, Padded, Tail;
      var p, g := Padded(f, at), Splice(f, at, d);
      SpliceParts(f, at, d);
      SpliceParts(f, at, d + e);
      var head, tail := p[..at] + d, Tail(p, at, |d|);
      assert g == head + tail && g[..at + |d|] == head;
      Unpadded(g, at + |d|);
      SpliceParts(g, at + |d|, e);
      TailBehind(head, tail, |e|);
      TailOn(p, at, |d|, |e|);
      Assoc(p[..at], d, e);
    }
  }

  /** A write that is not empty puts its bytes in their place and keeps all others; what lies between
      the old end of the file and a write beyond it is zero. */
  lemma SpliceBytes(f: seq<Byte>, at: nat, d: seq<Byte>)
    requires d != []
    ensures |Splice(f, at, d)| == if |f| > at + |d| then |f| else at + |d|
    ensures forall i :: 0 <= i < |Splice(f, at, d)| ==>
      Splice(f, at, d)[i] == if at <= i < at + |d| then d[i - at] else if i < |f| then f[i] else 0
  {
  }

  /** The transfers that the limit lets through make messages within it: 24 bytes are enough for
      the headings of a Twrite and of an Rread. */
  lemma MessagesFit(limit: nat, tag: nat, fid: nat, offset: nat, data: seq<Byte>)
    requires 24 <= limit && |data| <= limit - 24
    ensures |Wire.Frame(118, tag, Wire.Encode([Wire.U32(fid), Wire.U64(offset), Wire.Blob(data)]))|
         == WriteFrame(|data|) <= limit
    ensures |Wire.Frame(117, tag, Wire.Encode([Wire.Blob(data)]))| == ReadReplyFrame(|data|) <= limit
  {
    var fields := [Wire.U32(fid)] + ([Wire.U64(offset)] + [Wire.Blob(data)]);
    assert [Wire.U32(fid), Wire.U64(offset), Wire.Blob(data)] == fields;
    Wire.EncodeConcat([Wire.U32(fid)], [Wire.U64(offset)] + [Wire.Blob(data)]);
    Wire.EncodeConcat([Wire.U64(offset)], [Wire.Blob(data)]);
    Wire.EncodeOne(Wire.U32(fid));
    Wire.EncodeOne(Wire.U64(offset));
    Wire.EncodeOne(Wire.Blob(data));
  }

  // The file pointer, over several transfers.

  /** A transfer at an offset begins there and leaves the file pointer alone; a negative offset
      other than -1 stands for the 64-bit number with the same bits. */
  lemma ExplicitOffset(offset: int, pointer: nat, n: nat)
    requires offset != -1 && offset + TWO_64 >= 0
    ensures StartOf(offset, pointer) == (if offset >= 0 then offset else offset + 0x1_0000_0000_0000_0000)
    ensures Moved(pointer, offset, n) == pointer
  {
  }

  /** The walk fid is another than the I/O fid. */
  lemma WalkFidStays(c: Client, p: nat)
    requires c.Valid() && p in c.protids
    ensures c.protids[p].walk in c.srv.live && c.protids[p].walk != c.protids[p].io
    ensures c.protids[p].walk in c.srv.live - {c.protids[p].io}
  {
    TableEntry(c.protids, c.opens, c.nextId, c.srv.maxMessage, p);
    Entry(c.linux, c.protids, c.srv.live, c.loose, c.next, p);
  }

  lemma ReadsJoin(f: seq<Byte>, at: nat, n: nat, m: nat, x: seq<Byte>, y: seq<Byte>)
    requires ReadsFrom(f, at, n, x) && ReadsFrom(f, at + |x|, m, y)
    ensures at <= |f| ==> at + |x| + |y| <= |f| && x + y == f[at..at + |x| + |y|]
    ensures at > |f| ==> x + y == []
  {
  }

  /** Two reads at the file pointer return what follows it, and the second goes on where the first
      ended. */
  method ReadTwice(c: Client, p: nat, n: nat, m: nat) returns (x: Answer<seq<Byte>>, y: Answer<seq<Byte>>)
    requires p in c.protids && c.next + 2 < NO_FID && Masked(c.protids) && c.Valid()
    requires c.protids[p].walk in c.srv.live && c.protids[p].po in c.opens
    modifies c`next, c`protids, c`opens
    modifies c.srv`live, c.srv`walks, c.srv`reported, c.srv`refused, c.srv`asked
    ensures x.Fine? && y.Fine? ==>
      var pi := old(c.protids)[p];
      var node, pointer := old(c.srv.live)[pi.walk].node, old(c.opens)[pi.po].offset;
      && node in c.srv.files
      && var f := c.srv.files[node];
      && (pointer <= |f| ==>
            && pointer + |x.value| + |y.value| <= |f|
            && x.value + y.value == f[pointer..pointer + |x.value| + |y.value|])
      && (pointer > |f| ==> x.value + y.value == [])
      && pi.po in c.opens && c.opens[pi.po].offset == pointer + |x.value| + |y.value|
  {
    hide Balanced, Tables, ReadsFrom, FidsUsable, Masked;
    ghost var pi, live0, opens0 := c.protids[p], c.srv.live, c.opens;
    WalkFidStays(c, p);
    x := IoRead(c, p, -1, n);
    WalkFidStays(c, p);
    ghost var live1, opens1 := c.srv.live, c.opens;
    assert live1[pi.walk] == (live1 - {c.protids[p].io})[pi.walk] == live0[pi.walk];
    y := IoRead(c, p, -1, m);
    WalkFidStays(c, p);
    assert c.srv.live[pi.walk] == (c.srv.live - {c.protids[p].io})[pi.walk];
    if x.Fine? && y.Fine? {
      var f := c.srv.files[live0[pi.walk].node];
      ReadsJoin(f, opens0[pi.po].offset, Min(n, opens1[pi.po].limit - 24), Min(m, c.opens[pi.po].limit - 24),
                x.value, y.value);
    }
  }

  /** Two writes at the file pointer are one write of both parts there. */
  method WriteTwice(c: Client, p: nat, d: seq<Byte>, e: seq<Byte>) returns (x: Answer<nat>, y: Answer<nat>)
    requires p in c.protids && c.next + 2 < NO_FID && Masked(c.protids) && c.Valid()
    requires c.protids[p].walk in c.srv.live && c.protids[p].po in c.opens
    modifies c`next, c`protids, c`opens
    modifies c.srv`live, c.srv`walks, c.srv`reported, c.srv`files, c.srv`refused, c.srv`asked
    ensures x.Fine? && y.Fine? ==>
      var pi := old(c.protids)[p];
      var node, pointer := old(c.srv.live)[pi.walk].node, old(c.opens)[pi.po].offset;
      && node in old(c.srv.files) && x.value <= |d| && y.value <= |e|
      && c.srv.files == old(c.srv.files)[node := Splice(old(c.srv.files)[node], pointer, d[..x.value] + e[..y.value])]
      && pi.po in c.opens && c.opens[pi.po].offset == pointer + x.value + y.value
  {
    hide Balanced, Tables, Splice, FidsUsable, Masked;
    ghost var pi, live0, opens0, files0 := c.protids[p], c.srv.live, c.opens, c.srv.files;
    WalkFidStays(c, p);
    x := IoWrite(c, p, d, -1);
    WalkFidStays(c, p);
    ghost var live1, opens1 := c.srv.live, c.opens;
    assert live1[pi.walk] == (live1 - {c.protids[p].io})[pi.walk] == live0[pi.walk];
    y := IoWrite(c, p, e, -1);
    WalkFidStays(c, p);
    assert c.srv.live[pi.walk] == (c.srv.live - {c.protids[p].io})[pi.walk];
    if x.Fine? && y.Fine? {
      WritesCompose(files0[live0[pi.walk].node], opens0[pi.po].offset, d[..x.value], e[..y.value]);
    }
  }
}
