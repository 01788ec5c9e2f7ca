// Every action of the demultiplexer keeps its invariant.
module DemuxSafety {
  import opened Bytes
  import opened Wire
  import opened Demux

  lemma {:induction false} StartAppend(answers: seq<Answer>, r: Answer, i: nat)
    requires i <= |answers|
    ensures Start(answers + [r], i) == Start(answers, i)
  {
    if i > 0 {
      StartAppend(answers, r, i - 1);
    }
  }

  lemma {:induction false} StartMonotone(answers: seq<Answer>, i: nat, j: nat)
    requires i < j <= |answers|
    ensures Start(answers, i) + HEADER_SIZE + |answers[i].body| <= Start(answers, j)
    decreases j
  {
    if i + 1 < j {
      StartMonotone(answers, i, j - 1);
    }
  }

  /** The seven bytes of a frame's header decode to its size, type and tag. */
  lemma HeaderDecodes(r: Answer, h: seq<Byte>)
    requires h <= FrameOf(r) && |h| == HEADER_SIZE
    requires HEADER_SIZE + |r.body| < TWO_32 && r.tag < TAGS
    ensures HeaderSize(h) == HEADER_SIZE + |r.body| && h[4] == r.kind && HeaderTag(h) == r.tag
  {
    hide Le, LeVal;
    LeWidths(HEADER_SIZE + |r.body|);
    LeWidths(r.tag);
    var size, tail := Le(HEADER_SIZE + |r.body|, 4), Le(r.tag, 2);
    assert h == size + ([r.kind] + tail);
    assert h[..4] == size;
    assert h[5..7] == tail;
  }

  lemma HeaderRead(s: State, c: nat)
    requires Calls(s) && Stream(s)
    requires c < |s.calls| && s.calls[c].pc.Header? && |s.calls[c].pc.got| == HEADER_SIZE
    ensures s.cur < |s.answers|
    ensures var r, h := s.answers[s.cur], s.calls[c].pc.got;
      HeaderSize(h) == HEADER_SIZE + |r.body| && h[4] == r.kind && HeaderTag(h) == r.tag
  {
    hide FrameOf, Holds, Start, HeaderSize, HeaderTag;
    assert CallOk(s, s.calls[c]);
    HeaderDecodes(s.answers[s.cur], s.calls[c].pc.got);
  }

  lemma CurrentOwner(s: State, c: nat)
    requires Inv(s) && s.cur < |s.answers|
    requires c < |s.calls| && s.calls[c].pc.Header?
    ensures var r := s.answers[s.cur];
      && r.owner < |s.calls| && s.calls[r.owner].tag == r.tag && s.calls[r.owner].reply == Some(s.cur)
      && s.calls[c].size == 0
      && s.calls[r.owner].size == 0 && (r.owner != c ==> s.calls[r.owner].pc.Ready? || s.calls[r.owner].pc.Asleep?)
  {
    hide FrameOf, Holds, Start, AtHeader;
    var o := s.answers[s.cur].owner;
    assert CallOk(s, s.calls[c]) && CallOk(s, s.calls[o]);
    assert Holder(s.calls[c]);
    if o != c {
      assert !Holder(s.calls[o]);
    }
  }

  /** When a whole header has been read the program's assertions hold: the frame's call is
      still waiting, is the one registered under the tag, and is no other reader. */
  lemma HeaderFindsOwner(s: State, c: nat)
    requires Inv(s) && c < |s.calls| && s.calls[c].pc.Header? && |s.calls[c].pc.got| == HEADER_SIZE
    ensures Enabled(s, Dispatch(c)) && s.cur < |s.answers|
    ensures var r := s.answers[s.cur];
      && r.owner < |s.calls| && r.tag in s.table && s.table[r.tag] == r.owner
      && (r.owner == c <==> s.calls[c].tag == r.tag)
  {
    hide FrameOf, Holds, Start, AtHeader, CallOk, HeaderSize, HeaderTag, Token, Stream, Calls;
    HeaderRead(s, c);
    CurrentOwner(s, c);
  }

  // Table entries.

  /** The tag counter must not have come round to a tag still in use. */
  predicate TagFree(s: State, a: Action) {
    a.Register? ==> s.nextTag !in s.table
  }

  /** A read of a body must not go on into the next frame. */
  predicate WithinFrame(s: State, a: Action) {
    a.ReadBody? && a.c < |s.calls| && s.calls[a.c].pc.Body? ==>
      HEADER_SIZE + |s.calls[a.c].pc.got| + a.n <= s.calls[a.c].size
  }

  /** What a step must keep to: neither is enforced by the program. */
  predicate Orderly(s: State, a: Action) {
    TagFree(s, a) && WithinFrame(s, a)
  }

  /** Tables looks only at the calls, the table and the tag counter. */
  predicate SameTable(s: State, t: State) {
    s.calls == t.calls && s.table == t.table && s.nextTag == t.nextTag
  }

  lemma SetCallTables(s: State, c: nat, call: Call)
    requires Tables(s) && c < |s.calls|
    requires call.tag == s.calls[c].tag && (Registered(call.pc) <==> Registered(s.calls[c].pc))
    ensures Tables(SetCall(s, c, call))
  {
  }

  lemma TakeBodyTables(s: State, c: nat)
    requires Tables(s) && c < |s.calls| && Registered(s.calls[c].pc)
    ensures Tables(TakeBody(s, c))
  {
    var tag := s.calls[c].tag;
    assert forall d :: 0 <= d < |s.calls| && Registered(s.calls[d].pc) && d != c ==> s.calls[d].tag != tag;
  }

  lemma TablesFrame(s: State, t: State)
    requires Tables(s) && SameTable(s, t)
    ensures Tables(t)
  {
  }

  lemma AgainTables(s: State, c: nat)
    requires Tables(s) && c < |s.calls| && Registered(s.calls[c].pc)
    ensures Tables(Again(s, c))
  {
    hide Tables;
    TakeBodyTables(s, c);
    SetCallTables(s, c, s.calls[c].(pc := Asleep));
    SetCallTables(s, c, s.calls[c].(pc := Header([])));
    var t := SetPc(s, c, Header([]));
    TablesFrame(t, t.(reading := true));
  }

  lemma RegisterTables(s: State)
    requires Tables(s) && s.nextTag !in s.table
    ensures Tables(Apply(s, Register))
  {
    var t := Apply(s, Register);
    assert forall c :: 0 <= c < |s.calls| ==> t.calls[c] == s.calls[c];
  }

  lemma DispatchTables(s: State, c: nat)
    requires Inv(s) && Enabled(s, Dispatch(c))
    ensures Tables(Apply(s, Dispatch(c)))
  {
    hide Tables, Token, Stream, Matching, Calls, HeaderTag, HeaderSize;
    var h := s.calls[c].pc.got;
    if HeaderTag(h) == s.calls[c].tag {
      var call := s.calls[c].(size := HeaderSize(h), kind := h[4]);
      SetCallTables(s, c, call);
      TakeBodyTables(SetCall(s, c, call), c);
    } else {
      var other := s.table[HeaderTag(h)];
      var call := Signalled(s.calls[other].(size := HeaderSize(h), kind := h[4]));
      SetCallTables(s, other, call);
      AgainTables(SetCall(s, other, call), c);
    }
  }

  lemma ReleaseTables(s: State, c: nat, wake: nat)
    requires Inv(s) && Enabled(s, Release(c, wake))
    ensures Tables(Apply(s, Release(c, wake)))
  {
    hide Tables, Token, Stream, Matching, Calls;
    var t := SetPc(s, c, Done(s.calls[c].pc.got));
    SetCallTables(s, c, t.calls[c]);
    var u := t.(reading := false, cur := s.cur + 1);
    TablesFrame(t, u);
    if wake in u.table && u.table[wake] < |u.calls| {
      SetCallTables(u, u.table[wake], Signalled(u.calls[u.table[wake]]));
    }
  }

  lemma TablesKept(s: State, a: Action)
    requires Inv(s) && Enabled(s, a) && TagFree(s, a)
    ensures Tables(Apply(s, a))
  {
    hide Tables, Token, Stream, Matching, Calls, HeaderTag, HeaderSize;
    var t := Apply(s, a);
    match a
    case Register => RegisterTables(s);
    case Send(c) => SetCallTables(s, c, t.calls[c]);
    case SendFails(c) => SetCallTables(s, c, t.calls[c]);
    case Serve(c, kind, body) =>
      SetCallTables(s, c, t.calls[c]);
      TablesFrame(SetCall(s, c, t.calls[c]), t);
    case Enter(c) => AgainTables(s, c);
    case ReadHeader(c) =>
      SetCallTables(s, c, t.calls[c]);
      TablesFrame(SetCall(s, c, t.calls[c]), t);
    case Dispatch(c) => DispatchTables(s, c);
    case ReadBody(c, n) =>
      SetCallTables(s, c, t.calls[c]);
      TablesFrame(SetCall(s, c, t.calls[c]), t);
    case Release(c, wake) => ReleaseTables(s, c, wake);
    case Spurious(c) => SetCallTables(s, c, t.calls[c]);
  }

  // Which frame answers which call.

  predicate SameIds(s: State, t: State) {
    && t.answers == s.answers && |t.calls| == |s.calls|
    && forall c :: 0 <= c < |s.calls| ==> t.calls[c].tag == s.calls[c].tag && t.calls[c].reply == s.calls[c].reply
  }

  lemma OtherActionsKeepIds(s: State, a: Action)
    requires Enabled(s, a) && !a.Register? && !a.Serve?
    ensures SameIds(s, Apply(s, a))
  {
    hide HeaderTag, HeaderSize;
  }

  lemma MatchingFrame(s: State, t: State)
    requires Matching(s) && SameIds(s, t)
    ensures Matching(t)
  {
  }

  lemma RegisterMatching(s: State)
    requires Matching(s)
    ensures Matching(Apply(s, Register))
  {
    var t := Apply(s, Register);
    assert forall c :: 0 <= c < |s.calls| ==> t.calls[c] == s.calls[c];
  }

  lemma ServeMatching(s: State, c: nat, kind: Byte, body: seq<Byte>)
    requires Matching(s) && Enabled(s, Serve(c, kind, body))
    ensures Matching(Apply(s, Serve(c, kind, body)))
  {
    hide FrameOf;
    var t := Apply(s, Serve(c, kind, body));
    assert forall i :: 0 <= i < |s.answers| ==> t.answers[i] == s.answers[i] && t.answers[i].owner != c;
  }

  lemma MatchingKept(s: State, a: Action)
    requires Matching(s) && Enabled(s, a)
    ensures Matching(Apply(s, a))
  {
    hide Matching, SameIds, FrameOf;
    match a
    case Register => RegisterMatching(s);
    case Serve(c, kind, body) => ServeMatching(s, c, kind, body);
    case _ =>
      OtherActionsKeepIds(s, a);
      MatchingFrame(s, Apply(s, a));
  }

  // The stream.

  lemma StartNext(answers: seq<Answer>, i: nat)
    requires i < |answers|
    ensures Start(answers, i + 1) == Start(answers, i) + HEADER_SIZE + |answers[i].body|
  {
  }

  lemma HoldsLonger(data: seq<Byte>, more: seq<Byte>, at: nat, b: seq<Byte>)
    requires Holds(data, at, b)
    ensures Holds(data + more, at, b)
  {
    assert (data + more)[at..at + |b|] == data[at..at + |b|];
  }

  lemma ServeStream(s: State, c: nat, kind: Byte, body: seq<Byte>)
    requires Tables(s) && Stream(s) && Enabled(s, Serve(c, kind, body))
    ensures Stream(Apply(s, Serve(c, kind, body)))
  {
    hide FrameOf, Start;
    var t := Apply(s, Serve(c, kind, body));
    var r := Answer(c, s.calls[c].tag, kind, body);
    StartAppend(s.answers, r, s.cur);
    StartAppend(s.answers, r, |s.answers|);
    StartNext(t.answers, |s.answers|);
    assert FrameOf(r) == t.input[|s.input|..];
    forall i | 0 <= i < |t.answers|
      ensures HEADER_SIZE + |t.answers[i].body| < TWO_32 && t.answers[i].tag < TAGS
      ensures Holds(t.input, Start(t.answers, i), FrameOf(t.answers[i]))
    {
      StartAppend(s.answers, r, i);
      if i < |s.answers| {
        assert t.answers[i] == s.answers[i];
        HoldsLonger(s.input, FrameOf(r), Start(s.answers, i), FrameOf(s.answers[i]));
      }
    }
  }

  lemma StreamKept(s: State, a: Action)
    requires Inv(s) && Enabled(s, a)
    ensures Stream(Apply(s, a))
  {
    hide FrameOf, Start, Holds, Tables, Matching, HeaderTag, HeaderSize, AtHeader, Unanswered;
    match a
    case Serve(c, kind, body) => ServeStream(s, c, kind, body);
    case Release(c, wake) =>
      assert CallOk(s, s.calls[c]);
      StartNext(s.answers, s.cur);
    case ReadHeader(c) => assert Holder(s.calls[c]);
    case ReadBody(c, n) => assert Holder(s.calls[c]);
    case _ =>
  }

  // The token.

  /** Replacing one call without touching what makes it a holder. */
  lemma SetCallToken(s: State, c: nat, call: Call)
    requires Token(s) && c < |s.calls| && (Holder(call) <==> Holder(s.calls[c]))
    ensures Token(SetCall(s, c, call))
  {
    var t := SetCall(s, c, call);
    assert forall d :: 0 <= d < |s.calls| ==> (Holder(t.calls[d]) <==> Holder(s.calls[d]));
  }

  lemma EnterToken(s: State, c: nat)
    requires Token(s) && Enabled(s, Enter(c))
    ensures Token(Again(s, c))
  {
    hide Tables;
    var t := Again(s, c);
    assert forall d :: 0 <= d < |s.calls| && d != c ==> t.calls[d] == s.calls[d];
    if s.calls[c].size != 0 || !s.reading {
      assert Holder(t.calls[c]);
    } else {
      var h :| 0 <= h < |s.calls| && Holder(s.calls[h]);
      assert Holder(t.calls[h]);
    }
  }

  /** Hand-off: the reader of another call's header goes to sleep, and that call, which is not
      sending any more, becomes the holder. */
  lemma DispatchToken(s: State, c: nat)
    requires Inv(s) && Enabled(s, Dispatch(c))
    ensures Token(Apply(s, Dispatch(c)))
  {
    hide FrameOf, Start, Holds, Tables, Matching, AtHeader, Stream, HeaderTag, HeaderSize, Calls;
    HeaderRead(s, c);
    CurrentOwner(s, c);
    HeaderFindsOwner(s, c);
    var t := Apply(s, Dispatch(c));
    var o := s.answers[s.cur].owner;
    assert Holder(s.calls[c]);
    assert Holder(t.calls[o]);
    assert forall d :: 0 <= d < |s.calls| && d != c && d != o ==> t.calls[d] == s.calls[d];
  }

  lemma ReleaseToken(s: State, c: nat, wake: nat)
    requires Inv(s) && Enabled(s, Release(c, wake))
    ensures Token(Apply(s, Release(c, wake)))
  {
    hide FrameOf, Start, Holds, Tables, Matching, AtHeader, Stream;
    var t := Apply(s, Release(c, wake));
    assert Holder(s.calls[c]);
    forall d | 0 <= d < |t.calls| ensures !Holder(t.calls[d]) {
      assert CallOk(s, s.calls[d]);
    }
  }

  lemma RegisterToken(s: State)
    requires Token(s)
    ensures Token(Apply(s, Register))
  {
    var t := Apply(s, Register);
    assert forall c :: 0 <= c < |s.calls| ==> t.calls[c] == s.calls[c];
    assert !Holder(t.calls[|s.calls|]);
  }

  lemma TokenFrame(s: State, t: State)
    requires Token(s) && t.calls == s.calls && t.reading == s.reading
    ensures Token(t)
  {
  }

  lemma TokenKept(s: State, a: Action)
    requires Inv(s) && Enabled(s, a)
    ensures Token(Apply(s, a))
  {
    hide FrameOf, Start, Holds, Tables, Matching, HeaderTag, HeaderSize, AtHeader, Stream, Token;
    var t := Apply(s, a);
    match a
    case Register => RegisterToken(s);
    case Enter(c) => EnterToken(s, c);
    case Dispatch(c) => DispatchToken(s, c);
    case Release(c, wake) => ReleaseToken(s, c, wake);
    case Send(c) => assert CallOk(s, s.calls[c]); SetCallToken(s, c, t.calls[c]);
    case SendFails(c) => SetCallToken(s, c, t.calls[c]);
    case Serve(c, kind, body) => SetCallToken(s, c, t.calls[c]); TokenFrame(SetCall(s, c, t.calls[c]), t);
    case ReadHeader(c) => SetCallToken(s, c, t.calls[c]); TokenFrame(SetCall(s, c, t.calls[c]), t);
    case ReadBody(c, n) => SetCallToken(s, c, t.calls[c]); TokenFrame(SetCall(s, c, t.calls[c]), t);
    case Spurious(c) => assert CallOk(s, s.calls[c]); SetCallToken(s, c, t.calls[c]);
  }

  // Every call is where its history says.

  lemma {:induction false} StartPrefix(a: seq<Answer>, b: seq<Answer>, i: nat)
    requires a <= b && i <= |a|
    ensures Start(a, i) == Start(b, i)
  {
    if i > 0 {
      StartPrefix(a, b, i - 1);
    }
  }

  /** Only the holder's condition mentions the stream position. */
  lemma CallFrame(s: State, t: State, call: Call)
    requires s.cur <= |s.answers| && CallOk(s, call)
    requires t.cur == s.cur && s.answers <= t.answers
    requires t.pos == s.pos || !Holder(call)
    ensures CallOk(t, call)
  {
    hide FrameOf;
    StartPrefix(s.answers, t.answers, s.cur);
  }

  /** A step that leaves the calls other than c alone and moves the position only for c. */
  lemma CallsFrame(s: State, t: State, c: nat)
    requires Calls(s) && |t.calls| == |s.calls|
    requires t.cur == s.cur && s.answers <= t.answers
    requires forall d :: 0 <= d < |s.calls| && d != c ==>
      t.calls[d] == s.calls[d] && (t.pos == s.pos || !Holder(s.calls[d]))
    requires c < |t.calls| ==> CallOk(t, t.calls[c])
    ensures Calls(t)
  {
    hide CallOk;
    forall d | 0 <= d < |t.calls| ensures CallOk(t, t.calls[d]) {
      if d != c {
        CallFrame(s, t, s.calls[d]);
      }
    }
  }

  lemma FreshCallOk(s: State, call: Call)
    requires s.cur <= |s.answers| && call.pc.Sending? && call.size == 0 && call.reply.None?
    ensures CallOk(s, call)
  {
  }

  lemma RegisterCalls(s: State)
    requires Calls(s)
    ensures Calls(Apply(s, Register))
  {
    hide CallOk;
    var t := Apply(s, Register);
    forall d | 0 <= d < |t.calls| ensures CallOk(t, t.calls[d]) {
      if d < |s.calls| {
        assert t.calls[d] == s.calls[d];
        CallFrame(s, t, s.calls[d]);
      } else {
        FreshCallOk(t, t.calls[d]);
      }
    }
  }

  lemma EnterCalls(s: State, c: nat)
    requires Inv(s) && Enabled(s, Enter(c))
    ensures Calls(Apply(s, Enter(c)))
  {
    hide FrameOf, Start, Holds, Tables, Matching;
    assert CallOk(s, s.calls[c]);
    CallsFrame(s, Apply(s, Enter(c)), c);
  }

  lemma OthersNotHolders(s: State, c: nat)
    requires Token(s) && c < |s.calls| && Holder(s.calls[c])
    ensures forall d :: 0 <= d < |s.calls| && d != c ==> !Holder(s.calls[d])
  {
  }

  lemma PartOfFrame(input: seq<Byte>, at: nat, frame: seq<Byte>, k: nat, n: nat)
    requires Holds(input, at, frame) && k + n <= |frame|
    ensures frame[..k] + input[at + k..at + k + n] == frame[..k + n]
  {
    SubSlice(input, at, at + |frame|, k, k + n);
  }

  lemma ReadHeaderCalls(s: State, c: nat)
    requires Inv(s) && Enabled(s, ReadHeader(c))
    ensures Calls(Apply(s, ReadHeader(c)))
  {
    hide FrameOf, Start, Holds, Tables, Matching;
    var t := Apply(s, ReadHeader(c));
    var got := s.calls[c].pc.got;
    assert CallOk(s, s.calls[c]);
    assert s.cur < |s.answers|;
    PartOfFrame(s.input, Start(s.answers, s.cur), FrameOf(s.answers[s.cur]), |got|, NextPart(|got|));
    assert got == FrameOf(s.answers[s.cur])[..|got|];
    assert t.calls[c].pc.got == FrameOf(s.answers[s.cur])[..|got| + NextPart(|got|)];
    OthersNotHolders(s, c);
    CallsFrame(s, t, c);
  }

  lemma BodyOfFrame(r: Answer)
    ensures FrameOf(r)[HEADER_SIZE..] == r.body
  {
  }

  lemma BodyHeld(s: State, r: Answer, i: nat)
    requires Stream(s) && i < |s.answers| && r == s.answers[i]
    ensures Holds(s.input, Start(s.answers, i) + HEADER_SIZE, r.body)
  {
    hide FrameOf, Start, Holds;
    BodyOfFrame(r);
    assert FrameOf(r) == FrameOf(r)[..HEADER_SIZE] + r.body;
    HoldsSplit(s.input, Start(s.answers, i), FrameOf(r)[..HEADER_SIZE], r.body);
  }

  lemma ReadBodyCalls(s: State, c: nat, n: nat)
    requires Inv(s) && Enabled(s, ReadBody(c, n)) && WithinFrame(s, ReadBody(c, n))
    ensures Calls(Apply(s, ReadBody(c, n)))
  {
    hide FrameOf, Start, Tables, Matching;
    var t := Apply(s, ReadBody(c, n));
    var got := s.calls[c].pc.got;
    assert CallOk(s, s.calls[c]);
    var r := s.answers[s.cur];
    BodyOfFrame(r);
    BodyHeld(s, r, s.cur);
    PartOfFrame(s.input, Start(s.answers, s.cur) + HEADER_SIZE, r.body, |got|, n);
    assert got == r.body[..|got|];
    assert t.calls[c].pc.got == r.body[..|got| + n];
    OthersNotHolders(s, c);
    CallsFrame(s, t, c);
  }

  lemma DispatchCalls(s: State, c: nat)
    requires Inv(s) && Enabled(s, Dispatch(c))
    ensures Calls(Apply(s, Dispatch(c)))
  {
    hide FrameOf, Start, Holds, Tables, Matching, HeaderTag, HeaderSize, Stream;
    HeaderRead(s, c);
    CurrentOwner(s, c);
    HeaderFindsOwner(s, c);
    var t := Apply(s, Dispatch(c));
    var o := s.answers[s.cur].owner;
    assert CallOk(s, s.calls[c]) && CallOk(s, s.calls[o]);
    assert CallOk(t, t.calls[o]);
    assert CallOk(t, t.calls[c]);
    var mid := SetCall(s, o, t.calls[o]);
    assert Holder(s.calls[c]);
    CallsFrame(s, mid, o);
    CallsFrame(mid, t, c);
  }

  lemma ReleaseCalls(s: State, c: nat, wake: nat)
    requires Inv(s) && Enabled(s, Release(c, wake))
    ensures Calls(Apply(s, Release(c, wake)))
  {
    hide FrameOf, Start, Holds, Tables, Stream;
    var t := Apply(s, Release(c, wake));
    assert CallOk(s, s.calls[c]);
    assert Holder(s.calls[c]);
    OthersNotHolders(s, c);
    forall d | 0 <= d < |t.calls| ensures CallOk(t, t.calls[d]) {
      assert CallOk(s, s.calls[d]);
      assert d != c ==> s.calls[d].reply != Some(s.cur);
    }
  }

  lemma ServeCalls(s: State, c: nat, kind: Byte, body: seq<Byte>)
    requires Inv(s) && Enabled(s, Serve(c, kind, body))
    ensures Calls(Apply(s, Serve(c, kind, body)))
  {
    hide FrameOf, Start, Holds, Tables, Matching, Stream;
    var t := Apply(s, Serve(c, kind, body));
    assert CallOk(s, s.calls[c]);
    CallFrame(s, t, s.calls[c]);
    assert CallOk(t, t.calls[c]);
    CallsFrame(s, t, c);
  }

  lemma CallsKept(s: State, a: Action)
    requires Inv(s) && Enabled(s, a) && WithinFrame(s, a)
    ensures Calls(Apply(s, a))
  {
    hide FrameOf, Start, Holds, Tables, Matching, HeaderTag, HeaderSize, AtHeader, AtBody, Stream, Token;
    var t := Apply(s, a);
    match a
    case Register => RegisterCalls(s);
    case Enter(c) => EnterCalls(s, c);
    case Dispatch(c) => DispatchCalls(s, c);
    case Release(c, wake) => ReleaseCalls(s, c, wake);
    case ReadHeader(c) => ReadHeaderCalls(s, c);
    case ReadBody(c, n) => ReadBodyCalls(s, c, n);
    case Send(c) => assert CallOk(s, s.calls[c]); CallsFrame(s, t, c);
    case SendFails(c) => assert CallOk(s, s.calls[c]); CallsFrame(s, t, c);
    case Serve(c, kind, body) => ServeCalls(s, c, kind, body);
    case Spurious(c) => assert CallOk(s, s.calls[c]); CallsFrame(s, t, c);
  }

  /** After a read beyond its frame a call has bytes that are not its own. */
  lemma Overrun(s: State, a: Action)
    requires Calls(s) && Enabled(s, a) && !WithinFrame(s, a)
    ensures !Calls(Apply(s, a))
  {
    hide FrameOf, Start, Holds;
    assert CallOk(s, s.calls[a.c]);
    var t := Apply(s, a);
    assert !CallOk(t, t.calls[a.c]);
  }

  /** Registering under a tag still in use drops the older call from the table: it waits, and
      no frame can find it. */
  lemma TagReuse(s: State)
    requires Tables(s) && s.nextTag in s.table
    ensures var t := Apply(s, Register); var older := s.table[s.nextTag];
      && Registered(t.calls[older].pc) && t.table[t.calls[older].tag] != older
      && !Tables(t)
  {
    var t := Apply(s, Register);
    var c := s.table[s.nextTag];
    assert t.calls[c] == s.calls[c];
  }

  /** One step. A tag still in use breaks the invariant, and so does a read beyond the frame;
      nothing else does. */
  lemma StepKeepsInv(s: State, a: Action)
    requires Inv(s) && Enabled(s, a)
    ensures Inv(Apply(s, a)) <==> Orderly(s, a)
  {
    hide Apply, Tables, Token, Stream, Matching, Calls, WithinFrame;
    TokenKept(s, a);
    StreamKept(s, a);
    MatchingKept(s, a);
    if !WithinFrame(s, a) {
      Overrun(s, a);
    } else {
      CallsKept(s, a);
      if TagFree(s, a) {
        TablesKept(s, a);
      } else {
        TagReuse(s);
      }
    }
  }

  // Runs.

  predicate Legal(s: State, run: seq<Action>)
    decreases |run|
  {
    run == [] || (Enabled(s, run[0]) && Orderly(s, run[0]) && Legal(Apply(s, run[0]), run[1..]))
  }

  function Run(s: State, run: seq<Action>): State
    requires Legal(s, run)
    decreases |run|
  {
    if run == [] then s else Run(Apply(s, run[0]), run[1..])
  }

  lemma {:induction false} RunKeepsInv(s: State, run: seq<Action>)
    requires Inv(s) && Legal(s, run)
    ensures Inv(Run(s, run))
    decreases |run|
  {
    hide Inv, Enabled, Apply, Orderly;
    if run != [] {
      StepKeepsInv(s, run[0]);
      RunKeepsInv(Apply(s, run[0]), run[1..]);
    }
  }

  lemma InitInv()
    ensures Inv(INIT)
  {
  }
}
