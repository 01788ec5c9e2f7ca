// The demultiplexer and the receiver together: what a call returns is determined by its own
// reply alone if no field straddles the end of the frame; otherwise another call pays for it.
module DemuxReceive {
  import opened Bytes
  import opened Wire
  import opened Recv
  import opened RecvLaws
  import opened Demux
  import opened DemuxSafety
  import opened DemuxTheorems
  import opened DemuxProgress
  import opened ReplyLaws

  // A parse does not depend on where in the stream it happens.

  function FieldAt(f: Field, base: nat): Field {
    match f
    case Got(v, next) => Got(v, base + next)
    case TooBig(next) => TooBig(base + next)
    case Eof => Eof
  }

  lemma SliceShift(pre: seq<Byte>, x: seq<Byte>, a: nat, k: nat)
    ensures a + k <= |x| ==> (pre + x)[|pre| + a..|pre| + a + k] == x[a..a + k]
  {
  }

  lemma QidShift(pre: seq<Byte>, x: seq<Byte>, a: nat)
    requires a + 13 <= |x|
    ensures QidAt(pre + x, |pre| + a) == QidAt(x, a)
  {
    hide LeVal;
    SliceShift(pre, x, a + 1, 4);
    SliceShift(pre, x, a + 5, 8);
  }

  lemma {:induction false} QidsShift(pre: seq<Byte>, x: seq<Byte>, a: nat, n: nat)
    requires a + 13 * n <= |x|
    ensures QidsAt(pre + x, |pre| + a, n) == QidsAt(x, a, n)
    decreases n
  {
    hide QidAt;
    if n > 0 {
      QidShift(pre, x, a);
      QidsShift(pre, x, a + 13, n - 1);
      assert |pre| + a + 13 == |pre| + (a + 13);
    }
  }

  lemma FixedShift(k: nat, pre: seq<Byte>, x: seq<Byte>, a: nat)
    ensures FixedField(k, pre + x, |pre| + a) == FieldAt(FixedField(k, x, a), |pre|)
  {
    hide LeVal;
    SliceShift(pre, x, a, k);
  }

  lemma CountedShift(slot: Slot, pre: seq<Byte>, x: seq<Byte>, a: nat)
    requires slot.SBlob? || slot.SStr?
    ensures ReadField(slot, pre + x, |pre| + a) == FieldAt(ReadField(slot, x, a), |pre|)
  {
    hide LeVal;
    var k := if slot.SStr? then 2 else 4;
    SliceShift(pre, x, a, k);
    if a + k <= |x| {
      SliceShift(pre, x, a + k, LeVal(x[a..a + k]));
    }
  }

  lemma QidFieldShift(pre: seq<Byte>, x: seq<Byte>, a: nat)
    ensures ReadField(SQids, pre + x, |pre| + a) == FieldAt(ReadField(SQids, x, a), |pre|)
  {
    hide LeVal, QidsAt;
    SliceShift(pre, x, a, 2);
    if a + 2 <= |x| && a + 2 + 13 * LeVal(x[a..a + 2]) <= |x| {
      QidsShift(pre, x, a + 2, LeVal(x[a..a + 2]));
    }
  }

  lemma FieldShift(slot: Slot, pre: seq<Byte>, x: seq<Byte>, a: nat)
    requires !slot.SMore?
    ensures ReadField(slot, pre + x, |pre| + a) == FieldAt(ReadField(slot, x, a), |pre|)
  {
    hide LeVal, QidsAt, FixedField, FieldAt;
    match slot
    case S1 => FixedShift(1, pre, x, a);
    case S2 => FixedShift(2, pre, x, a);
    case S4 => FixedShift(4, pre, x, a);
    case S8 => FixedShift(8, pre, x, a);
    case SQids => QidFieldShift(pre, x, a);
    case _ => CountedShift(slot, pre, x, a);
  }

  lemma {:induction false} ParseShift(slots: seq<Slot>, pre: seq<Byte>, x: seq<Byte>, a: nat, limit: nat)
    ensures var p := Parse(slots, x, a, limit);
      Parse(slots, pre + x, |pre| + a, |pre| + limit) == p.(at := |pre| + p.at)
    decreases |slots|
  {
    hide ReadField;
    if slots != [] {
      if slots[0].SMore? {
        ParseShift(slots[1..], pre, x, a, limit);
      } else if a < limit {
        FieldShift(slots[0], pre, x, a);
        match ReadField(slots[0], x, a)
        case Got(_, next) => ParseShift(slots[1..], pre, x, next, limit);
        case _ =>
      }
    }
  }

  lemma BodyInPlace(data: seq<Byte>, at: nat, body: seq<Byte>)
    requires Holds(data, at, body)
    ensures at + |body| <= |data| && data[..at + |body|] == data[..at] + body
  {
    assert data[..at + |body|] == data[..at] + data[at..at + |body|];
  }

  /** A body received from within a stream, compared with the same body received on its own. */
  lemma OwnBodyAlone(kind: nat, request: nat, unix: bool, slots: seq<Slot>, data: seq<Byte>, at: nat, body: seq<Byte>)
    requires Holds(data, at, body)
    ensures var fields, limit := EffectiveSlots(kind, request, unix, slots), at + |body|;
      var r := Receive(kind, request, unix, slots, data, at, limit);
      var alone := Receive(kind, request, unix, slots, body, 0, |body|);
      && limit <= |data| && (Straddles(fields, data, at, limit) <==> Straddles(fields, body, 0, |body|))
      && (!Straddles(fields, body, 0, |body|) ==> r.err == alone.err && r.vals == alone.vals && r.end == limit)
  {
    hide Parse, Holds, ReadField;
    var fields, limit := EffectiveSlots(kind, request, unix, slots), at + |body|;
    var p := Parse(fields, body, 0, |body|);
    BodyInPlace(data, at, body);
    TakeAll(body);
    ParseShift(fields, data[..at], body, 0, |body|);
    Resynchronised(kind, request, unix, slots, data, at, limit);
  }

  /** No field of the format straddles the end of a frame with this body. */
  predicate Contained(answer: Answer, request: nat, unix: bool, slots: seq<Slot>) {
    !Straddles(EffectiveSlots(answer.kind, request, unix, slots), answer.body, 0, |answer.body|)
  }

  /** Received from position `at`, the reply ends with its frame exactly if its own body contains
      its fields, and then gives what that body gives on its own. */
  predicate ReceivedAsAlone(input: seq<Byte>, at: nat, answer: Answer, request: nat, unix: bool, slots: seq<Slot>) {
    var limit := at + |answer.body|;
    && limit <= |input|
    && (Straddles(EffectiveSlots(answer.kind, request, unix, slots), input, at, limit)
        <==> !Contained(answer, request, unix, slots))
    && (Contained(answer, request, unix, slots) ==>
          var r := Receive(answer.kind, request, unix, slots, input, at, limit);
          var alone := Receive(answer.kind, request, unix, slots, answer.body, 0, |answer.body|);
          r.end == limit && r.err == alone.err && r.vals == alone.vals)
  }

  lemma ReplyIsOwn(s: State, c: nat)
    requires Inv(s) && c < |s.calls| && s.calls[c].pc == Body([])
    ensures s.cur < |s.answers| && s.answers[s.cur].owner == c
    ensures s.answers[s.cur].tag == s.calls[c].tag && s.answers[s.cur].kind == s.calls[c].kind
    ensures s.calls[c].reply == Some(s.cur)
  {
    hide FrameOf, Holds, Start, Tables, Token, Stream;
    assert CallOk(s, s.calls[c]);
  }

  lemma AtOwnBody(s: State, c: nat)
    requires Inv(s) && c < |s.calls| && s.calls[c].pc == Body([]) && s.cur < |s.answers|
    ensures var body := s.answers[s.cur].body;
      Holds(s.input, s.pos, body) && s.pos + |body| == Start(s.answers, s.cur + 1)
  {
    hide FrameOf, Holds, Start, Tables, Token, Matching;
    assert CallOk(s, s.calls[c]);
    StartNext(s.answers, s.cur);
    BodyHeld(s, s.answers[s.cur], s.cur);
  }

  /** End to end, in every run: a call about to read its body is at the body of the frame that
      answers it. Receiving ends at the next frame and returns what the format makes of that body
      alone, whatever else is in the stream, if its fields are contained in it. */
  lemma EndToEnd(run: seq<Action>, c: nat, request: nat, unix: bool, slots: seq<Slot>)
    requires Legal(INIT, run) && c < |Run(INIT, run).calls| && Run(INIT, run).calls[c].pc == Body([])
    ensures var s := Run(INIT, run);
      && s.cur < |s.answers| && s.answers[s.cur].owner == c && s.answers[s.cur].tag == s.calls[c].tag
      && s.answers[s.cur].kind == s.calls[c].kind
      && s.pos + |s.answers[s.cur].body| == Start(s.answers, s.cur + 1)
      && ReceivedAsAlone(s.input, s.pos, s.answers[s.cur], request, unix, slots)
  {
    hide Legal, Run, FrameOf, Holds, Receive, Straddles, EffectiveSlots, Start, Tables, Token, Stream, Matching, Calls;
    InitInv();
    RunKeepsInv(INIT, run);
    var s := Run(INIT, run);
    ReplyIsOwn(s, c);
    AtOwnBody(s, c);
    var answer := s.answers[s.cur];
    OwnBodyAlone(answer.kind, request, unix, slots, s.input, s.pos, answer.body);
  }

  /** What the server answered to a call. */
  predicate Replied(s: State, c: nat, kind: nat, body: seq<Byte>) {
    && c < |s.calls| && s.calls[c].reply.Some? && s.calls[c].reply.value < |s.answers|
    && s.answers[s.calls[c].reply.value].kind == kind && s.answers[s.calls[c].reply.value].body == body
  }

  /** In every run, a call about to read its body gets the values that the server put in its reply. */
  lemma AnswerArrives(run: seq<Action>, c: nat, request: nat, unix: bool, slots: seq<Slot>, items: seq<Item>)
    requires Legal(INIT, run) && c < |Run(INIT, run).calls| && Run(INIT, run).calls[c].pc == Body([])
    requires Replied(Run(INIT, run), c, request + 1, Encode(items)) && Matches(slots, Spread(items))
    ensures var s := Run(INIT, run); var limit := s.pos + |Encode(items)|;
      && s.cur < |s.answers| && limit == Start(s.answers, s.cur + 1)
      && Receive(s.calls[c].kind, request, unix, slots, s.input, s.pos, limit)
           == Outcome(Ok, ValsOf(Spread(items)), limit)
  {
    hide Legal, Run, FrameOf, Holds, Receive, Start, Tables, Token, Stream, Matching, Calls, Encode, Matches, Spread;
    InitInv();
    RunKeepsInv(INIT, run);
    var s := Run(INIT, run);
    ReplyIsOwn(s, c);
    AtOwnBody(s, c);
    RoundTrip(slots, items, request, unix, s.input, s.pos);
  }

  /** And one that the server refuses by an Rlerror fails with the number that the server gave. */
  lemma RefusalArrives(run: seq<Action>, c: nat, request: nat, unix: bool, slots: seq<Slot>, n: nat)
    requires Legal(INIT, run) && c < |Run(INIT, run).calls| && Run(INIT, run).calls[c].pc == Body([])
    requires Replied(Run(INIT, run), c, 7, Encode([U32(n)])) && n < TWO_32 && request + 1 != 7
    ensures var s := Run(INIT, run); var limit := s.pos + |Encode([U32(n)])|;
      && s.cur < |s.answers| && limit == Start(s.answers, s.cur + 1)
      && Receive(s.calls[c].kind, request, unix, slots, s.input, s.pos, limit) == Outcome(ServerErrno(n), [], limit)
  {
    hide Legal, Run, FrameOf, Holds, Receive, Start, Tables, Token, Stream, Matching, Calls, Encode;
    InitInv();
    RunKeepsInv(INIT, run);
    var s := Run(INIT, run);
    ReplyIsOwn(s, c);
    AtOwnBody(s, c);
    HeldWithin(s.input, s.pos, Encode([U32(n)]));
    NumberedError(n, request, unix, slots, s.input, s.pos, s.pos + |Encode([U32(n)])|);
  }

  // Two calls; the first one's reply has one byte where its format wants an 8-byte number, and
  // the second one's reply is an empty message, right behind it.

  lemma BothServed() returns (run: seq<Action>)
    ensures Legal(INIT, run)
    ensures var s := Run(INIT, run);
      && s.calls == [Call(Header([]), 0xFFFF, 0, 0, Some(0)), Call(Ready, 0, 0, 0, Some(1))]
      && s.table == map[0xFFFF := 0, 0 := 1] && s.reading && s.pos == 0 && s.cur == 0
      && s.answers == [Answer(0, 0xFFFF, 101, [7]), Answer(1, 0, 101, [])] && |s.input| == 15
  {
    hide Legal, Run, FrameOf;
    run := [];
    EmptyRun();
    Extend(INIT, run, Register);
    run := run + [Register];
    Extend(INIT, run, Register);
    run := run + [Register];
    Extend(INIT, run, Send(0));
    run := run + [Send(0)];
    Extend(INIT, run, Send(1));
    run := run + [Send(1)];
    Extend(INIT, run, Serve(0, 101, [7]));
    run := run + [Serve(0, 101, [7])];
    Extend(INIT, run, Serve(1, 101, []));
    run := run + [Serve(1, 101, [])];
    Extend(INIT, run, Enter(0));
    run := run + [Enter(0)];
  }

  lemma FirstHasHeader() returns (run: seq<Action>)
    ensures Legal(INIT, run)
    ensures var s := Run(INIT, run);
      && |s.calls| == 2 && s.calls[0].pc.Header? && |s.calls[0].pc.got| == HEADER_SIZE
      && s.calls[0].tag == 0xFFFF && s.calls[0].reply == Some(0) && s.calls[1] == Call(Ready, 0, 0, 0, Some(1))
      && s.table == map[0xFFFF := 0, 0 := 1] && s.pos == HEADER_SIZE && s.cur == 0
      && s.answers == [Answer(0, 0xFFFF, 101, [7]), Answer(1, 0, 101, [])] && |s.input| == HEADER_SIZE + 8
  {
    hide Legal, Run, FrameOf, HeaderTag, HeaderSize;
    run := BothServed();
    Extend(INIT, run, ReadHeader(0));
    run := run + [ReadHeader(0)];
    Extend(INIT, run, ReadHeader(0));
    run := run + [ReadHeader(0)];
    Extend(INIT, run, ReadHeader(0));
    run := run + [ReadHeader(0)];
  }

  predicate AtFirstBody(s: State) {
    && |s.calls| == 2 && s.calls[0].pc == Body([]) && s.calls[0].size == HEADER_SIZE + 1
    && s.calls[0].reply == Some(0) && s.calls[1] == Call(Ready, 0, 0, 0, Some(1))
    && s.table == map[0 := 1] && s.pos == HEADER_SIZE && |s.input| == HEADER_SIZE + 8
  }

  lemma FirstAtBody() returns (run: seq<Action>)
    ensures Legal(INIT, run) && AtFirstBody(Run(INIT, run))
  {
    hide Legal, Run, FrameOf, HeaderTag, HeaderSize, Tables, Token, Stream, Matching, Calls, Start;
    run := FirstHasHeader();
    InitInv();
    RunKeepsInv(INIT, run);
    HeaderRead(Run(INIT, run), 0);
    HeaderFindsOwner(Run(INIT, run), 0);
    Extend(INIT, run, Dispatch(0));
    run := run + [Dispatch(0)];
    assert map[0xFFFF := 0, 0 := 1] - {0xFFFF} == map[0 := 1 as nat];
  }

  /** The first call's 8-byte field begins in its frame, and may be read as a whole; then it gives
      the token back, the second call takes it, all replies are in, and nothing more can happen. */
  ghost predicate SecondStarves(s: State) {
    && s.pos + 1 <= |s.input| && Straddles([S8], s.input, s.pos, s.pos + 1)
    && Enabled(s, ReadBody(0, 8))
    && (var t := Apply(s, ReadBody(0, 8));
        && Enabled(t, Release(0, 0))
        && (var u := Apply(t, Release(0, 0));
            && Enabled(u, Enter(1))
            && (var v := Apply(u, Enter(1));
                && AllAnswered(v) && |v.calls| == 2 && v.calls[1].pc == Header([])
                && forall a :: Internal(a) ==> !Enabled(v, a))))
  }

  /** Where the field begins. */
  lemma FieldStraddles(input: seq<Byte>, at: nat)
    requires at + 8 <= |input|
    ensures Straddles([S8], input, at, at + 1)
  {
  }

  lemma Starved(s: State)
    requires |s.calls| == 2 && s.calls[0].pc.Done? && s.calls[1].pc == Header([]) && s.pos == |s.input|
    ensures forall a :: Internal(a) ==> !Enabled(s, a)
  {
  }

  lemma SecondLeft(s: State)
    requires AtFirstBody(s)
    ensures SecondStarves(s)
  {
    hide Straddles, FrameOf, Internal, HeaderTag, HeaderSize;
    FieldStraddles(s.input, s.pos);
    var t := Apply(s, ReadBody(0, 8));
    var u := Apply(t, Release(0, 0));
    Starved(Apply(u, Enter(1)));
  }

  /** A straddling field breaks delivery to another call. */
  lemma StraddleBreaksDelivery() returns (run: seq<Action>)
    ensures Legal(INIT, run) && SecondStarves(Run(INIT, run))
  {
    hide Legal, Run, AtFirstBody, SecondStarves;
    run := FirstAtBody();
    SecondLeft(Run(INIT, run));
  }

  // As many calls as there are tags, all waiting; the first one's reply is in; and one call more.

  /** The tag of the k-th call. */
  function TagOf(k: nat): nat {
    if k == 0 then 0xFFFF else k - 1
  }

  /** The first k calls are registered and nothing else has happened. */
  predicate FreshCalls(s: State, k: nat) {
    && |s.calls| == k
    && (forall c :: 0 <= c < k ==> s.calls[c] == Call(Sending, TagOf(c), 0, 0, None))
    && (forall t :: t in s.table ==> s.table[t] < k && TagOf(s.table[t]) == t)
    && (forall c :: 0 <= c < k ==> TagOf(c) in s.table && s.table[TagOf(c)] == c)
    && s.nextTag == TagOf(k) && !s.reading && s.input == [] && s.pos == 0 && s.answers == [] && s.cur == 0
  }

  lemma OneMoreCall(s: State, k: nat)
    requires FreshCalls(s, k) && k < TAGS
    ensures Enabled(s, Register) && Orderly(s, Register) && FreshCalls(Apply(s, Register), k + 1)
  {
    if s.nextTag in s.table { assert false; }
    var t := Apply(s, Register);
    assert t.table[TagOf(k)] == k;
  }

  lemma NoCalls()
    ensures FreshCalls(INIT, 0)
  {
  }

  lemma {:induction false} RegisterMany(k: nat) returns (run: seq<Action>)
    requires k <= TAGS
    ensures Legal(INIT, run) && FreshCalls(Run(INIT, run), k)
    decreases k
  {
    hide Legal, Run, FreshCalls, Enabled, Orderly, Apply;
    if k == 0 {
      run := [];
      EmptyRun();
      NoCalls();
    } else {
      run := RegisterMany(k - 1);
      OneMoreCall(Run(INIT, run), k - 1);
      Extend(INIT, run, Register);
      run := run + [Register];
    }
  }

  /** All tags are in use, and the reply to the first of n calls, one byte, is in. */
  predicate FirstAnswered(s: State, n: nat) {
    && n > 1 && |s.calls| == n && s.calls[0] == Call(Ready, 0xFFFF, 0, 0, Some(0))
    && s.nextTag == 0xFFFF && 0xFFFF in s.table && s.table[0xFFFF] == 0
    && (forall t :: t in s.table ==> s.table[t] < n) && 0 in s.table
    && !s.reading && s.pos == 0 && s.cur == 0
    && s.answers == [Answer(0, 0xFFFF, 101, [7])] && s.input == FrameOf(s.answers[0])
  }

  lemma AllTagsInUse(n: nat) returns (run: seq<Action>)
    requires n == TAGS
    ensures Legal(INIT, run) && FirstAnswered(Run(INIT, run), n)
  {
    hide Legal, Run, FrameOf;
    run := RegisterMany(n);
    var s := Run(INIT, run);
    assert s.calls[0] == Call(Sending, TagOf(0), 0, 0, None) && TagOf(1) in s.table;
    Extend(INIT, run, Send(0));
    run := run + [Send(0)];
    Extend(INIT, run, Serve(0, 101, [7]));
    run := run + [Serve(0, 101, [7])];
    assert [] + FrameOf(Answer(0, 0xFFFF, 101, [7])) == FrameOf(Answer(0, 0xFFFF, 101, [7]));
  }

  /** What can happen, orderly or not. */
  predicate Possible(s: State, run: seq<Action>)
    decreases |run|
  {
    run == [] || (Enabled(s, run[0]) && Possible(Apply(s, run[0]), run[1..]))
  }

  function After(s: State, run: seq<Action>): State
    requires Possible(s, run)
    decreases |run|
  {
    if run == [] then s else After(Apply(s, run[0]), run[1..])
  }

  lemma {:induction false} Proceed(s: State, run: seq<Action>, a: Action)
    requires Possible(s, run) && Enabled(After(s, run), a)
    ensures Possible(s, run + [a]) && After(s, run + [a]) == Apply(After(s, run), a)
    decreases |run|
  {
    hide Enabled, Apply;
    if run == [] {
      assert [] + [a] == [a];
      OneTail(a);
      assert After(Apply(s, a), []) == Apply(s, a);
      assert After(s, [a]) == After(Apply(s, a), []);
    } else {
      DropHead(run, [a]);
      Proceed(Apply(s, run[0]), run[1..], a);
    }
  }

  lemma NothingYet(s: State)
    ensures Possible(s, []) && After(s, []) == s
  {
  }

  /** The n-th call has the first one's tag, and is about to read a header. */
  predicate HasOldTag(s: State, n: nat) {
    && n > 1 && |s.calls| == n + 1 && s.calls[0] == Call(Ready, 0xFFFF, 0, 0, Some(0))
    && s.calls[n].pc == Header([]) && s.calls[n].tag == 0xFFFF && s.calls[n].reply.None? && s.pos == 0
    && 0 in s.table && (forall t :: t in s.table ==> s.table[t] <= n)
    && s.answers == [Answer(0, 0xFFFF, 101, [7])] && s.input == FrameOf(s.answers[0])
  }

  lemma TakesOldTag(s: State, n: nat) returns (rest: seq<Action>)
    requires FirstAnswered(s, n)
    ensures Possible(s, rest) && HasOldTag(After(s, rest), n) && rest != [] && rest[0] == Register
    ensures !Orderly(s, Register)
  {
    hide Possible, After, FrameOf;
    rest := [];
    NothingYet(s);
    Proceed(s, rest, Register);
    rest := rest + [Register];
    Proceed(s, rest, Send(n));
    rest := rest + [Send(n)];
    Proceed(s, rest, Enter(n));
    rest := rest + [Enter(n)];
  }

  /** It has read the first one's header. */
  predicate HasOldHeader(s: State, n: nat) {
    && n > 1 && |s.calls| == n + 1 && s.calls[0] == Call(Ready, 0xFFFF, 0, 0, Some(0))
    && s.calls[n].pc.Header? && |s.calls[n].pc.got| == HEADER_SIZE && s.calls[n].pc.got <= s.input
    && s.calls[n].tag == 0xFFFF && s.calls[n].reply.None? && s.pos == HEADER_SIZE
    && 0 in s.table && (forall t :: t in s.table ==> s.table[t] <= n)
    && s.answers == [Answer(0, 0xFFFF, 101, [7])] && s.input == FrameOf(s.answers[0])
  }

  lemma TakesOldHeader(s: State, n: nat) returns (rest: seq<Action>)
    requires HasOldTag(s, n)
    ensures Possible(s, rest) && HasOldHeader(After(s, rest), n)
  {
    hide Possible, After, FrameOf;
    BodyOfFrame(s.answers[0]);
    rest := [];
    NothingYet(s);
    Proceed(s, rest, ReadHeader(n));
    rest := rest + [ReadHeader(n)];
    Proceed(s, rest, ReadHeader(n));
    rest := rest + [ReadHeader(n)];
    Proceed(s, rest, ReadHeader(n));
    rest := rest + [ReadHeader(n)];
  }

  /** The n-th call has finished with the reply to the first, which no frame can reach any more;
      no frame answers the n-th call. */
  predicate Misdelivered(s: State, n: nat) {
    && n < |s.calls| && s.calls[n].pc == Done([7]) && s.calls[n].reply.None?
    && s.answers == [Answer(0, 0xFFFF, 101, [7])] && s.pos == |s.input| && !s.reading
    && s.calls[0] == Call(Ready, 0xFFFF, 0, 0, Some(0)) && 0xFFFF !in s.table
  }

  lemma OldHeaderDecodes(s: State, n: nat)
    requires HasOldHeader(s, n)
    ensures HeaderTag(s.calls[n].pc.got) == 0xFFFF && HeaderSize(s.calls[n].pc.got) == HEADER_SIZE + 1
    ensures |s.input| == HEADER_SIZE + 1 && s.input[HEADER_SIZE..] == [7]
  {
    hide HeaderTag, HeaderSize;
    BodyOfFrame(s.answers[0]);
    hide FrameOf;
    HeaderDecodes(s.answers[0], s.calls[n].pc.got);
  }

  lemma ReadsOldBody(s: State, n: nat) returns (rest: seq<Action>)
    requires HasOldHeader(s, n)
    ensures Possible(s, rest) && Misdelivered(After(s, rest), n)
  {
    hide Possible, After, FrameOf, HeaderTag, HeaderSize;
    OldHeaderDecodes(s, n);
    rest := [];
    NothingYet(s);
    Proceed(s, rest, Dispatch(n));
    rest := rest + [Dispatch(n)];
    Proceed(s, rest, ReadBody(n, 1));
    rest := rest + [ReadBody(n, 1)];
    Proceed(s, rest, Release(n, 0));
    rest := rest + [Release(n, 0)];
  }

  lemma {:induction false} Joined(s: State, a: seq<Action>, b: seq<Action>)
    requires Possible(s, a) && Possible(After(s, a), b)
    ensures Possible(s, a + b) && After(s, a + b) == After(After(s, a), b)
    decreases |a|
  {
    hide Enabled, Apply;
    if a == [] {
      assert [] + b == b;
    } else {
      DropHead(a, b);
      Joined(Apply(s, a[0]), a[1..], b);
    }
  }

  /** Reusing a tag breaks delivery: after an orderly run with as many calls as there are tags, one
      more call, by steps that are all possible, finishes with the reply to another. */
  lemma TagReuseBreaksDelivery(n: nat) returns (run: seq<Action>, rest: seq<Action>)
    requires n == TAGS
    ensures Legal(INIT, run) && Possible(Run(INIT, run), rest) && Misdelivered(After(Run(INIT, run), rest), n)
    ensures rest != [] && rest[0] == Register && !Orderly(Run(INIT, run), Register)
  {
    hide Legal, Run, Possible, After, FirstAnswered, HasOldTag, HasOldHeader, Misdelivered, Orderly;
    run := AllTagsInUse(n);
    var s := Run(INIT, run);
    var tag := TakesOldTag(s, n);
    var header := TakesOldHeader(After(s, tag), n);
    var body := ReadsOldBody(After(After(s, tag), header), n);
    Joined(s, tag, header);
    Joined(s, tag + header, body);
    rest := tag + header + body;
  }
}
