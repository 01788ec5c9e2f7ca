// Progress of the demultiplexer: no unfinished state is stuck, and once every reply is in the
// stream a run is as short as the bytes left to read, give or take spurious wakeups.
module DemuxProgress {
  import opened Bytes
  import opened Wire
  import opened Demux
  import opened DemuxSafety
  import opened DemuxTheorems

  /** Actions of the program's own threads after their request is sent. */
  predicate Internal(a: Action) {
    a.Enter? || a.ReadHeader? || a.Dispatch? || a.ReadBody? || a.Release?
  }

  /** Every request was sent and its reply is in the stream. */
  predicate AllAnswered(s: State) {
    forall c :: 0 <= c < |s.calls| ==> !s.calls[c].pc.Sending? && s.calls[c].reply.Some?
  }

  predicate Finished(s: State) {
    forall c :: 0 <= c < |s.calls| ==> s.calls[c].pc.Done?
  }

  lemma HeaderBytesThere(s: State, c: nat)
    requires Inv(s) && c < |s.calls| && s.calls[c].pc.Header? && |s.calls[c].pc.got| < HEADER_SIZE
    requires s.calls[c].reply.Some?
    ensures s.pos + NextPart(|s.calls[c].pc.got|) <= |s.input|
  {
    hide FrameOf, Start, Holds, Tables, Token;
    assert CallOk(s, s.calls[c]);
    assert s.cur < |s.answers|;
    StartMonotone(s.answers, s.cur, |s.answers|);
  }

  lemma BodyBytesThere(s: State, c: nat)
    requires Inv(s) && c < |s.calls| && s.calls[c].pc.Body?
    ensures HEADER_SIZE + |s.calls[c].pc.got| <= s.calls[c].size
    ensures s.pos + (s.calls[c].size - HEADER_SIZE - |s.calls[c].pc.got|) <= |s.input|
  {
    hide FrameOf, Start, Holds, Tables, Token;
    assert CallOk(s, s.calls[c]);
    StartMonotone(s.answers, s.cur, |s.answers|);
  }

  lemma HeaderShort(s: State, c: nat)
    requires Calls(s) && c < |s.calls| && s.calls[c].pc.Header?
    ensures |s.calls[c].pc.got| <= HEADER_SIZE
  {
    hide FrameOf, Start;
    assert CallOk(s, s.calls[c]);
  }

  /** The step the holder of the token can take. */
  lemma HolderStep(s: State, h: nat) returns (a: Action)
    requires Inv(s) && h < |s.calls| && Holder(s.calls[h])
    ensures Enabled(s, a) && Orderly(s, a)
    ensures Internal(a) || (a.Serve? && s.calls[h].reply.None?)
  {
    hide FrameOf, Start, Holds, Matching, Stream, Calls, HeaderTag, HeaderSize;
    match s.calls[h].pc
    case Ready => a := Enter(h);
    case Header(got) =>
      if |got| == HEADER_SIZE {
        HeaderFindsOwner(s, h);
        a := Dispatch(h);
      } else if s.calls[h].reply.None? {
        assert HEADER_SIZE + 0 < TWO_32;
        a := Serve(h, 0, []);
      } else {
        HeaderShort(s, h);
        HeaderBytesThere(s, h);
        a := ReadHeader(h);
      }
    case Body(got) =>
      BodyBytesThere(s, h);
      if HEADER_SIZE + |got| == s.calls[h].size {
        var wake: nat := 0;
        if s.table != map[] {
          wake :| wake in s.table;
        }
        a := Release(h, wake);
      } else {
        a := ReadBody(h, 1);
      }
  }

  /** The step somebody can take while the token is free. */
  lemma FreeStep(s: State, c: nat) returns (a: Action)
    requires Inv(s) && SomeoneAwake(s) && NoFailures(s) && !s.reading
    requires c < |s.calls| && !s.calls[c].pc.Done?
    ensures Enabled(s, a) && Orderly(s, a) && (a.Enter? || a.Send?)
    ensures AllAnswered(s) ==> a.Enter?
  {
    hide FrameOf, Start, Holds, Matching, Stream, Calls;
    assert forall d :: 0 <= d < |s.calls| ==> !Holder(s.calls[d]);
    assert s.calls[c].tag in s.table;
    var d :| 0 <= d < |s.calls| && Awake(s.calls[d].pc);
    assert !Holder(s.calls[d]);
    a := if s.calls[d].pc.Sending? then Send(d) else Enter(d);
  }

  /** No deadlock: while a call is unfinished some thread can step, or the server owes a reply. */
  lemma NoDeadlock(run: seq<Action>) returns (a: Action)
    requires Legal(INIT, run) && SendsSucceed(run) && !Finished(Run(INIT, run))
    ensures Enabled(Run(INIT, run), a) && Orderly(Run(INIT, run), a) && (Internal(a) || a.Send? || a.Serve?)
    ensures AllAnswered(Run(INIT, run)) ==> Internal(a)
  {
    hide Legal, Run, Enabled, Orderly, Tables, Stream, Matching, Calls, SomeoneAwake;
    InitInv();
    NoLostWakeup([]);
    EmptyRun();
    RunKeepsWake(INIT, run);
    var s := Run(INIT, run);
    if s.reading {
      var h :| 0 <= h < |s.calls| && Holder(s.calls[h]);
      a := HolderStep(s, h);
    } else {
      var c :| 0 <= c < |s.calls| && !s.calls[c].pc.Done?;
      a := FreeStep(s, c);
    }
  }

  // A measure.

  /** How much a call can still do without reading. */
  function Weight(call: Call): nat {
    match call.pc
    case Sending => 0
    case Failed => 0
    case Asleep => 0
    case Ready => if call.size == 0 then 1 else 3
    case Header(got) => if |got| == HEADER_SIZE then 4 else 0
    case Body(_) => 2
    case Done(_) => 0
  }

  function Sum(calls: seq<Call>, n: nat): nat
    requires n <= |calls|
  {
    if n == 0 then 0 else Sum(calls, n - 1) + Weight(calls[n - 1])
  }

  function Measure(s: State): nat
    requires s.pos <= |s.input|
  {
    5 * (|s.input| - s.pos) + Sum(s.calls, |s.calls|)
  }

  lemma {:induction false} SumUpdate(calls: seq<Call>, c: nat, call: Call, n: nat)
    requires c < |calls| && n <= |calls|
    ensures Sum(calls[c := call], n) == if c < n then Sum(calls, n) - Weight(calls[c]) + Weight(call) else Sum(calls, n)
  {
    hide Weight;
    if n > 0 {
      SumUpdate(calls, c, call, n - 1);
    }
  }

  lemma DispatchLowersMeasure(s: State, c: nat)
    requires s.pos <= |s.input| && Inv(s) && Enabled(s, Dispatch(c))
    ensures var t := Apply(s, Dispatch(c));
      t.pos == s.pos && t.input == s.input && Measure(t) < Measure(s)
  {
    hide FrameOf, Start, Holds, Tables, Token, Stream, Matching, Calls, HeaderTag, HeaderSize, Sum;
    HeaderRead(s, c);
    CurrentOwner(s, c);
    HeaderFindsOwner(s, c);
    var t := Apply(s, Dispatch(c));
    var o, n := s.answers[s.cur].owner, |s.calls|;
    SumUpdate(s.calls, o, t.calls[o], n);
    SumUpdate(s.calls[o := t.calls[o]], c, t.calls[c], n);
    assert t.calls == s.calls[o := t.calls[o]][c := t.calls[c]];
  }

  lemma AsleepUnfilled(s: State, c: nat)
    requires Calls(s) && c < |s.calls|
    ensures s.calls[c].pc.Asleep? ==> s.calls[c].size == 0
  {
    assert CallOk(s, s.calls[c]);
  }

  lemma ReleaseLowersMeasure(s: State, c: nat, wake: nat)
    requires s.pos <= |s.input| && Inv(s) && Enabled(s, Release(c, wake))
    ensures var t := Apply(s, Release(c, wake));
      t.pos == s.pos && t.input == s.input && Measure(t) < Measure(s)
  {
    hide FrameOf, Start, Holds, Token, Stream, Matching, Calls, Sum;
    var t := Apply(s, Release(c, wake));
    var n := |s.calls|;
    SumUpdate(s.calls, c, t.calls[c], n);
    if wake in s.table {
      var o := s.table[wake];
      assert o != c;
      AsleepUnfilled(s, o);
      SumUpdate(s.calls[c := t.calls[c]], o, t.calls[o], n);
    }
  }

  lemma StepLowersMeasure(s: State, a: Action)
    requires s.pos <= |s.input| && Inv(s) && Enabled(s, a) && Internal(a)
    ensures var t := Apply(s, a);
      t.pos <= |t.input| && Measure(t) < Measure(s)
  {
    hide FrameOf, Start, Holds, Tables, Token, Stream, Matching, Calls, HeaderTag, HeaderSize, Sum;
    var t := Apply(s, a);
    var n := |s.calls|;
    match a
    case Enter(c) => SumUpdate(s.calls, c, t.calls[c], n);
    case ReadHeader(c) => HeaderShort(s, c); SumUpdate(s.calls, c, t.calls[c], n);
    case ReadBody(c, k) => SumUpdate(s.calls, c, t.calls[c], n);
    case Dispatch(c) => DispatchLowersMeasure(s, c);
    case Release(c, wake) => ReleaseLowersMeasure(s, c, wake);
  }

  /** A spurious wakeup costs one unit, which the sleep that follows gives back. */
  lemma SpuriousMeasure(s: State, c: nat)
    requires s.pos <= |s.input| && Inv(s) && Enabled(s, Spurious(c))
    ensures var t := Apply(s, Spurious(c));
      t.pos <= |t.input| && Measure(t) == Measure(s) + 1
  {
    hide FrameOf, Start, Holds, Tables, Token, Stream, Matching, Calls, Sum;
    AsleepUnfilled(s, c);
    SumUpdate(s.calls, c, Apply(s, Spurious(c)).calls[c], |s.calls|);
  }

  predicate Settled(run: seq<Action>) {
    forall i :: 0 <= i < |run| ==> Internal(run[i]) || run[i].Spurious?
  }

  function Spurs(run: seq<Action>): nat {
    if run == [] then 0 else (if run[0].Spurious? then 1 else 0) + Spurs(run[1..])
  }

  /** From any good state, a run in which no new request or reply appears has at most
      5 steps per unread byte and a few per call, plus two per spurious wakeup. */
  lemma {:induction false} RunIsBounded(s: State, run: seq<Action>)
    requires s.pos <= |s.input| && Inv(s) && Legal(s, run) && Settled(run)
    ensures |run| <= Measure(s) + 2 * Spurs(run)
    decreases |run|
  {
    hide Inv, Enabled, Apply, Orderly, Measure;
    if run != [] {
      var t := Apply(s, run[0]);
      StepKeepsInv(s, run[0]);
      assert Internal(run[0]) || run[0].Spurious?;
      assert Orderly(s, run[0]);
      if Internal(run[0]) {
        StepLowersMeasure(s, run[0]);
      } else {
        SpuriousMeasure(s, run[0].c);
      }
      RunIsBounded(t, run[1..]);
    }
  }

  /** A run that has every reply in the stream and cannot go on has finished every call. */
  lemma MaximalRunFinishes(run: seq<Action>)
    requires Legal(INIT, run) && SendsSucceed(run) && AllAnswered(Run(INIT, run))
    requires forall a :: Internal(a) && Orderly(Run(INIT, run), a) ==> !Enabled(Run(INIT, run), a)
    ensures Finished(Run(INIT, run))
  {
    hide Legal, Run, Enabled;
    if !Finished(Run(INIT, run)) {
      var a := NoDeadlock(run);
      assert false;
    }
  }
}
