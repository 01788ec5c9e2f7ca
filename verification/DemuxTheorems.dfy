// What the demultiplexer promises, over every run: delivery, a tiling of the input stream by
// the right readers, one token, no lost wakeup, and progress.
module DemuxTheorems {
  import opened Bytes
  import opened Wire
  import opened Demux
  import opened DemuxSafety

  // Delivery and the token.

  /** Every finished call got the body and the type of the one frame that answers it, which
      carries its own tag. */
  lemma Delivery(run: seq<Action>, c: nat)
    requires Legal(INIT, run) && c < |Run(INIT, run).calls| && Run(INIT, run).calls[c].pc.Done?
    ensures var s := Run(INIT, run);
      exists i :: 0 <= i < |s.answers| && s.answers[i].owner == c
        && s.answers[i].tag == s.calls[c].tag
        && s.answers[i].body == s.calls[c].pc.body && s.answers[i].kind == s.calls[c].kind
        && forall j :: 0 <= j < |s.answers| && s.answers[j].owner == c ==> j == i
  {
    hide FrameOf, Holds, Start;
    InitInv();
    RunKeepsInv(INIT, run);
    var s := Run(INIT, run);
    assert CallOk(s, s.calls[c]);
    var i := s.calls[c].reply.value;
    assert s.answers[i].owner == c;
  }

  /** The token is set exactly when there is one call that is reading a header, reading a body
      or has been handed a header; there are never two. */
  lemma TokenExclusive(run: seq<Action>)
    requires Legal(INIT, run)
    ensures var s := Run(INIT, run);
      && (s.reading <==> exists c :: 0 <= c < |s.calls| && Holder(s.calls[c]))
      && forall c, d :: 0 <= c < |s.calls| && 0 <= d < |s.calls| && Holder(s.calls[c]) && Holder(s.calls[d]) ==> c == d
  {
    InitInv();
    RunKeepsInv(INIT, run);
  }

  /** The program's assertions never fail: a call that finds its size filled in finds the token
      set, and a whole header always names a registered call. */
  lemma AssertionsHold(run: seq<Action>, c: nat)
    requires Legal(INIT, run) && c < |Run(INIT, run).calls|
    ensures var s := Run(INIT, run);
      && (s.calls[c].pc.Ready? ==> Enabled(s, Enter(c)))
      && (s.calls[c].pc.Header? && |s.calls[c].pc.got| == HEADER_SIZE ==> Enabled(s, Dispatch(c)))
  {
    hide FrameOf, Holds, Start, Tables, Stream, Matching, Calls;
    InitInv();
    RunKeepsInv(INIT, run);
    var s := Run(INIT, run);
    if s.calls[c].pc.Header? && |s.calls[c].pc.got| == HEADER_SIZE {
      HeaderFindsOwner(s, c);
    }
    if s.calls[c].pc.Ready? && s.calls[c].size != 0 {
      assert Holder(s.calls[c]);
    }
  }

  // Tiling: `readers` has one entry per byte of the stream read so far.

  predicate All(rs: seq<nat>, a: nat, b: nat, c: nat) {
    b <= |rs| && forall p :: a <= p < b ==> rs[p] == c
  }

  /** Frame i was read by one call up to its body, and its body by the call it answers. */
  predicate FrameReadBy(s: State, i: nat)
    requires i < |s.answers|
  {
    && Start(s.answers, i) + HEADER_SIZE <= |s.readers|
    && All(s.readers, Start(s.answers, i), Start(s.answers, i) + HEADER_SIZE, s.readers[Start(s.answers, i)])
    && All(s.readers, Start(s.answers, i) + HEADER_SIZE, Start(s.answers, i + 1), s.answers[i].owner)
  }

  predicate CurrentReadBy(s: State, c: nat)
    requires c < |s.calls| && s.cur <= |s.answers|
  {
    var at := Start(s.answers, s.cur);
    if s.calls[c].pc.Header? then All(s.readers, at, s.pos, c)
    else
      && at + HEADER_SIZE <= |s.readers|
      && All(s.readers, at, at + HEADER_SIZE, s.readers[at])
      && All(s.readers, at + HEADER_SIZE, s.pos, c)
  }

  predicate Tiled(s: State)
    requires s.cur <= |s.answers|
  {
    && |s.readers| == s.pos
    && (forall i :: 0 <= i < s.cur ==> FrameReadBy(s, i))
    && (forall c :: 0 <= c < |s.calls| && Holder(s.calls[c]) ==> CurrentReadBy(s, c))
  }

  /** Reading on leaves what earlier frames show. */
  lemma FrameReadByFrame(s: State, t: State, i: nat)
    requires i < |s.answers| && s.answers <= t.answers && s.readers <= t.readers && FrameReadBy(s, i)
    ensures FrameReadBy(t, i)
  {
    hide Start;
    StartPrefix(s.answers, t.answers, i);
    StartPrefix(s.answers, t.answers, i + 1);
  }

  lemma AllConsumed(rs: seq<nat>, a: nat, c: nat, n: nat)
    requires All(rs, a, |rs|, c)
    ensures All(rs + seq(n, _ => c), a, |rs| + n, c)
  {
  }

  /** Steps that read nothing and finish nothing keep the tiling, if the holders after the
      step account for the same bytes. */
  lemma TiledFrame(s: State, t: State)
    requires Inv(s) && Tiled(s) && Inv(t)
    requires t.cur == s.cur && t.pos == s.pos && t.readers == s.readers && s.answers <= t.answers
    requires forall c :: 0 <= c < |t.calls| && Holder(t.calls[c]) ==> CurrentReadBy(t, c)
    ensures Tiled(t)
  {
    hide FrameReadBy, CurrentReadBy, Tables, Matching, Calls, Token;
    forall i | 0 <= i < t.cur ensures FrameReadBy(t, i) {
      FrameReadByFrame(s, t, i);
    }
  }

  /** The same holder with the same kind of claim. */
  lemma SameClaim(s: State, t: State, c: nat)
    requires c < |s.calls| && c < |t.calls| && s.cur <= |s.answers| && t.cur == s.cur && s.answers <= t.answers
    requires t.pos == s.pos && t.readers == s.readers
    requires s.calls[c].pc.Header? <==> t.calls[c].pc.Header?
    requires CurrentReadBy(s, c)
    ensures CurrentReadBy(t, c)
  {
    hide Start;
    StartPrefix(s.answers, t.answers, s.cur);
  }

  lemma QuietTiled(s: State, a: Action)
    requires Inv(s) && Tiled(s) && Enabled(s, a) && Inv(Apply(s, a))
    requires a.Register? || a.Send? || a.SendFails? || a.Serve? || a.Spurious?
    ensures Tiled(Apply(s, a))
  {
    hide CurrentReadBy, FrameReadBy, FrameOf, Start, Tables, Matching, Stream, AtBody, AtHeader;
    var t := Apply(s, a);
    forall c | 0 <= c < |t.calls| && Holder(t.calls[c]) ensures CurrentReadBy(t, c) {
      if c < |s.calls| {
        assert CallOk(s, s.calls[c]);
        assert Holder(s.calls[c]);
        SameClaim(s, t, c);
      }
    }
    TiledFrame(s, t);
  }

  lemma EnterTiled(s: State, c: nat)
    requires Inv(s) && Tiled(s) && Enabled(s, Enter(c)) && Inv(Apply(s, Enter(c)))
    ensures Tiled(Apply(s, Enter(c)))
  {
    hide FrameReadBy, FrameOf, Start, Tables, Matching, AtBody, AtHeader;
    var t := Apply(s, Enter(c));
    forall d | 0 <= d < |t.calls| && Holder(t.calls[d]) ensures CurrentReadBy(t, d) {
      if d == c && !s.reading {
        assert s.pos == Start(s.answers, s.cur);
      } else {
        assert Holder(s.calls[d]);
        SameClaim(s, t, d);
      }
    }
    TiledFrame(s, t);
  }

  lemma DispatchTiled(s: State, c: nat)
    requires Inv(s) && Tiled(s) && Enabled(s, Dispatch(c)) && Inv(Apply(s, Dispatch(c)))
    ensures Tiled(Apply(s, Dispatch(c)))
  {
    hide FrameReadBy, FrameOf, Start, Tables, Matching, Stream, HeaderTag, HeaderSize;
    var t := Apply(s, Dispatch(c));
    assert CallOk(s, s.calls[c]);
    assert Holder(s.calls[c]);
    OthersNotHolders(s, c);
    HeaderRead(s, c);
    CurrentOwner(s, c);
    HeaderFindsOwner(s, c);
    assert CurrentReadBy(s, c);
    forall d | 0 <= d < |t.calls| && Holder(t.calls[d]) ensures CurrentReadBy(t, d) {
      assert CallOk(t, t.calls[d]);
    }
    TiledFrame(s, t);
  }

  lemma ReadTiled(s: State, a: Action, c: nat, n: nat)
    requires c < |s.calls|
    requires (a == ReadHeader(c) && s.calls[c].pc.Header? && n == NextPart(|s.calls[c].pc.got|)) || a == ReadBody(c, n)
    requires Enabled(s, a)
    requires Inv(s) && Tiled(s) && Inv(Apply(s, a))
    ensures Tiled(Apply(s, a))
  {
    hide FrameReadBy, FrameOf, Start, Tables, Matching, Stream, AtHeader;
    var t := Apply(s, a);
    assert Holder(s.calls[c]);
    OthersNotHolders(s, c);
    var at := Start(s.answers, s.cur);
    assert CurrentReadBy(s, c);
    assert CallOk(s, s.calls[c]);
    if a.ReadHeader? {
      AllConsumed(s.readers, at, c, n);
    } else {
      AllConsumed(s.readers, at + HEADER_SIZE, c, n);
    }
    assert forall d :: 0 <= d < |s.calls| && d != c ==> t.calls[d] == s.calls[d];
    assert CurrentReadBy(t, c);
    forall i | 0 <= i < t.cur ensures FrameReadBy(t, i) {
      FrameReadByFrame(s, t, i);
    }
  }

  lemma ReleaseTiled(s: State, c: nat, wake: nat)
    requires Inv(s) && Tiled(s) && Enabled(s, Release(c, wake)) && Inv(Apply(s, Release(c, wake)))
    ensures Tiled(Apply(s, Release(c, wake)))
  {
    hide FrameOf, Start, Tables, Stream;
    var t := Apply(s, Release(c, wake));
    assert CallOk(s, s.calls[c]);
    assert Holder(s.calls[c]);
    assert CurrentReadBy(s, c);
    StartNext(s.answers, s.cur);
    assert s.answers[s.cur].owner == c;
    assert FrameReadBy(t, s.cur);
    forall i | 0 <= i < t.cur ensures FrameReadBy(t, i) {
      if i < s.cur {
        FrameReadByFrame(s, t, i);
      }
    }
    assert !t.reading;
  }

  lemma StepKeepsTiled(s: State, a: Action)
    requires Inv(s) && Tiled(s) && Enabled(s, a) && Inv(Apply(s, a))
    ensures Tiled(Apply(s, a))
  {
    hide Inv, Tiled, Apply;
    match a
    case Enter(c) => EnterTiled(s, c);
    case ReadHeader(c) => ReadTiled(s, a, c, NextPart(|s.calls[c].pc.got|));
    case Dispatch(c) => DispatchTiled(s, c);
    case ReadBody(c, n) => ReadTiled(s, a, c, n);
    case Release(c, wake) => ReleaseTiled(s, c, wake);
    case _ => QuietTiled(s, a);
  }

  lemma {:induction false} RunKeepsTiled(s: State, run: seq<Action>)
    requires Inv(s) && Tiled(s) && Legal(s, run)
    ensures Inv(Run(s, run)) && Tiled(Run(s, run))
    decreases |run|
  {
    hide Inv, Tiled, Enabled, Apply, Orderly;
    if run != [] {
      StepKeepsInv(s, run[0]);
      StepKeepsTiled(s, run[0]);
      RunKeepsTiled(Apply(s, run[0]), run[1..]);
    }
  }

  /** The reads of all calls tile the stream: each byte up to the position was read once, the
      position of frame i by one call throughout its header, and by the frame's own call
      throughout its body. */
  lemma ReadsTileStream(run: seq<Action>, i: nat)
    requires Legal(INIT, run) && i < Run(INIT, run).cur
    ensures var s := Run(INIT, run);
      && |s.readers| == s.pos <= |s.input| && i < |s.answers|
      && Start(s.answers, i + 1) <= s.pos
      && s.input[Start(s.answers, i)..Start(s.answers, i + 1)] == FrameOf(s.answers[i])
      && FrameReadBy(s, i)
  {
    hide FrameOf, Start, Tables, Token, Matching, Calls;
    InitInv();
    assert Tiled(INIT);
    RunKeepsTiled(INIT, run);
    var s := Run(INIT, run);
    StartNext(s.answers, i);
    assert FrameReadBy(s, i);
    assert All(s.readers, Start(s.answers, i) + HEADER_SIZE, Start(s.answers, i + 1), s.answers[i].owner);
    assert Holds(s.input, Start(s.answers, i), FrameOf(s.answers[i]));
  }

  // Wakeups.

  predicate Awake(pc: Pc) {
    pc.Sending? || pc.Ready? || pc.Header?
  }

  /** With the token free, some registered call is on its way to the mutex. */
  predicate SomeoneAwake(s: State) {
    !s.reading && s.table != map[] ==> exists c :: 0 <= c < |s.calls| && Awake(s.calls[c].pc)
  }

  predicate NoFailures(s: State) {
    forall c :: 0 <= c < |s.calls| ==> !s.calls[c].pc.Failed?
  }

  lemma NoFailuresKept(s: State, a: Action)
    requires NoFailures(s) && Enabled(s, a) && !a.SendFails?
    ensures NoFailures(Apply(s, a))
  {
    hide HeaderTag, HeaderSize;
  }

  /** A release keeps the others going exactly when the entry it happens to signal is not that
      of a call whose send failed, or nobody needed the signal. */
  lemma ReleaseWakes(s: State, c: nat, wake: nat)
    requires wake in s.table && s.table[wake] < |s.calls|
    requires Enabled(s, Release(c, wake)) && Inv(s)
    ensures SomeoneAwake(Apply(s, Release(c, wake))) <==>
      !s.calls[s.table[wake]].pc.Failed? || exists d :: 0 <= d < |s.calls| && Awake(s.calls[d].pc)
  {
    hide FrameOf, Start, Stream, Matching, Calls;
    var t := Apply(s, Release(c, wake));
    var o := s.table[wake];
    assert Registered(s.calls[o].pc) && o != c;
    assert forall d :: 0 <= d < |s.calls| && d != c && d != o ==> t.calls[d] == s.calls[d];
    if !s.calls[o].pc.Failed? {
      assert Awake(t.calls[o].pc);
    } else if d :| 0 <= d < |s.calls| && Awake(s.calls[d].pc) {
      assert Awake(t.calls[d].pc);
    }
  }

  lemma WakeKept(s: State, a: Action)
    requires Inv(s) && SomeoneAwake(s) && NoFailures(s) && Enabled(s, a) && !a.SendFails?
    ensures SomeoneAwake(Apply(s, a))
  {
    hide FrameOf, Start, Stream, Matching, Calls, HeaderTag, HeaderSize;
    var t := Apply(s, a);
    if a.ReadHeader? || a.ReadBody? || a.Dispatch? {
      assert Holder(s.calls[a.c]);
      assert t.reading;
    } else if !t.reading && t.table != map[] {
      match a
      case Register =>
        assert t.calls[|s.calls|].pc.Sending?;
      case Release(c, wake) => ReleaseWakes(s, c, wake);
      case Spurious(c) =>
        assert t.calls[c].pc.Ready?;
      case Send(c) =>
        assert t.calls[c].pc.Ready?;
      case Serve(c, kind, body) =>
        var d :| 0 <= d < |s.calls| && Awake(s.calls[d].pc);
        assert t.calls[d].pc == s.calls[d].pc;
      case _ =>
    }
  }

  predicate SendsSucceed(run: seq<Action>) {
    forall i :: 0 <= i < |run| ==> !run[i].SendFails?
  }

  lemma {:induction false} RunKeepsWake(s: State, run: seq<Action>)
    requires Inv(s) && SomeoneAwake(s) && NoFailures(s) && Legal(s, run) && SendsSucceed(run)
    ensures Inv(Run(s, run)) && SomeoneAwake(Run(s, run)) && NoFailures(Run(s, run))
    decreases |run|
  {
    hide Inv, SomeoneAwake, NoFailures, Enabled, Apply, Orderly;
    if run != [] {
      StepKeepsInv(s, run[0]);
      WakeKept(s, run[0]);
      NoFailuresKept(s, run[0]);
      RunKeepsWake(Apply(s, run[0]), run[1..]);
    }
  }

  /** While sends succeed no wakeup is lost, although a release signals one arbitrary entry of
      the table, which may not be waiting. */
  lemma NoLostWakeup(run: seq<Action>)
    requires Legal(INIT, run) && SendsSucceed(run)
    ensures SomeoneAwake(Run(INIT, run))
  {
    InitInv();
    RunKeepsWake(INIT, run);
  }

  /** The other way round: a release can signal the entry that a failed send left behind while
      everyone else sleeps. Then no call holds the token, reads, or is on its way to the mutex. */
  lemma FailedSendLosesWakeup(s: State, c: nat, wake: nat)
    requires wake in s.table && s.table[wake] < |s.calls|
    requires Enabled(s, Release(c, wake)) && Inv(s)
    requires s.calls[s.table[wake]].pc.Failed?
    requires forall d :: 0 <= d < |s.calls| ==> !Awake(s.calls[d].pc)
    ensures var t := Apply(s, Release(c, wake));
      && |t.calls| == |s.calls| && !t.reading
      && forall d :: 0 <= d < |t.calls| ==>
           t.calls[d].pc.Asleep? || t.calls[d].pc.Failed? || t.calls[d].pc.Done?
  {
    hide FrameOf, Start, Stream, Matching, Calls;
    assert Holder(s.calls[c]);
    OthersNotHolders(s, c);
  }

  // Such a state is reached by three calls: the first cannot send, the second reads its own
  // reply while the third sleeps.

  lemma {:induction false} Extend(s: State, run: seq<Action>, a: Action)
    requires Legal(s, run) && Enabled(Run(s, run), a) && Orderly(Run(s, run), a)
    ensures Legal(s, run + [a]) && Run(s, run + [a]) == Apply(Run(s, run), a)
    decreases |run|
  {
    hide Enabled, Apply, Orderly;
    if run == [] {
      assert [] + [a] == [a];
      OneTail(a);
      assert Run(Apply(s, a), []) == Apply(s, a);
      assert Run(s, [a]) == Run(Apply(s, a), []);
    } else {
      DropHead(run, [a]);
      Extend(Apply(s, run[0]), run[1..], a);
    }
  }

  lemma EmptyRun()
    ensures Legal(INIT, []) && Run(INIT, []) == INIT
  {
  }

  lemma ThreeCalls() returns (run: seq<Action>)
    ensures Legal(INIT, run)
    ensures var s := Run(INIT, run);
      && s.calls == [Call(Failed, 0xFFFF, 0, 0, None), Call(Header([]), 0, 0, 0, None), Call(Asleep, 1, 0, 0, None)]
      && s.table == map[0xFFFF := 0, 0 := 1, 1 := 2] && s.reading
      && s.input == [] && s.pos == 0 && s.answers == [] && s.cur == 0
  {
    hide Legal, Run;
    run := [];
    EmptyRun();
    Extend(INIT, run, Register);
    run := run + [Register];
    Extend(INIT, run, SendFails(0));
    run := run + [SendFails(0)];
    Extend(INIT, run, Register);
    run := run + [Register];
    Extend(INIT, run, Send(1));
    run := run + [Send(1)];
    Extend(INIT, run, Register);
    run := run + [Register];
    Extend(INIT, run, Send(2));
    run := run + [Send(2)];
    Extend(INIT, run, Enter(1));
    run := run + [Enter(1)];
    Extend(INIT, run, Enter(2));
    run := run + [Enter(2)];
  }

  lemma SecondHasHeader() returns (run: seq<Action>)
    ensures Legal(INIT, run)
    ensures var s := Run(INIT, run);
      && |s.calls| == 3 && s.calls[0].pc.Failed? && s.calls[2].pc.Asleep?
      && s.calls[1].pc.Header? && |s.calls[1].pc.got| == HEADER_SIZE
      && s.table == map[0xFFFF := 0, 0 := 1, 1 := 2] && s.calls[1].tag == 0
      && s.cur == 0 && s.answers == [Answer(1, 0, 101, [])]
  {
    hide Legal, Run, FrameOf, HeaderTag, HeaderSize;
    run := ThreeCalls();
    Extend(INIT, run, Serve(1, 101, []));
    run := run + [Serve(1, 101, [])];
    Extend(INIT, run, ReadHeader(1));
    run := run + [ReadHeader(1)];
    Extend(INIT, run, ReadHeader(1));
    run := run + [ReadHeader(1)];
    Extend(INIT, run, ReadHeader(1));
    run := run + [ReadHeader(1)];
  }

  lemma LostWakeupRun() returns (run: seq<Action>)
    ensures Legal(INIT, run)
    ensures var s := Run(INIT, run);
      && !SomeoneAwake(s) && |s.calls| == 3 && s.calls[2].pc.Asleep?
  {
    hide Legal, Run, FrameOf, HeaderTag, HeaderSize, Tables, Token, Stream, Matching;
    run := SecondHasHeader();
    InitInv();
    RunKeepsInv(INIT, run);
    HeaderRead(Run(INIT, run), 1);
    HeaderFindsOwner(Run(INIT, run), 1);
    Extend(INIT, run, Dispatch(1));
    run := run + [Dispatch(1)];
    Extend(INIT, run, Release(1, 0xFFFF));
    run := run + [Release(1, 0xFFFF)];
  }
}
