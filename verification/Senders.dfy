// Concurrent senders on one output stream. A sender holds the write mutex from its header to
// the end of its body, so whatever the interleaving the stream stays a sequence of whole
// frames, which a reader can cut apart by their size prefixes alone.
module Senders {
  import opened Bytes
  import opened Wire

  datatype Message = Message(kind: Byte, tag: nat, body: seq<Byte>)

  function FrameOf(m: Message): (f: seq<Byte>)
    ensures |f| == HEADER_SIZE + |m.body|
  {
    Frame(m.kind, m.tag, m.body)
  }

  /** The frame's own length fits its 32-bit size field. */
  predicate Representable(m: Message) {
    HEADER_SIZE + |m.body| < TWO_32
  }

  function Flatten(ms: seq<Message>): seq<Byte> {
    if ms == [] then [] else FrameOf(ms[0]) + Flatten(ms[1..])
  }

  function Frames(ms: seq<Message>): seq<seq<Byte>> {
    if ms == [] then [] else [FrameOf(ms[0])] + Frames(ms[1..])
  }

  datatype Deframed = Deframed(frames: seq<seq<Byte>>, rest: seq<Byte>)

  /** A reader that knows nothing but the size prefixes. */
  function Deframe(s: seq<Byte>): Deframed
    decreases |s|
  {
    if |s| < 4 then Deframed([], s)
    else
      var n := LeVal(s[..4]);
      if n < HEADER_SIZE || n > |s| then Deframed([], s)
      else
        var tail := Deframe(s[n..]);
        Deframed([s[..n]] + tail.frames, tail.rest)
  }

  lemma SizePrefix(m: Message, s: seq<Byte>)
    requires Representable(m) && |s| >= 4 && (s <= FrameOf(m) || FrameOf(m) <= s)
    ensures LeVal(s[..4]) == |FrameOf(m)|
  {
    DeclaredSizeIsLength(m.kind, m.tag, m.body);
    assert s[..4] == FrameOf(m)[..4];
  }

  lemma DeframePartial(m: Message, part: seq<Byte>)
    requires Representable(m) && part <= FrameOf(m) && |part| < |FrameOf(m)|
    ensures Deframe(part) == Deframed([], part)
  {
    if |part| >= 4 {
      SizePrefix(m, part);
    }
  }

  /** Whole frames followed by the start of another one are cut exactly at the frame ends. */
  lemma {:induction false} DeframeFlatten(ms: seq<Message>, next: Message, part: seq<Byte>)
    requires forall i :: 0 <= i < |ms| ==> Representable(ms[i])
    requires Representable(next) && part <= FrameOf(next) && |part| < |FrameOf(next)|
    ensures Deframe(Flatten(ms) + part) == Deframed(Frames(ms), part)
  {
    if ms == [] {
      assert [] + part == part;
      DeframePartial(next, part);
    } else {
      var f, tail := FrameOf(ms[0]), Flatten(ms[1..]) + part;
      Assoc(f, Flatten(ms[1..]), part);
      SliceAfter([], f, tail);
      assert [] + f + tail == f + tail;
      SizePrefix(ms[0], f + tail);
      DeframeFlatten(ms[1..], next, part);
    }
  }

  // The write mutex as a transition system. `Put` is any one fwrite of the lock holder.

  datatype Writing = Idle | Busy(m: Message, written: nat)
  datatype State = State(stream: seq<Byte>, lock: Writing, sent: seq<Message>)
  datatype Action = Acquire(m: Message) | Put(n: nat) | Finish

  const INIT := State([], Idle, [])

  predicate Enabled(s: State, a: Action) {
    match a
    case Acquire(m) => s.lock.Idle? && Representable(m)
    case Put(n) => s.lock.Busy? && s.lock.written + n <= |FrameOf(s.lock.m)|
    case Finish => s.lock.Busy? && s.lock.written == |FrameOf(s.lock.m)|
  }

  function Apply(s: State, a: Action): State
    requires Enabled(s, a)
  {
    match a
    case Acquire(m) => s.(lock := Busy(m, 0))
    case Put(n) =>
      var w := s.lock.written;
      s.(stream := s.stream + FrameOf(s.lock.m)[w..w + n], lock := Busy(s.lock.m, w + n))
    case Finish => s.(lock := Idle, sent := s.sent + [s.lock.m])
  }

  predicate Legal(s: State, run: seq<Action>)
    decreases |run|
  {
    run == [] || (Enabled(s, run[0]) && Legal(Apply(s, run[0]), run[1..]))
  }

  function Run(s: State, run: seq<Action>): State
    requires Legal(s, run)
    decreases |run|
  {
    if run == [] then s else Run(Apply(s, run[0]), run[1..])
  }

  function Partial(w: Writing): seq<Byte>
    requires w.Busy? ==> w.written <= |FrameOf(w.m)|
  {
    if w.Idle? then [] else FrameOf(w.m)[..w.written]
  }

  predicate Inv(s: State) {
    && (s.lock.Busy? ==> Representable(s.lock.m) && s.lock.written <= |FrameOf(s.lock.m)|)
    && (forall i :: 0 <= i < |s.sent| ==> Representable(s.sent[i]))
    && s.stream == Flatten(s.sent) + Partial(s.lock)
  }

  lemma {:induction false} FlattenAppend(ms: seq<Message>, m: Message)
    ensures Flatten(ms + [m]) == Flatten(ms) + FrameOf(m)
  {
    if ms == [] {
      assert [] + [m] == [m];
      OneTail(m);
      assert Flatten([m]) == FrameOf(m) + Flatten([]);
    } else {
      DropHead(ms, [m]);
      FlattenAppend(ms[1..], m);
      Assoc(FrameOf(ms[0]), Flatten(ms[1..]), FrameOf(m));
    }
  }

  lemma PrefixGrows(f: seq<Byte>, w: nat, n: nat)
    requires w + n <= |f|
    ensures f[..w] + f[w..w + n] == f[..w + n]
  {
  }

  lemma StepKeepsInv(s: State, a: Action)
    requires Inv(s) && Enabled(s, a)
    ensures Inv(Apply(s, a))
  {
    match a
    case Acquire(m) =>
    case Put(n) =>
      PrefixGrows(FrameOf(s.lock.m), s.lock.written, n);
      Assoc(Flatten(s.sent), Partial(s.lock), FrameOf(s.lock.m)[s.lock.written..s.lock.written + n]);
    case Finish =>
      FlattenAppend(s.sent, s.lock.m);
      TakeAll(FrameOf(s.lock.m));
  }

  lemma {:induction false} RunKeepsInv(s: State, run: seq<Action>)
    requires Inv(s) && Legal(s, run)
    ensures Inv(Run(s, run))
    decreases |run|
  {
    if run != [] {
      StepKeepsInv(s, run[0]);
      RunKeepsInv(Apply(s, run[0]), run[1..]);
    }
  }

  /** A sender that finds the mutex free can send its whole frame, in any two pieces, and only then
      be done. */
  lemma CanSend(s: State, m: Message, n: nat)
    requires s.lock.Idle? && Representable(m) && n <= |FrameOf(m)|
    ensures Enabled(s, Acquire(m)) && Enabled(Apply(s, Acquire(m)), Put(n))
    ensures
      var t := Apply(Apply(s, Acquire(m)), Put(n)); var rest := Put(|FrameOf(m)| - n);
      && (Enabled(t, Finish) <==> n == |FrameOf(m)|) && Enabled(t, rest) && Enabled(Apply(t, rest), Finish)
      && Apply(Apply(t, rest), Finish) == State(s.stream + FrameOf(m), Idle, s.sent + [m])
  {
    hide FrameOf, Representable;
    var f := FrameOf(m);
    PrefixGrows(f, n, |f| - n);
    assert f[0..0 + n] == f[..n] && f[..|f|] == f;
    Assoc(s.stream, f[..n], f[n..n + (|f| - n)]);
  }

  /** The messages whose last byte has been written. */
  function Complete(s: State): seq<Message> {
    if s.lock.Busy? && s.lock.written == |FrameOf(s.lock.m)| then s.sent + [s.lock.m] else s.sent
  }

  function Leftover(s: State): seq<Byte>
    requires Inv(s)
  {
    if s.lock.Busy? && s.lock.written == |FrameOf(s.lock.m)| then [] else Partial(s.lock)
  }

  /** In every interleaving of senders the stream de-frames into exactly the complete messages,
      in the order they took the mutex; what is left over is the start of the holder's frame. */
  lemma StreamDeframes(run: seq<Action>)
    requires Legal(INIT, run)
    ensures Inv(Run(INIT, run))
    ensures var s := Run(INIT, run);
      Deframe(s.stream) == Deframed(Frames(Complete(s)), Leftover(s))
  {
    assert Inv(INIT);
    RunKeepsInv(INIT, run);
    var s := Run(INIT, run);
    if s.lock.Busy? && s.lock.written < |FrameOf(s.lock.m)| {
      DeframeFlatten(s.sent, s.lock.m, Partial(s.lock));
    } else {
      if s.lock.Busy? {
        FlattenAppend(s.sent, s.lock.m);
        TakeAll(FrameOf(s.lock.m));
      }
      assert s.stream == Flatten(Complete(s)) + [];
      DeframeFlatten(Complete(s), Message(0, 0, []), []);
    }
  }
}
