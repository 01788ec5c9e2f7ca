// The reply demultiplexer. Any number of calls share one input stream without a reader
// thread: the right to read (`reading`) is taken by a waiting caller, handed to the caller
// whose header it has read, and given up after a body. Every critical section of the mutex is
// one action; everything else interleaves freely.
module Demux {
  import opened Bytes
  import opened Wire

  const TAGS: nat := 0x1_0000

  /** A frame put on the stream by the server, answering call `owner`. */
  datatype Answer = Answer(owner: nat, tag: nat, kind: Byte, body: seq<Byte>)

  function FrameOf(r: Answer): (f: seq<Byte>)
    ensures |f| == HEADER_SIZE + |r.body|
  {
    Frame(r.kind, r.tag, r.body)
  }

  /** Where a call is. `Ready` is about to take the mutex at the label `again`; `Asleep` waits
      on its own condition variable. `Header` and `Body` hold what it has read outside the mutex.
      `Failed` has returned because its request could not be sent; it is still registered. */
  datatype Pc =
    | Sending
    | Failed
    | Ready
    | Asleep
    | Header(got: seq<Byte>)
    | Body(got: seq<Byte>)
    | Done(body: seq<Byte>)

  /** One call of the RPC function, with its interest record (tag, size, kind). `reply` is a
      history variable: which frame, if any, answers it. */
  datatype Call = Call(pc: Pc, tag: nat, size: nat, kind: Byte, reply: Option<nat>)

  /** The program's state (first line), the stream, and history: the frames the server sent,
      how many were received, and which call read each byte. */
  datatype State = State(
    calls: seq<Call>, table: map<nat, nat>, reading: bool, nextTag: nat,
    input: seq<Byte>, pos: nat,
    answers: seq<Answer>, cur: nat, readers: seq<nat>)

  const INIT := State([], map[], false, 0xFFFF, [], 0, [], 0, [])

  datatype Action =
    | Register
    | Send(c: nat)
    | SendFails(c: nat)
    | Serve(c: nat, kind: Byte, body: seq<Byte>)
    | Enter(c: nat)
    | ReadHeader(c: nat)
    | Dispatch(c: nat)
    | ReadBody(c: nat, n: nat)
    | Release(c: nat, wake: nat)
    | Spurious(c: nat)

  /** The interest record is in the table. */
  predicate Registered(pc: Pc) {
    pc.Sending? || pc.Failed? || pc.Ready? || pc.Asleep? || pc.Header?
  }

  /** A reply may still come. */
  predicate Expecting(pc: Pc) {
    pc.Ready? || pc.Asleep? || pc.Header?
  }

  /** The three reads of a header take 4, 1 and 2 bytes. */
  function NextPart(got: nat): nat {
    if got == 0 then 4 else if got == 4 then 1 else 2
  }

  function HeaderSize(h: seq<Byte>): nat
    requires |h| == HEADER_SIZE
  {
    LeVal(h[..4])
  }

  function HeaderTag(h: seq<Byte>): nat
    requires |h| == HEADER_SIZE
  {
    LeVal(h[5..7])
  }

  predicate Enabled(s: State, a: Action) {
    match a
    case Register => true
    case Send(c) => c < |s.calls| && s.calls[c].pc.Sending?
    case SendFails(c) => c < |s.calls| && s.calls[c].pc.Sending?
    case Serve(c, _, body) =>
      // The server answers each request once, after it was sent, with a well-formed frame.
      && c < |s.calls| && Expecting(s.calls[c].pc)
      && s.calls[c].reply.None? && HEADER_SIZE + |body| < TWO_32
    case Enter(c) => c < |s.calls| && s.calls[c].pc.Ready? && (s.calls[c].size != 0 ==> s.reading)
    case ReadHeader(c) =>
      && c < |s.calls| && s.calls[c].pc.Header? && |s.calls[c].pc.got| < HEADER_SIZE
      && s.pos + NextPart(|s.calls[c].pc.got|) <= |s.input|
    case Dispatch(c) =>
      // Both assertions of the program are part of the guard.
      && c < |s.calls| && s.calls[c].pc.Header? && |s.calls[c].pc.got| == HEADER_SIZE
      && var tag := HeaderTag(s.calls[c].pc.got);
         tag == s.calls[c].tag
         || (tag in s.table && s.table[tag] < |s.calls| && s.calls[s.table[tag]].tag == tag)
    case ReadBody(c, n) =>
      // A field is begun while bytes of the message are left; how long it is the format says.
      && c < |s.calls| && s.calls[c].pc.Body? && 0 < n
      && HEADER_SIZE + |s.calls[c].pc.got| < s.calls[c].size
      && s.pos + n <= |s.input|
    case Release(c, wake) =>
      && c < |s.calls| && s.calls[c].pc.Body?
      && HEADER_SIZE + |s.calls[c].pc.got| >= s.calls[c].size
      && (s.table != map[] ==> wake in s.table && s.table[wake] < |s.calls|)
    case Spurious(c) => c < |s.calls| && s.calls[c].pc.Asleep?
  }

  function SetCall(s: State, c: nat, call: Call): State
    requires c < |s.calls|
  {
    s.(calls := s.calls[c := call])
  }

  function SetPc(s: State, c: nat, pc: Pc): State
    requires c < |s.calls|
  {
    SetCall(s, c, s.calls[c].(pc := pc))
  }

  /** Signalling a condition variable nobody waits on is lost. */
  function Signalled(call: Call): Call {
    if call.pc.Asleep? then call.(pc := Ready) else call
  }

  function TakeBody(s: State, c: nat): State
    requires c < |s.calls|
  {
    SetPc(s, c, Body([])).(table := s.table - {s.calls[c].tag})
  }

  /** From the label `again`, with the mutex held, to its release. */
  function Again(s: State, c: nat): State
    requires c < |s.calls|
  {
    if s.calls[c].size != 0 then TakeBody(s, c)
    else if s.reading then SetPc(s, c, Asleep)
    else SetPc(s, c, Header([])).(reading := true)
  }

  /** n more bytes read by call c. */
  function Consume(s: State, c: nat, n: nat): State {
    s.(pos := s.pos + n, readers := s.readers + seq(n, _ => c))
  }

  function Apply(s: State, a: Action): State
    requires Enabled(s, a)
  {
    match a
    case Register =>
      s.(calls := s.calls + [Call(Sending, s.nextTag, 0, 0, None)],
         table := s.table[s.nextTag := |s.calls|],
         nextTag := if s.nextTag + 1 < TAGS then s.nextTag + 1 else 0)
    case Send(c) => SetPc(s, c, Ready)
    case SendFails(c) => SetPc(s, c, Failed)
    case Serve(c, kind, body) =>
      var r := Answer(c, s.calls[c].tag, kind, body);
      SetCall(s, c, s.calls[c].(reply := Some(|s.answers|)))
        .(input := s.input + FrameOf(r), answers := s.answers + [r])
    case Enter(c) => Again(s, c)
    case ReadHeader(c) =>
      var n := NextPart(|s.calls[c].pc.got|);
      Consume(SetPc(s, c, Header(s.calls[c].pc.got + s.input[s.pos..s.pos + n])), c, n)
    case Dispatch(c) =>
      var h := s.calls[c].pc.got;
      if HeaderTag(h) == s.calls[c].tag then
        TakeBody(SetCall(s, c, s.calls[c].(size := HeaderSize(h), kind := h[4])), c)
      else
        var other := s.table[HeaderTag(h)];
        var filled := s.calls[other].(size := HeaderSize(h), kind := h[4]);
        Again(SetCall(s, other, Signalled(filled)), c)
    case ReadBody(c, n) =>
      Consume(SetPc(s, c, Body(s.calls[c].pc.got + s.input[s.pos..s.pos + n])), c, n)
    case Release(c, wake) =>
      var t := SetPc(s, c, Done(s.calls[c].pc.got)).(reading := false, cur := s.cur + 1);
      if wake in t.table && t.table[wake] < |t.calls| then
        SetCall(t, t.table[wake], Signalled(t.calls[t.table[wake]]))
      else t
    case Spurious(c) => SetPc(s, c, Ready)
  }

  // Invariants.

  /** Offset of frame i in the stream. */
  function Start(answers: seq<Answer>, i: nat): nat
    requires i <= |answers|
  {
    if i == 0 then 0 else Start(answers, i - 1) + HEADER_SIZE + |answers[i - 1].body|
  }

  /** The table maps exactly the tags of the registered calls, each to its call. */
  predicate Tables(s: State) {
    && (forall t :: t in s.table ==>
          s.table[t] < |s.calls| && s.calls[s.table[t]].tag == t && Registered(s.calls[s.table[t]].pc))
    && (forall c :: 0 <= c < |s.calls| && Registered(s.calls[c].pc) ==>
          s.calls[c].tag in s.table && s.table[s.calls[c].tag] == c)
    && (forall c :: 0 <= c < |s.calls| ==> s.calls[c].tag < TAGS)
    && s.nextTag < TAGS
  }

  /** Owns the right to read: reading, or handed a header that it has yet to notice. */
  predicate Holder(call: Call) {
    call.pc.Header? || call.pc.Body? || (call.pc.Ready? && call.size != 0)
  }

  predicate Token(s: State) {
    && (forall c, d :: 0 <= c < |s.calls| && 0 <= d < |s.calls| && Holder(s.calls[c]) && Holder(s.calls[d]) ==> c == d)
    && (s.reading <==> exists c :: 0 <= c < |s.calls| && Holder(s.calls[c]))
  }

  /** The stream is the concatenation of the frames, and reading has reached frame `cur`. */
  predicate Stream(s: State) {
    && s.cur <= |s.answers|
    && |s.input| == Start(s.answers, |s.answers|)
    && (forall i :: 0 <= i < |s.answers| ==>
          && HEADER_SIZE + |s.answers[i].body| < TWO_32
          && s.answers[i].tag < TAGS
          && Holds(s.input, Start(s.answers, i), FrameOf(s.answers[i])))
    && s.pos <= |s.input|
    && (!s.reading ==> s.pos == Start(s.answers, s.cur))
  }

  /** Each frame answers one call, under that call's tag; each call has at most one frame. */
  predicate Matching(s: State) {
    && (forall i :: 0 <= i < |s.answers| ==>
          && s.answers[i].owner < |s.calls|
          && s.calls[s.answers[i].owner].reply == Some(i)
          && s.calls[s.answers[i].owner].tag == s.answers[i].tag)
    && (forall c :: 0 <= c < |s.calls| && s.calls[c].reply.Some? ==>
          s.calls[c].reply.value < |s.answers| && s.answers[s.calls[c].reply.value].owner == c)
  }

  /** Call c is in the body of the current frame, which answers it, with `got` read. */
  predicate AtBody(s: State, call: Call, got: seq<Byte>)
    requires s.cur <= |s.answers|
  {
    && s.cur < |s.answers| && call.reply == Some(s.cur)
    && call.size == HEADER_SIZE + |s.answers[s.cur].body| && call.kind == s.answers[s.cur].kind
    && got <= s.answers[s.cur].body
    && s.pos == Start(s.answers, s.cur) + HEADER_SIZE + |got|
  }

  predicate AtHeader(s: State, got: seq<Byte>)
    requires s.cur <= |s.answers|
  {
    && (|got| == 0 || |got| == 4 || |got| == 5 || |got| == 7)
    && s.pos == Start(s.answers, s.cur) + |got|
    && (got != [] ==> s.cur < |s.answers| && got <= FrameOf(s.answers[s.cur]))
  }

  /** No frame for the call has been received yet. */
  predicate Unanswered(s: State, call: Call) {
    call.size == 0 && (call.reply.Some? ==> s.cur <= call.reply.value)
  }

  predicate CallOk(s: State, call: Call)
    requires s.cur <= |s.answers|
  {
    match call.pc
    case Sending => call.size == 0 && call.reply.None?
    case Failed => call.size == 0 && call.reply.None?
    case Ready => if call.size == 0 then Unanswered(s, call) else AtBody(s, call, [])
    case Asleep => Unanswered(s, call)
    case Header(got) => Unanswered(s, call) && AtHeader(s, got)
    case Body(got) => AtBody(s, call, got)
    case Done(body) =>
      && call.reply.Some? && call.reply.value < s.cur
      && body == s.answers[call.reply.value].body
      && call.kind == s.answers[call.reply.value].kind
  }

  predicate Calls(s: State) {
    && s.cur <= |s.answers|
    && forall c :: 0 <= c < |s.calls| ==> CallOk(s, s.calls[c])
  }

  predicate Inv(s: State) {
    Tables(s) && Token(s) && Stream(s) && Matching(s) && Calls(s)
  }
}
