// The receiving half of the format-driven codec. A receive format zipped with the capacities
// its caller passes is a sequence of slots. Positions are absolute in the input stream:
// `limit` is where the current frame ends.
module Recv {
  import opened Bytes
  import opened Wire

  datatype Slot = S1 | S2 | S4 | S8 | SBlob(cap: nat) | SStr | SQids | SMore

  datatype Val =
    | Num(n: nat)
    | Data(d: seq<Byte>)
    | Text(s: seq<Byte>)
    | QidList(qids: seq<Qid>)
    | Flag(more: bool)

  datatype Error =
    | Ok
    | Eio
    | Eoverflow
    | Eieio
    | ServerErrno(n: nat)
    | ServerText(s: seq<Byte>)
    | Indeterminate

  datatype Field = Got(val: Val, next: nat) | Eof | TooBig(next: nat)

  function FixedField(k: nat, data: seq<Byte>, at: nat): Field {
    if at + k <= |data| then Got(Num(LeVal(data[at..at + k])), at + k) else Eof
  }

  function QidAt(data: seq<Byte>, at: nat): Qid
    requires at + 13 <= |data|
  {
    Qid(data[at], LeVal(data[at + 1..at + 5]), LeVal(data[at + 5..at + 13]))
  }

  function QidsAt(data: seq<Byte>, at: nat, n: nat): seq<Qid>
    requires at + 13 * n <= |data|
    decreases n
  {
    if n == 0 then [] else [QidAt(data, at)] + QidsAt(data, at + 13, n - 1)
  }

  /** What one format character reads at a position. */
  function ReadField(slot: Slot, data: seq<Byte>, at: nat): Field
    requires !slot.SMore?
  {
    match slot
    case S1 => FixedField(1, data, at)
    case S2 => FixedField(2, data, at)
    case S4 => FixedField(4, data, at)
    case S8 => FixedField(8, data, at)
    case SBlob(cap) =>
      if at + 4 > |data| then Eof
      else
        var n := LeVal(data[at..at + 4]);
        if n > cap then TooBig(at + 4)
        else if at + 4 + n > |data| then Eof
        else Got(Data(data[at + 4..at + 4 + n]), at + 4 + n)
    case SStr =>
      if at + 2 > |data| then Eof
      else
        var n := LeVal(data[at..at + 2]);
        if at + 2 + n > |data| then Eof
        else Got(Text(data[at + 2..at + 2 + n]), at + 2 + n)
    case SQids =>
      if at + 2 > |data| then Eof
      else
        var n := LeVal(data[at..at + 2]);
        if at + 2 + 13 * n > |data| then Eof
        else Got(QidList(QidsAt(data, at + 2, n)), at + 2 + 13 * n)
  }

  datatype Parsed = Parsed(err: Error, vals: seq<Val>, at: nat, eof: bool)

  function Prepend(v: seq<Val>, p: Parsed): Parsed {
    p.(vals := v + p.vals)
  }

  /** The interpretation of a receive format. Each field needs only one byte left in the frame
      to be attempted, so a field can run past `limit`; a short read ends the parse silently. */
  function Parse(slots: seq<Slot>, data: seq<Byte>, at: nat, limit: nat): Parsed
    decreases |slots|
  {
    if slots == [] then Parsed(Ok, [], at, false)
    else if slots[0].SMore? then
      if at < limit then Prepend([Flag(true)], Parse(slots[1..], data, at, limit))
      else Parsed(Ok, [Flag(false)], at, false)
    else if at >= limit then Parsed(Eio, [], at, false)
    else
      match ReadField(slots[0], data, at)
      case Got(v, next) => Prepend([v], Parse(slots[1..], data, next, limit))
      case TooBig(next) => Parsed(Eoverflow, [], next, false)
      case Eof => Parsed(Ok, [], at, true)
  }

  /** The tail of a frame that no field asked for is read and dropped. */
  function Drained(p: Parsed, data: seq<Byte>, limit: nat): nat {
    if p.eof then |data| else if p.at < limit then Min(limit, |data|) else p.at
  }

  const LERROR_REQUEST: nat := 6
  const ERROR_REQUEST: nat := 106

  datatype Outcome = Outcome(err: Error, vals: seq<Val>, end: nat)

  function ErrorSlots(unix: bool): seq<Slot> {
    if unix then [SStr, S4] else [SStr]
  }

  /** Which format is really applied to the body, given the reply's type. */
  function EffectiveSlots(kind: nat, request: nat, unix: bool, slots: seq<Slot>): seq<Slot> {
    if kind == request + 1 then slots
    else if kind == LERROR_REQUEST + 1 then [S4]
    else if kind == ERROR_REQUEST + 1 then ErrorSlots(unix)
    else []
  }

  /** How the caller sees an error reply; a stream that ended early leaves the variable unset. */
  function ErrnoOf(vals: seq<Val>): Error {
    if |vals| > 0 && vals[0].Num? then ServerErrno(vals[0].n) else Indeterminate
  }

  /** The text is used as a C string. */
  function TextOf(vals: seq<Val>): Error {
    if |vals| > 0 && vals[0].Text? then ServerText(CStr(vals[0].s)) else Indeterminate
  }

  function Receive(kind: nat, request: nat, unix: bool, slots: seq<Slot>,
                   data: seq<Byte>, at: nat, limit: nat): Outcome {
    var p := Parse(EffectiveSlots(kind, request, unix, slots), data, at, limit);
    var end := Drained(p, data, limit);
    if kind == request + 1 then Outcome(p.err, p.vals, end)
    else if kind == LERROR_REQUEST + 1 then
      Outcome(if p.err.Ok? then ErrnoOf(p.vals) else p.err, [], end)
    else if kind == ERROR_REQUEST + 1 then
      Outcome(if p.err.Ok? then TextOf(p.vals) else p.err, [], end)
    else Outcome(Eieio, [], end)
  }

  /** The buffered input stream, how often the reading token has been given back, and how far the
      stream had been read when it last was. */
  class InStream {
    var data: seq<Byte>
    var pos: nat
    var released: nat
    ghost var releasedAt: nat

    constructor (data: seq<Byte>)
      ensures this.data == data && pos == 0 && released == 0
    {
      this.data := data;
      pos, released, releasedAt := 0, 0, 0;
    }

    /** fread: comes up short only at the end of the stream. */
    method Read(n: nat) returns (got: seq<Byte>)
      requires pos <= |data|
      modifies this`pos
      ensures pos == Min(old(pos) + n, |data|)
      ensures got == data[old(pos)..pos]
    {
      var end := Min(pos + n, |data|);
      got := data[pos..end];
      pos := end;
    }

    method Release()
      modifies this`released, this`releasedAt
      ensures released == old(released) + 1 && releasedAt == pos
    {
      released := released + 1;
      releasedAt := pos;
    }

    method ReadFixed(k: nat) returns (f: Field)
      requires pos <= |data|
      modifies this`pos
      ensures pos <= |data|
      ensures f == FixedField(k, data, old(pos))
      ensures if f.Eof? then pos == |data| else pos == f.next
    {
      var got := Read(k);
      f := if |got| == k then Got(Num(LeVal(got)), pos) else Eof;
    }

    method ReadQids(n: nat) returns (ok: bool, qids: seq<Qid>)
      requires pos <= |data|
      modifies this`pos
      ensures ok <==> old(pos) + 13 * n <= |data|
      ensures ok ==> pos == old(pos) + 13 * n && qids == QidsAt(data, old(pos), n)
      ensures !ok ==> pos == |data|
    {
      hide LeVal;
      qids := [];
      ghost var start := pos;
      for i := 0 to n
        invariant pos == start + 13 * i <= |data|
        invariant start + 13 * n <= |data| ==> QidsAt(data, start, n) == qids + QidsAt(data, pos, n - i)
        invariant start + 13 * n > |data| || |qids| == i
      {
        var kind := Read(1);
        if |kind| != 1 { return false, qids; }
        var version := Read(4);
        if |version| != 4 { return false, qids; }
        var path := Read(8);
        if |path| != 8 { return false, qids; }
        var q := Qid(kind[0], LeVal(version), LeVal(path));
        if start + 13 * n <= |data| {
          Assoc(qids, [q], QidsAt(data, pos, n - i - 1));
        }
        qids := qids + [q];
      }
      ok := true;
    }

    /** One arm of the receive switch. */
    method ReadSlot(slot: Slot) returns (f: Field)
      requires pos <= |data| && !slot.SMore?
      modifies this`pos
      ensures pos <= |data|
      ensures f == ReadField(slot, data, old(pos))
      ensures if f.Eof? then pos == |data| else pos == f.next
    {
      hide LeVal, QidsAt;
      match slot {
        case S1 => f := ReadFixed(1);
        case S2 => f := ReadFixed(2);
        case S4 => f := ReadFixed(4);
        case S8 => f := ReadFixed(8);
        case SBlob(cap) =>
          var count := Read(4);
          if |count| != 4 { return Eof; }
          var n := LeVal(count);
          if n > cap { return TooBig(pos); }
          var d := Read(n);
          f := if |d| == n then Got(Data(d), pos) else Eof;
        case SStr =>
          var count := Read(2);
          if |count| != 2 { return Eof; }
          var n := LeVal(count);
          var s := Read(n);
          f := if |s| == n then Got(Text(s), pos) else Eof;
        case SQids =>
          var count := Read(2);
          if |count| != 2 { return Eof; }
          var ok, qids := ReadQids(LeVal(count));
          f := if ok then Got(QidList(qids), pos) else Eof;
      }
    }

    /** The format loop. `bytes_read` of the program is at + 7 - (start of the body). */
    method ReadBody(slots: seq<Slot>, limit: nat) returns (p: Parsed)
      requires pos <= |data|
      modifies this`pos
      ensures pos <= |data|
      ensures p == Parse(slots, data, old(pos), limit)
      ensures pos == if p.eof then |data| else p.at
    {
      var vals: seq<Val> := [];
      ghost var whole := Parse(slots, data, pos, limit);
      for i := 0 to |slots|
        invariant pos <= |data|
        invariant whole == Prepend(vals, Parse(slots[i..], data, pos, limit))
      {
        ghost var rest := Parse(slots[i..], data, pos, limit);
        TakeNext(slots, i);
        var at := pos;
        if slots[i].SMore? {
          if at >= limit {
            return Parsed(Ok, vals + [Flag(false)], at, false);
          }
          Assoc(vals, [Flag(true)], Parse(slots[i + 1..], data, at, limit).vals);
          vals := vals + [Flag(true)];
        } else if at >= limit {
          return Parsed(Eio, vals, at, false);
        } else {
          var f := ReadSlot(slots[i]);
          match f {
            case Eof => return Parsed(Ok, vals, at, true);
            case TooBig(next) => return Parsed(Eoverflow, vals, next, false);
            case Got(v, next) =>
              Assoc(vals, [v], Parse(slots[i + 1..], data, next, limit).vals);
              vals := vals + [v];
          }
        }
      }
      p := Parsed(Ok, vals, pos, false);
    }

    method Drain(limit: nat)
      requires pos <= |data|
      modifies this`pos
      ensures pos == if old(pos) < limit then Min(limit, |data|) else old(pos)
    {
      if pos < limit {
        var _ := Read(limit - pos);
      }
    }

    /** Receives the body of a reply whose header has been read, skips what the format left,
        and only then gives the token back. Error replies are received by a recursive call. */
    method DoRecv(kind: nat, request: nat, unix: bool, slots: seq<Slot>, limit: nat)
      returns (err: Error, vals: seq<Val>)
      requires pos <= |data|
      modifies this`pos, this`released, this`releasedAt
      ensures Outcome(err, vals, pos) == Receive(kind, request, unix, slots, data, old(pos), limit)
      ensures released == old(released) + 1 && releasedAt == pos
      decreases if kind == request + 1 then 0 else 1
    {
      if kind == request + 1 {
        var p := ReadBody(slots, limit);
        err, vals := p.err, p.vals;
        Drain(limit);
        Release();
      } else if kind == LERROR_REQUEST + 1 {
        err, vals := DoRecv(kind, LERROR_REQUEST, unix, [S4], limit);
        if err.Ok? {
          err := ErrnoOf(vals);
        }
        vals := [];
      } else if kind == ERROR_REQUEST + 1 {
        err, vals := DoRecv(kind, ERROR_REQUEST, unix, ErrorSlots(unix), limit);
        if err.Ok? {
          err := TextOf(vals);
        }
        vals := [];
      } else {
        err, vals := Eieio, [];
        Drain(limit);
        Release();
      }
    }
  }
}
