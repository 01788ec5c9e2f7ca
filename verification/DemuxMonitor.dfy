// The critical sections of the demultiplexer as the program runs them, on its own variables,
// each shown to be one action of the transition system.
module DemuxMonitor {
  import opened Bytes
  import opened Wire
  import opened Demux

  /** An interest record; `waiting` says whether its thread waits on the record's condition. */
  datatype Interest = Interest(tag: nat, size: nat, kind: Byte, waiting: bool)

  /** What the thread does after a critical section. */
  datatype Next = ReadsBody | Waits | ReadsHeader

  predicate Same(i: Interest, call: Call) {
    i.tag == call.tag && i.size == call.size && i.kind == call.kind && (i.waiting <==> call.pc.Asleep?)
  }

  class Monitor {
    var table: map<nat, nat>  // from tags to records
    var reading: bool         // the token
    var nextTag: nat
    var interests: seq<Interest>
    ghost var s: State

    /** The variables agree with the state of the transition system. */
    ghost predicate Models()
      reads this
    {
      && table == s.table && reading == s.reading && nextTag == s.nextTag < TAGS
      && |interests| == |s.calls|
      && forall c :: 0 <= c < |interests| ==> Same(interests[c], s.calls[c])
    }

    constructor ()
      ensures Models() && s == INIT
    {
      table, reading, nextTag, interests := map[], false, 0xFFFF, [];
      s := INIT;
    }

    /** Registers a new record under the next tag, which wraps at sixteen bits. */
    method RegisterInterest() returns (c: nat)
      requires Models()
      modifies this
      ensures Models() && s == Apply(old(s), Register) && c == |old(interests)|
    {
      c := |interests|;
      interests := interests + [Interest(nextTag, 0, 0, false)];
      table := table[nextTag := c];
      nextTag := if nextTag == 0xFFFF then 0 else nextTag + 1;
      s := Apply(s, Register);
    }

    /** Signals the record's condition, to no effect if nobody waits. */
    method Signal(c: nat)
      requires c < |interests|
      modifies this`interests
      ensures interests == old(interests)[c := old(interests)[c].(waiting := false)]
    {
      interests := interests[c := interests[c].(waiting := false)];
    }

    /** From the label `again` to the next release of the mutex. */
    method Recheck(c: nat) returns (next: Next)
      requires Models() && c < |interests| && !interests[c].waiting
      requires interests[c].size != 0 ==> reading
      modifies this
      ensures Models() && s == Again(old(s), c)
      ensures next == if old(interests)[c].size != 0 then ReadsBody else if old(reading) then Waits else ReadsHeader
    {
      ghost var s1 := Again(s, c);
      if interests[c].size != 0 {
        assert reading;
        table := table - {interests[c].tag};
        next := ReadsBody;
      } else if reading {
        interests := interests[c := interests[c].(waiting := true)];
        next := Waits;
      } else {
        reading := true;
        next := ReadsHeader;
      }
      s := s1;
    }

    /** A thread takes the mutex to wait for its header, at first or when woken. */
    method Enter(c: nat) returns (next: Next)
      requires Models() && Enabled(s, Action.Enter(c))
      modifies this
      ensures Models() && s == Apply(old(s), Action.Enter(c))
    {
      next := Recheck(c);
    }

    /** A thread has read a header. If it is not its own it fills in and wakes the other record,
        handing over the token, and goes on waiting. */
    method GotHeader(c: nat, size: nat, kind: Byte, tag: nat) returns (next: Next)
      requires Models() && Enabled(s, Dispatch(c)) && c < |s.calls| && s.calls[c].pc.Header? && s.reading
      requires |s.calls[c].pc.got| == HEADER_SIZE
      requires size == HeaderSize(s.calls[c].pc.got) && kind == s.calls[c].pc.got[4]
      requires tag == HeaderTag(s.calls[c].pc.got)
      modifies this
      ensures Models() && s == Apply(old(s), Dispatch(c))
    {
      ghost var s0, got := s, s.calls[c].pc.got;
      if tag == interests[c].tag {
        interests := interests[c := interests[c].(size := size, kind := kind)];
        table := table - {interests[c].tag};
        s := Apply(s0, Dispatch(c));
        return ReadsBody;
      }
      var other := table[tag];
      assert interests[other].tag == tag;
      interests := interests[other := interests[other].(size := size, kind := kind)];
      Signal(other);
      s := SetCall(s, other, Signalled(s.calls[other].(size := size, kind := kind)));
      next := Recheck(c);
    }

    /** After the body: gives up the token and wakes one of the records, whichever. */
    method ReleaseToken(c: nat) returns (wake: nat)
      requires Models() && c < |s.calls| && s.calls[c].pc.Body? && HEADER_SIZE + |s.calls[c].pc.got| >= s.calls[c].size
      requires forall t :: t in s.table ==> s.table[t] < |s.calls|
      modifies this
      ensures Enabled(old(s), Release(c, wake)) && s == Apply(old(s), Release(c, wake)) && Models()
    {
      hide HeaderTag, HeaderSize, FrameOf, TakeBody, Again, Consume, Frame, LeVal;
      reading := false;
      wake := 0;
      if table != map[] {
        wake :| wake in table;
        Signal(table[wake]);
      }
      s := Apply(s, Release(c, wake));
    }
  }
}
