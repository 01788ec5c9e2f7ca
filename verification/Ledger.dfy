// Who owns which fid. A protid owns its walk fid and its I/O fid; `extra` fids are held by an
// operation in progress, or were leaked.
module Ledger {
  import opened Bytes
  import opened Server

  /** A protid's part in the ledger; NO_FID stands for no fid. */
  datatype Protid = Protid(walk: nat, io: nat, flags: set<Access>, po: nat)

  predicate Owns(ps: map<nat, Protid>, p: nat, f: nat) {
    p in ps && f != NO_FID && (ps[p].walk == f || ps[p].io == f)
  }

  /** The access an I/O fid is opened with when `flags` are wanted and `had` were there before:
      9P2000.L has no execute mode, the others turn any request to execute into OEXEC. */
  function OpenMode(linux: bool, flags: set<Access>, had: set<Access>): set<Access> {
    if !linux && Exec in flags then {Read, Exec} else (flags + had) - {Exec}
  }

  /** Asking an older protocol for execution gives just reading and execution; otherwise a mode has
      what is wanted or was there before, of reading and writing, and nothing else. */
  predicate Provides(linux: bool, flags: set<Access>, had: set<Access>, mode: set<Access>) {
    forall a :: a in mode <==>
      if !linux && Exec in flags then a == Read || a == Exec
      else (a == Read || a == Write) && (a in flags || a in had)
  }

  lemma ModeProvides(linux: bool, flags: set<Access>, had: set<Access>)
    ensures Provides(linux, flags, had, OpenMode(linux, flags, had))
  {
    forall a ensures a in (flags + had) - {Exec} <==> (a == Read || a == Write) && (a in flags || a in had) {
    }
  }

  /** Execution to be combined with writing: a mode the older protocols cannot express. */
  predicate Inexpressible(linux: bool, flags: set<Access>) {
    !linux && Exec in flags && Write in flags
  }

  predicate Meets(linux: bool, flags: set<Access>, mode: set<Access>) {
    if Inexpressible(linux, flags) then mode == {Read, Exec} else flags - {Exec} <= mode
  }

  /** Opening provides what the flags ask for, execution aside, exactly if that can be said;
      otherwise it provides reading and execution only. */
  lemma ModeCovers(linux: bool, flags: set<Access>, had: set<Access>)
    ensures flags - {Exec} <= OpenMode(linux, flags, had) <==> !Inexpressible(linux, flags)
    ensures Meets(linux, flags, OpenMode(linux, flags, had))
  {
    if Inexpressible(linux, flags) {
      assert Write in flags - {Exec} && Write !in OpenMode(linux, flags, had);
    } else if !linux && Exec in flags {
      forall a | a in flags - {Exec} ensures a in {Read, Exec} {
        assert a == Read;
      }
    }
  }

  /** No flags beyond reading and writing: all that the callers of p9_ensure_open let through. */
  predicate Masked(ps: map<nat, Protid>) {
    forall p :: p in ps ==> ps[p].flags <= {Read, Write}
  }

  lemma MaskedMeets(linux: bool, flags: set<Access>, mode: set<Access>)
    requires flags <= {Read, Write} && Meets(linux, flags, mode)
    ensures flags <= mode
  {
    assert Exec !in flags;
    assert flags - {Exec} == flags;
  }

  /** A protid just made has an I/O fid exactly if its file is to be read or written; the fid stands
      for the file and is open for what was asked for, of reading and writing, and nothing else. */
  predicate OpenAsAsked(flags: set<Access>, p: Protid, live: map<nat, Live>) {
    if Read in flags || Write in flags then
      && p.io in live && p.walk in live && live[p.io].node == live[p.walk].node && live[p.io].open.Some?
      && forall a :: a in live[p.io].open.value <==> a in flags && (a == Read || a == Write)
    else p.io == NO_FID
  }

  /** What the client believes an I/O fid to be open for is what it is open for. */
  predicate Covered(linux: bool, p: Protid, live: map<nat, Live>) {
    if p.io in live && live[p.io].open.Some? then Meets(linux, p.flags, live[p.io].open.value)
    else p.flags == {}
  }

  /** A walk fid stays unopened, as walking from it demands; the I/O fid stands for the same file. */
  predicate FidsUsable(linux: bool, p: Protid, live: map<nat, Live>) {
    && (p.walk != NO_FID ==> p.walk in live && live[p.walk].open.None? && p.walk != p.io)
    && (p.io != NO_FID ==> p.io in live)
    && (p.walk != NO_FID && p.io != NO_FID ==> live[p.io].node == live[p.walk].node)
    && Covered(linux, p, live)
  }

  /** The live fids are exactly those of the protids, each owned once, and the extra ones. */
  ghost predicate Balanced(linux: bool, ps: map<nat, Protid>, live: map<nat, Live>, extra: set<nat>, next: nat) {
    && (forall p :: p in ps ==> FidsUsable(linux, ps[p], live))
    && (forall p, f :: Owns(ps, p, f) ==> f in live && f !in extra)
    && (forall p, q, f :: Owns(ps, p, f) && Owns(ps, q, f) ==> p == q)
    && (forall f :: f in live && f !in extra ==> exists p :: Owns(ps, p, f))
    && (forall f :: f in extra ==> f in live)
    && (forall f :: f in live ==> f <= next)
    && next < NO_FID
  }

  /** Conservation, in so many words. */
  lemma Conservation(linux: bool, ps: map<nat, Protid>, live: map<nat, Live>, leaked: set<nat>, next: nat)
    requires Balanced(linux, ps, live, leaked, next)
    ensures forall f :: f in live <==> f in leaked || exists p :: Owns(ps, p, f)
    ensures ps == map[] ==> live.Keys == leaked
  {
    if ps == map[] {
      assert forall f :: f in live <==> f in leaked;
    }
  }

  lemma Entry(linux: bool, ps: map<nat, Protid>, live: map<nat, Live>, extra: set<nat>, next: nat, p: nat)
    requires Balanced(linux, ps, live, extra, next) && p in ps
    ensures FidsUsable(linux, ps[p], live) && NO_FID !in live
    ensures ps[p].walk != NO_FID ==> ps[p].walk in live && live[ps[p].walk].open.None? && ps[p].walk != ps[p].io
    ensures if ps[p].io == NO_FID then ps[p].flags == {} else ps[p].io in live
  {
  }

  lemma FreshFids(linux: bool, ps: map<nat, Protid>, live: map<nat, Live>, extra: set<nat>, next: nat)
    requires Balanced(linux, ps, live, extra, next)
    ensures NO_FID !in live && forall f :: f > next ==> f !in live && f !in extra
  {
  }

  lemma LooseIsLive(linux: bool, ps: map<nat, Protid>, live: map<nat, Live>, extra: set<nat>, next: nat, f: nat)
    requires Balanced(linux, ps, live, extra, next) && f in extra
    ensures f in live && f <= next && forall p :: !Owns(ps, p, f)
  {
  }

  /** Fids the protids do not own do not matter to them. */
  lemma Unaffected(linux: bool, ps: map<nat, Protid>, live: map<nat, Live>, live': map<nat, Live>, p: nat)
    requires p in ps && FidsUsable(linux, ps[p], live)
    requires NO_FID !in live && NO_FID !in live'
    requires forall f :: Owns(ps, p, f) ==> f in live && f in live' && live'[f] == live[f]
    ensures FidsUsable(linux, ps[p], live')
  {
    assert ps[p].walk != NO_FID ==> Owns(ps, p, ps[p].walk);
    assert ps[p].io != NO_FID ==> Owns(ps, p, ps[p].io);
  }

  lemma AddExtra(linux: bool, ps: map<nat, Protid>, live: map<nat, Live>, extra: set<nat>, next: nat, f: nat, l: Live)
    requires Balanced(linux, ps, live, extra, next) && next < f < NO_FID
    ensures Balanced(linux, ps, live[f := l], extra + {f}, f)
  {
    hide FidsUsable;
    forall p | p in ps ensures FidsUsable(linux, ps[p], live[f := l]) {
      Unaffected(linux, ps, live, live[f := l], p);
    }
    forall g | g in live[f := l] && g !in extra + {f} ensures exists p :: Owns(ps, p, g) {
      assert g in live;
    }
  }

  lemma Later(linux: bool, ps: map<nat, Protid>, live: map<nat, Live>, extra: set<nat>, next: nat, f: nat)
    requires Balanced(linux, ps, live, extra, next) && next <= f < NO_FID
    ensures Balanced(linux, ps, live, extra, f)
  {
  }

  lemma DropExtra(linux: bool, ps: map<nat, Protid>, live: map<nat, Live>, extra: set<nat>, next: nat, f: nat)
    requires Balanced(linux, ps, live, extra, next) && f in extra
    ensures Balanced(linux, ps, live - {f}, extra - {f}, next)
  {
    hide FidsUsable;
    forall p | p in ps ensures FidsUsable(linux, ps[p], live - {f}) {
      Unaffected(linux, ps, live, live - {f}, p);
    }
    forall g | g in live - {f} && g !in extra - {f} ensures exists p :: Owns(ps, p, g) {
      assert g in live;
    }
  }

  /** Changes to one protid's entry, with the fids it gains and gives up. */
  lemma Reassign(linux: bool, ps: map<nat, Protid>, live: map<nat, Live>, extra: set<nat>, next: nat, p: nat,
                 to: Protid, extra': set<nat>)
    requires Balanced(linux, ps, live, extra, next) && FidsUsable(linux, to, live)
    requires forall f :: (f in extra' || f == to.walk || f == to.io) && f != NO_FID <==> f in extra || Owns(ps, p, f)
    requires to.walk !in extra' && to.io !in extra' && NO_FID !in extra'
    ensures Balanced(linux, ps[p := to], live, extra', next)
  {
    hide FidsUsable;
    var ps' := ps[p := to];
    forall q, f | Owns(ps', q, f) ensures f in live && f !in extra' {
      if q != p {
        assert Owns(ps, q, f);
        assert !Owns(ps, p, f);
      }
    }
    forall q, r, f | Owns(ps', q, f) && Owns(ps', r, f) ensures q == r {
      if q != p { assert Owns(ps, q, f); }
      if r != p { assert Owns(ps, r, f); }
    }
    forall f | f in live && f !in extra' ensures exists q :: Owns(ps', q, f) {
      if f == to.walk || f == to.io {
        assert Owns(ps', p, f);
      } else {
        var q :| Owns(ps, q, f);
        assert Owns(ps', q, f);
      }
    }
  }

  /** Clunking the I/O fid. */
  lemma GiveUpIo(linux: bool, ps: map<nat, Protid>, live: map<nat, Live>, extra: set<nat>, next: nat, p: nat)
    requires Balanced(linux, ps, live, extra, next) && p in ps && ps[p].io != NO_FID
    ensures Balanced(linux, ps[p := ps[p].(io := NO_FID, flags := {})], live - {ps[p].io}, extra, next)
  {
    var f := ps[p].io;
    assert Owns(ps, p, f) && NO_FID !in live;
    assert ps[p].walk != NO_FID ==> Owns(ps, p, ps[p].walk);
    Reassign(linux, ps, live, extra, next, p, ps[p].(io := NO_FID, flags := {}), extra + {f});
    hide Balanced;
    DropExtra(linux, ps[p := ps[p].(io := NO_FID, flags := {})], live, extra + {f}, next, f);
    assert extra + {f} - {f} == extra;
  }

  /** Clunking both fids, after which the protid can go. */
  lemma GiveUpAll(linux: bool, ps: map<nat, Protid>, live: map<nat, Live>, extra: set<nat>, next: nat, p: nat)
    requires Balanced(linux, ps, live, extra, next) && p in ps
    ensures Balanced(linux, ps - {p}, live - {ps[p].walk, ps[p].io}, extra, next)
  {
    hide FidsUsable;
    var ps', live' := ps - {p}, live - {ps[p].walk, ps[p].io};
    forall q, f | Owns(ps', q, f) ensures Owns(ps, q, f) && !Owns(ps, p, f) && f in live' {
      assert Owns(ps, q, f);
    }
    forall q | q in ps' ensures FidsUsable(linux, ps'[q], live') {
      Unaffected(linux, ps', live, live', q);
    }
    forall f | f in live' && f !in extra ensures exists q :: Owns(ps', q, f) {
      var q :| Owns(ps, q, f);
      assert Owns(ps', q, f);
    }
    forall f | f in extra ensures f in live' {
      assert !Owns(ps, p, f);
    }
  }

  /** Forgetting what the I/O fid is open for. */
  lemma ForgetFlags(linux: bool, ps: map<nat, Protid>, live: map<nat, Live>, extra: set<nat>, next: nat, p: nat)
    requires Balanced(linux, ps, live, extra, next) && p in ps
    ensures Balanced(linux, ps[p := ps[p].(flags := {})], live, extra, next)
  {
    var to := ps[p].(flags := {});
    assert FidsUsable(linux, to, live);
    assert NO_FID !in live;
    assert ps[p].walk != NO_FID ==> Owns(ps, p, ps[p].walk);
    assert ps[p].io != NO_FID ==> Owns(ps, p, ps[p].io);
    hide FidsUsable;
    Reassign(linux, ps, live, extra, next, p, to, extra);
  }

  /** A fresh fid for the walk fid's file, opened or not, becomes the I/O fid. */
  lemma TakeIo(linux: bool, ps: map<nat, Protid>, live: map<nat, Live>, extra: set<nat>, next: nat, p: nat, f: nat,
               l: Live, flags: set<Access>)
    requires Balanced(linux, ps, live, extra, next) && p in ps && next < f < NO_FID
    requires ps[p].io == NO_FID && ps[p].walk != NO_FID && l.node == live[ps[p].walk].node
    requires if l.open.Some? then Meets(linux, flags, l.open.value) else flags == {}
    ensures Balanced(linux, ps[p := ps[p].(io := f, flags := flags)], live[f := l], extra, f)
  {
    assert f !in live;
    assert Owns(ps, p, ps[p].walk);
    AddExtra(linux, ps, live, extra, next, f, l);
    Reassign(linux, ps, live[f := l], extra + {f}, f, p, ps[p].(io := f, flags := flags), extra);
  }

  /** A new protid starts out with one extra fid, unopened. */
  lemma Adopt(linux: bool, ps: map<nat, Protid>, live: map<nat, Live>, extra: set<nat>, next: nat, p: nat, f: nat,
              po: nat)
    requires Balanced(linux, ps, live, extra, next) && p !in ps && f in extra && live[f].open.None?
    ensures Balanced(linux, ps[p := Protid(f, NO_FID, {}, po)], live, extra - {f}, next)
  {
    Reassign(linux, ps, live, extra, next, p, Protid(f, NO_FID, {}, po), extra - {f});
  }

  lemma NewEntry(linux: bool, ps: map<nat, Protid>, live: map<nat, Live>, extra: set<nat>, next: nat, p: nat, f: nat,
                 l: Live, po: nat)
    requires Balanced(linux, ps, live, extra, next) && p !in ps && next < f < NO_FID && l.open.None?
    ensures Balanced(linux, ps[p := Protid(f, NO_FID, {}, po)], live[f := l], extra, f)
  {
    assert f !in extra;
    hide Balanced;
    AddExtra(linux, ps, live, extra, next, f, l);
    Adopt(linux, ps, live[f := l], extra + {f}, f, p, f, po);
    assert extra + {f} - {f} == extra;
  }
}
