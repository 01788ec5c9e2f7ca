// The operations that create and destroy fids, run against a server that may fail any request.
module Fids {
  import opened Bytes
  import opened Server
  import opened Ledger

  /** An open file description together with its node: the operations make one node for each. */
  datatype Peropen = Peropen(path: Node, limit: nat, offset: nat, userFlags: set<Access>, rootPath: Node)

  /** Abort stands for a failed assertion, which ends the program. */
  datatype Error = EBADF | EROFS | EIO | ENOENT | ENOTDIR | Rejected | Abort

  datatype Answer<+T> = Fine(value: T) | Failed(error: Error)

  /** Room for one byte of payload in a write message. */
  const MIN_MESSAGE: nat := 24

  /** The limit on a node's messages after an open that reported iounit; 0 is no report. */
  function NewLimit(limit: nat, iounit: nat): nat {
    if 0 < iounit < limit then iounit else limit
  }

  /** The limit becomes the least of itself and what the server reports, if that is not 0; so it
      stays workable exactly if the server reports nothing or something workable. */
  lemma LimitStaysWorkable(limit: nat, iounit: nat)
    requires 24 <= limit
    ensures NewLimit(limit, iounit) <= limit && (iounit > 0 ==> NewLimit(limit, iounit) <= iounit)
    ensures NewLimit(limit, iounit) == limit || NewLimit(limit, iounit) == iounit
    ensures MIN_MESSAGE <= NewLimit(limit, iounit) <= limit <==> iounit == 0 || iounit >= MIN_MESSAGE
  {
    if 0 < iounit < MIN_MESSAGE {
      assert NewLimit(limit, iounit) == iounit;
    }
  }

  predicate Tables(protids: map<nat, Protid>, opens: map<nat, Peropen>, nextId: nat, maxMessage: nat) {
    && (forall p :: p in protids ==> p < nextId && protids[p].walk != NO_FID && protids[p].po in opens)
    && (forall o :: o in opens ==> o < nextId && MIN_MESSAGE <= opens[o].limit <= maxMessage)
  }

  /** Nothing about the old descriptions changes, but that their limits may shrink. */
  predicate OnlyLimitsShrink(was: map<nat, Peropen>, now: map<nat, Peropen>) {
    forall o :: o in was ==> o in now && now[o].limit <= was[o].limit && now[o] == was[o].(limit := now[o].limit)
  }

  /** The descriptions after an open for description o reported iounit. */
  function Limited(opens: map<nat, Peropen>, o: nat, iounit: nat): map<nat, Peropen>
    requires o in opens
  {
    opens[o := opens[o].(limit := NewLimit(opens[o].limit, iounit))]
  }

  lemma SameLimit(was: map<nat, Peropen>, now: map<nat, Peropen>, o: nat, iounit: nat)
    requires o in was && now == if 0 < iounit < was[o].limit then was[o := was[o].(limit := iounit)] else was
    ensures now == Limited(was, o, iounit)
  {
  }

  lemma LimitStep(protids: map<nat, Protid>, opens: map<nat, Peropen>, nextId: nat, maxMessage: nat, o: nat,
                  iounit: nat)
    requires o in opens && Tables(protids, opens, nextId, maxMessage)
    requires iounit == 0 || iounit >= MIN_MESSAGE
    ensures var now := Limited(opens, o, iounit);
      Tables(protids, now, nextId, maxMessage) && now.Keys == opens.Keys && OnlyLimitsShrink(opens, now)
  {
  }

  lemma EntryStep(protids: map<nat, Protid>, opens: map<nat, Peropen>, nextId: nat, maxMessage: nat, p: nat, to: Protid)
    requires p in protids && Tables(protids, opens, nextId, maxMessage)
    requires to.walk == protids[p].walk && to.po == protids[p].po
    ensures Tables(protids[p := to], opens, nextId, maxMessage)
  {
  }

  lemma TableEntry(protids: map<nat, Protid>, opens: map<nat, Peropen>, nextId: nat, maxMessage: nat, p: nat)
    requires p in protids && Tables(protids, opens, nextId, maxMessage)
    ensures p < nextId && protids[p].walk != NO_FID && protids[p].po in opens && OnlyLimitsShrink(opens, opens)
    ensures MIN_MESSAGE <= opens[protids[p].po].limit <= maxMessage
  {
  }

  lemma NewRows(protids: map<nat, Protid>, opens: map<nat, Peropen>, nextId: nat, maxMessage: nat, po: Peropen)
    requires Tables(protids, opens, nextId, maxMessage) && MIN_MESSAGE <= po.limit <= maxMessage
    ensures nextId !in opens && nextId + 1 !in protids && OnlyLimitsShrink(opens, opens[nextId := po])
    ensures Tables(protids, opens[nextId := po], nextId + 2, maxMessage)
    ensures forall f :: f != NO_FID ==>
      Tables(protids[nextId + 1 := Protid(f, NO_FID, {}, nextId)], opens[nextId := po], nextId + 2, maxMessage)
  {
  }

  /** What ensuring that an I/O fid is open for `flags` does to a protid and the live fids: nothing
      if it is open for them already; otherwise the I/O fid is replaced by a new one, at the cost
      of the old one even if that fails. */
  predicate Reopened(linux: bool, flags: set<Access>, was: Protid, now: Protid,
                     before: map<nat, Live>, after: map<nat, Live>, next: nat, next': nat, r: Answer<()>) {
    && now.walk == was.walk && now.po == was.po && next <= next' <= next + 1
    && after - {now.io} == before - {was.io}
    && if flags <= was.flags then r == Fine(()) && now == was && after == before
       else if (flags + was.flags) * {Read, Write} == {} then r == Failed(Abort) && now == was && after == before
       else
         && (now.io == NO_FID || now.io == next' == next + 1)
         && if r.Fine? then
              && now.flags == flags && now.io != NO_FID && now.io in after
              && after[now.io].open == Some(OpenMode(linux, flags, was.flags))
            else r == Failed(Rejected) && now.flags == {}
  }

  /** The part of the flags that the callers let through: O_ACCMODE is O_READ and O_WRITE. */
  function AccMode(flags: set<Access>): set<Access> {
    flags * {Read, Write}
  }

  lemma MaskedNeverAborts(flags: set<Access>, had: set<Access>)
    requires flags <= {Read, Write}
    ensures flags == {} || (flags + had) * {Read, Write} != {}
  {
    if flags != {} {
      var a :| a in flags;
      assert a in (flags + had) * {Read, Write};
    }
  }

  /** What opening a protid just made comes to. */
  lemma FirstOpened(linux: bool, flags: set<Access>, was: Protid, now: Protid,
                    before: map<nat, Live>, after: map<nat, Live>, next: nat, next': nat)
    requires Reopened(linux, AccMode(flags), was, now, before, after, next, next', Fine(()))
    requires was.io == NO_FID && was.flags == {} && was.walk != NO_FID && FidsUsable(linux, now, after)
    ensures OpenAsAsked(flags, now, after)
  {
    hide OpenMode;
    if Read in flags || Write in flags {
      assert AccMode(flags) != {} by {
        if Read in flags { assert Read in AccMode(flags); } else { assert Write in AccMode(flags); }
      }
      ModeProvides(linux, AccMode(flags), {});
    } else {
      assert AccMode(flags) == {};
    }
  }

  /** A protid for a newly attached root. */
  predicate NewRoot(root: Node, flags: set<Access>, p: Protid, live: map<nat, Live>, opens: map<nat, Peropen>,
                    limit: nat) {
    && p.walk in live && live[p.walk] == Live(root, None) && p.flags == AccMode(flags) && OpenAsAsked(flags, p, live)
    && p.po in opens && opens[p.po] == Peropen(root, limit, 0, flags, root)
  }

  /** The message limit of a node just opened. */
  function FirstLimit(maxMessage: nat, flags: set<Access>, reported: nat): nat {
    if AccMode(flags) == {} then maxMessage else NewLimit(maxMessage, reported)
  }

  /** The descriptions after the first open of description o. */
  function OpenedFirst(opens: map<nat, Peropen>, o: nat, flags: set<Access>, reported: nat): map<nat, Peropen>
    requires o in opens
  {
    if AccMode(flags) == {} then opens else Limited(opens, o, reported)
  }

  lemma LimitsStay(a: map<nat, Peropen>)
    ensures OnlyLimitsShrink(a, a)
  {
  }

  lemma ShrinkTwice(a: map<nat, Peropen>, b: map<nat, Peropen>, c: map<nat, Peropen>)
    requires OnlyLimitsShrink(a, b) && OnlyLimitsShrink(b, c)
    ensures OnlyLimitsShrink(a, c)
  {
  }

  lemma RootMade(root: Node, flags: set<Access>, before: map<nat, Live>, after: map<nat, Live>,
                 was: map<nat, Peropen>, now: map<nat, Peropen>, p: Protid, maxMessage: nat, reported: nat)
    requires p.walk in before && before[p.walk] == Live(root, None) && after - {p.io} == before
    requires p.flags == AccMode(flags) && p.po in was && was[p.po] == Peropen(root, maxMessage, 0, flags, root)
    requires OpenAsAsked(flags, p, after)
    requires now == OpenedFirst(was, p.po, flags, reported)
    ensures NewRoot(root, flags, p, after, now, FirstLimit(maxMessage, flags, reported))
  {
    assert p.walk in after - {p.io} && (after - {p.io})[p.walk] == after[p.walk];
  }

  /** The requests that removing a name makes: by name, in 9P2000.L, and if that is not supported
      or in the other protocols the removal of just the file that the name leads to. */
  predicate Removing(t: Tree, dir: Node, name: Name, isDir: bool, linux: bool, readonly: bool,
                     before: seq<(Change, Reply)>, after: seq<(Change, Reply)>, ok: bool) {
    var tried := if linux && !readonly then |before| + 1 else |before|;
    && before <= after && tried <= |after| <= tried + 1
    && (tried > |before| ==> after[|before|].0 == Unlink(dir, name, isDir))
    && (|after| > tried ==>
          && (tried > |before| ==> after[|before|].1 == Unsupported)
          && after[tried].0.Discard? && t.step(dir, name) == Some(after[tried].0.node))
    && (ok <==> |after| > |before| && after[|after| - 1].1 == Done)
  }

  class Client {
    const srv: FileServer
    const linux: bool          // 9P2000.L was negotiated
    const readonly: bool
    var next: nat              // the fid counter
    var protids: map<nat, Protid>
    var opens: map<nat, Peropen>
    var nextId: nat
    ghost var loose: set<nat>  // fids outside all protids: held by a lookup, or leaked by one

    ghost predicate Valid()
      reads this, srv
    {
      && Balanced(linux, protids, srv.live, loose, next)
      && Tables(protids, opens, nextId, srv.maxMessage)
      && MIN_MESSAGE <= srv.maxMessage
    }

    constructor (srv: FileServer, linux: bool, readonly: bool)
      requires srv.live == map[] && MIN_MESSAGE <= srv.maxMessage
      ensures Valid() && loose == {}
      ensures this.srv == srv && this.linux == linux && this.readonly == readonly
    {
      this.srv, this.linux, this.readonly := srv, linux, readonly;
      next, protids, opens, nextId, loose := 0, map[], map[], 0, {};
    }

    /** The first fid is 1; the counter must not reach NO_FID. */
    method AllocFid() returns (f: nat)
      requires next + 1 < NO_FID
      modifies this`next
      ensures next == old(next) + 1 && f == next
    {
      next := next + 1;
      f := next;
    }

    /** Gives up the I/O fid, if there is one, whether or not the server complains. */
    method CloseIo(p: nat)
      requires p in protids && Valid()
      modifies this`protids, srv`live
      ensures protids == old(protids)[p := old(protids)[p].(io := NO_FID, flags := {})]
      ensures srv.live == old(srv.live) - {old(protids)[p].io}
      ensures Valid()
    {
      hide Balanced, FidsUsable;
      Entry(linux, protids, srv.live, loose, next, p);
      var pi := protids[p];
      if pi.io != NO_FID {
        GiveUpIo(linux, protids, srv.live, loose, next, p);
        var clunked := srv.Clunk(pi.io);
        protids := protids[p := pi.(io := NO_FID, flags := {})];
      }
    }

    /** Topen or Tlopen of a fid for p's file; the reply may lower the node's message limit. */
    method OpenFid(p: nat, f: nat, mode: set<Access>) returns (granted: bool)
      requires p in protids && protids[p].po in opens && Tables(protids, opens, nextId, srv.maxMessage)
      requires f in srv.live && srv.live[f].open.None?
      modifies this`opens, srv`live, srv`reported, srv`refused
      ensures srv.refused == old(srv.refused) + if granted then 0 else 1
      ensures srv.live == if granted then old(srv.live)[f := Live(old(srv.live)[f].node, Some(mode))] else old(srv.live)
      ensures opens == if granted then Limited(old(opens), protids[p].po, srv.reported) else old(opens)
      ensures OnlyLimitsShrink(old(opens), opens) && Tables(protids, opens, nextId, srv.maxMessage)
    {
      hide Tables, OnlyLimitsShrink, NewLimit;
      ghost var opens0 := opens;
      LimitsStay(opens);
      var iounit;
      granted, iounit := srv.Open(f, mode);
      if granted {
        LimitStep(protids, opens, nextId, srv.maxMessage, protids[p].po, iounit);
        var po := opens[protids[p].po];
        if 0 < iounit < po.limit {
          opens := opens[protids[p].po := po.(limit := iounit)];
        }
        SameLimit(opens0, opens, protids[p].po, iounit);
      }
    }

    /** Opens a clone of the walk fid to be the new I/O fid. */
    method OpenIo(p: nat, mode: set<Access>, flags: set<Access>) returns (r: Answer<()>)
      requires p in protids && next + 1 < NO_FID && Valid()
      requires protids[p].io == NO_FID
      requires Meets(linux, flags, mode)
      modifies this`next, this`protids, this`opens, srv`live, srv`walks, srv`reported, srv`refused
      ensures srv.refused == old(srv.refused) + if r.Fine? then 0 else 1
      ensures next == old(next) + 1 && srv.walks == old(srv.walks) + [[]]
      ensures p in protids && protids == old(protids)[p := protids[p]]
      ensures protids[p] == old(protids)[p].(io := protids[p].io, flags := if r.Fine? then flags else {})
      ensures protids[p].po in old(opens) && OnlyLimitsShrink(old(opens), opens)
      ensures opens == if r.Fine? then Limited(old(opens), protids[p].po, srv.reported) else old(opens)
      ensures protids[p].io == NO_FID ==> srv.live == old(srv.live)
      ensures protids[p].io != NO_FID ==>
        && protids[p].io == next && protids[p].walk in old(srv.live)
        && srv.live == old(srv.live)[next :=
             Live(old(srv.live)[protids[p].walk].node, if r.Fine? then Some(mode) else None)]
      ensures r == if r.Fine? then Fine(()) else Failed(Rejected)
      ensures r.Fine? ==> protids[p].io != NO_FID
      ensures Valid()
    {
      hide Balanced, FidsUsable, Meets, OnlyLimitsShrink, Tables, NewLimit, Limited;
      TableEntry(protids, opens, nextId, srv.maxMessage, p);
      ghost var ps, live := protids, srv.live;
      Entry(linux, ps, live, loose, next, p);
      FreshFids(linux, ps, live, loose, next);
      var newFid := AllocFid();
      var ok := srv.Clone(protids[p].walk, newFid);
      if !ok {
        Later(linux, ps, live, loose, newFid - 1, newFid);
        return Failed(Rejected);
      }
      var to := protids[p].(io := newFid);
      EntryStep(ps, opens, nextId, srv.maxMessage, p, to);
      protids := protids[p := to];
      var granted := OpenFid(p, newFid, mode);
      if granted {
        to := to.(flags := to.flags + flags);
        assert {} + flags == flags;
        EntryStep(protids, opens, nextId, srv.maxMessage, p, to);
        protids := protids[p := to];
      }
      assert protids == ps[p := to];
      TakeIo(linux, ps, live, loose, newFid - 1, p, newFid, srv.live[newFid], if granted then flags else {});
      assert srv.live == live[newFid := srv.live[newFid]];
      return if granted then Fine(()) else Failed(Rejected);
    }

    /** p9_ensure_open. It fails only by an error of the server, or an assertion. */
    method EnsureOpen(p: nat, flags: set<Access>) returns (r: Answer<()>)
      requires p in protids && next + 1 < NO_FID && Valid()
      modifies this`next, this`protids, this`opens, srv`live, srv`walks, srv`reported, srv`refused
      ensures srv.refused == old(srv.refused) + if r == Failed(Rejected) then 1 else 0
      ensures p in protids && protids == old(protids)[p := protids[p]]
      ensures protids[p].po in old(opens) && opens.Keys == old(opens.Keys) && OnlyLimitsShrink(old(opens), opens)
      ensures opens ==
        if r.Fine? && !(flags <= old(protids)[p].flags) then Limited(old(opens), protids[p].po, srv.reported)
        else old(opens)
      ensures Reopened(linux, flags, old(protids)[p], protids[p], old(srv.live), srv.live, old(next), next, r)
      ensures r.Fine? && !(flags <= old(protids)[p].flags) ==>
        && protids[p].io in srv.live && srv.live[protids[p].io].open.Some?
        && Provides(linux, flags, old(protids)[p].flags, srv.live[protids[p].io].open.value)
      ensures srv.walks == old(srv.walks) || srv.walks == old(srv.walks) + [[]]
      ensures Valid()
    {
      hide Balanced, FidsUsable, OpenMode, Meets, OnlyLimitsShrink, Tables, Provides;
      TableEntry(protids, opens, nextId, srv.maxMessage, p);
      var pi := protids[p];
      Entry(linux, protids, srv.live, loose, next, p);
      FreshFids(linux, protids, srv.live, loose, next);
      if flags <= pi.flags { return Fine(()); }
      if (flags + pi.flags) * {Read, Write} == {} { return Failed(Abort); }
      if pi.walk == NO_FID { return Failed(EBADF); }
      CloseIo(p);
      ModeCovers(linux, flags, pi.flags);
      ModeProvides(linux, flags, pi.flags);
      r := OpenIo(p, OpenMode(linux, flags, pi.flags), flags);
      assert srv.live - {protids[p].io} == old(srv.live) - {pi.io};
    }

    /** What a rewind of a directory does first: it forgets what the I/O fid is open for, so that
        the fid is replaced by one at offset 0. */
    method Rewind(p: nat) returns (r: Answer<()>)
      requires p in protids && next + 1 < NO_FID && Valid()
      modifies this`next, this`protids, this`opens, srv`live, srv`walks, srv`reported, srv`refused
      ensures next <= old(next) + 1 && (r.Fine? || r == Failed(Rejected))
      ensures srv.refused == old(srv.refused) + if r.Fine? then 0 else 1
      ensures p in protids && protids == old(protids)[p := protids[p]] && protids[p].flags <= {Read}
      ensures protids[p].walk == old(protids)[p].walk && protids[p].po == old(protids)[p].po
      ensures OnlyLimitsShrink(old(opens), opens)
      ensures r.Fine? ==> protids[p].io == next == old(next) + 1 && protids[p].flags == {Read} && next in srv.live
      ensures r.Fine? ==> srv.live[next].open == Some({Read})
      ensures srv.live - {protids[p].io} == old(srv.live) - {old(protids)[p].io}
      ensures Valid()
    {
      hide Balanced, FidsUsable, Covered, Tables, OnlyLimitsShrink;
      ForgetFlags(linux, protids, srv.live, loose, next, p);
      EntryStep(protids, opens, nextId, srv.maxMessage, p, protids[p].(flags := {}));
      protids := protids[p := protids[p].(flags := {})];
      r := EnsureOpen(p, {Read});
      assert Read in ({Read} + {}) * {Read, Write};
      assert {Read} + {} - {Exec} == {Read};
    }

    /** The end of a protid: both its fids are clunked, whatever the server answers. */
    method Release(p: nat)
      requires p in protids && Valid()
      modifies this`protids, srv`live
      ensures protids == old(protids) - {p}
      ensures srv.live == old(srv.live) - {old(protids)[p].walk, old(protids)[p].io}
      ensures Valid()
    {
      hide Balanced, FidsUsable;
      Entry(linux, protids, srv.live, loose, next, p);
      GiveUpAll(linux, protids, srv.live, loose, next, p);
      var pi := protids[p];
      if pi.walk != NO_FID {
        var clunked := srv.Clunk(pi.walk);
      }
      if pi.io != NO_FID {
        var clunked := srv.Clunk(pi.io);
      }
      protids := protids - {p};
      assert srv.live == old(srv.live) - {pi.walk, pi.io};
    }

    /** A description and a protid for it, still without fids. */
    method MakeProtid(flags: set<Access>, rootPath: Node) returns (q: nat)
      modifies this`opens, this`protids, this`nextId
      ensures nextId == old(nextId) + 2 && q == old(nextId) + 1
      ensures protids == old(protids)[q := Protid(NO_FID, NO_FID, {}, old(nextId))]
      ensures opens == old(opens)[old(nextId) := Peropen(0, srv.maxMessage, 0, flags, rootPath)]
    {
      var o := nextId;
      q := nextId + 1;
      nextId := nextId + 2;
      opens := opens[o := Peropen(0, srv.maxMessage, 0, flags, rootPath)];
      protids := protids[q := Protid(NO_FID, NO_FID, {}, o)];
    }

    /** Opens a protid just made, and releases it again if that fails. */
    method EnsureFirstOpen(q: nat, flags: set<Access>) returns (r: Answer<nat>)
      requires q in protids && Valid() && next + 1 < NO_FID
      requires protids[q].io == NO_FID && protids[q].flags == {}
      modifies this`next, this`protids, this`opens, srv`live, srv`walks, srv`reported, srv`refused
      ensures srv.refused == old(srv.refused) + if r.Fine? then 0 else 1
      ensures old(next) <= next <= old(next) + 1 && OnlyLimitsShrink(old(opens), opens)
      ensures old(protids)[q].po in old(opens)
      ensures r == Fine(q) || r == Failed(Rejected)
      ensures r.Fine? ==> opens == OpenedFirst(old(opens), old(protids)[q].po, flags, srv.reported)
      ensures r.Failed? ==> protids == old(protids) - {q} && srv.live == old(srv.live) - {old(protids)[q].walk}
      ensures r.Fine? ==> q in protids && protids == old(protids)[q := protids[q]]
      ensures r.Fine? ==>
        && protids[q].walk == old(protids)[q].walk && protids[q].po == old(protids)[q].po
        && protids[q].flags == AccMode(flags) && OpenAsAsked(flags, protids[q], srv.live)
      ensures r.Fine? ==> srv.live - {protids[q].io} == old(srv.live) && protids[q].walk != protids[q].io
      ensures srv.walks == old(srv.walks) || srv.walks == old(srv.walks) + [[]]
      ensures Valid()
    {
      hide Balanced, FidsUsable, Covered, OnlyLimitsShrink, Tables, Limited;
      Entry(linux, protids, srv.live, loose, next, q);
      TableEntry(protids, opens, nextId, srv.maxMessage, q);
      MaskedNeverAborts(AccMode(flags), {});
      hide AccMode;
      ghost var live0 := srv.live;
      assert live0 - {NO_FID} == live0 && AccMode(flags) + {} == AccMode(flags);
      ghost var was, next0 := protids[q], next;
      var opening := EnsureOpen(q, AccMode(flags));
      Entry(linux, protids, srv.live, loose, next, q);
      if opening.Fine? {
        FirstOpened(linux, flags, was, protids[q], live0, srv.live, next0, next);
        return Fine(q);
      }
      ghost var live1, pi := srv.live, protids[q];
      Release(q);
      assert live1 - {pi.walk, pi.io} == (live1 - {pi.io}) - {pi.walk};
      r := Failed(opening.error);
    }

    /** The first fid of an attach, or no trace of it. */
    method Attach(flags: set<Access>) returns (r: Answer<nat>)
      requires Valid() && next + 1 < NO_FID
      modifies this`next, this`protids, this`opens, this`nextId, srv`live, srv`refused
      ensures srv.refused == old(srv.refused) + if r.Fine? then 0 else 1
      ensures next == old(next) + 1 && OnlyLimitsShrink(old(opens), opens)
      ensures r.Failed? ==> r == Failed(Rejected) && protids == old(protids) && srv.live == old(srv.live)
      ensures r.Fine? ==>
        && r.value > old(nextId) && r.value !in old(protids) && next !in old(srv.live)
        && protids == old(protids)[r.value := Protid(next, NO_FID, {}, r.value - 1)]
        && srv.live == old(srv.live)[next := Live(srv.tree.root, None)]
        && opens == old(opens)[r.value - 1 := Peropen(srv.tree.root, srv.maxMessage, 0, flags, srv.tree.root)]
      ensures Valid()
    {
      hide Balanced, FidsUsable, Covered, Tables, OnlyLimitsShrink;
      ghost var ps, live, was := protids, srv.live, opens;
      NewRows(ps, was, nextId, srv.maxMessage, Peropen(0, srv.maxMessage, 0, flags, 0));
      NewRows(ps, was, nextId, srv.maxMessage, Peropen(srv.tree.root, srv.maxMessage, 0, flags, srv.tree.root));
      var q := MakeProtid(flags, 0);
      var o := q - 1;
      var f := AllocFid();
      protids := protids[q := protids[q].(walk := f)];
      FreshFids(linux, ps, live, loose, f - 1);
      var ok, path := srv.Attach(f);
      if !ok {
        protids := protids[q := protids[q].(walk := NO_FID)];
        protids := protids - {q};
        Later(linux, ps, live, loose, f - 1, f);
        assert protids == ps;
        return Failed(Rejected);
      }
      opens := opens[o := opens[o].(path := path, rootPath := path)];
      assert opens == was[o := Peropen(path, srv.maxMessage, 0, flags, path)];
      NewEntry(linux, ps, live, loose, f - 1, q, f, Live(path, None), o);
      assert protids == ps[q := Protid(f, NO_FID, {}, o)];
      r := Fine(q);
    }

    /** Attaches to the server and opens the root; on failure nothing remains of the attempt. */
    method GetRoot(flags: set<Access>) returns (r: Answer<nat>)
      requires Valid() && next + 2 < NO_FID
      modifies this`next, this`protids, this`opens, this`nextId, srv`live, srv`walks, srv`reported, srv`refused
      ensures srv.refused == old(srv.refused) + if r == Failed(Rejected) then 1 else 0
      ensures next <= old(next) + 2 && OnlyLimitsShrink(old(opens), opens)
      ensures readonly && Write in flags <==> r == Failed(EROFS)
      ensures r.Failed? ==> r.error in {EROFS, Rejected}
      ensures r.Failed? ==> protids == old(protids) && srv.live == old(srv.live)
      ensures r.Fine? ==>
        r.value !in old(protids) && r.value in protids && protids == old(protids)[r.value := protids[r.value]]
      ensures r.Fine? ==> srv.live - {protids[r.value].walk, protids[r.value].io} == old(srv.live)
      ensures r.Fine? ==>
        NewRoot(srv.tree.root, flags, protids[r.value], srv.live, opens,
                FirstLimit(srv.maxMessage, flags, srv.reported))
      ensures Valid()
    {
      hide Balanced, FidsUsable, Covered, Tables, NewRoot, Limited, FirstLimit, OnlyLimitsShrink, AccMode, OpenedFirst;
      LimitsStay(opens);
      if readonly && Write in flags { return Failed(EROFS); }
      r := Attach(flags);
      if r.Failed? { return; }
      ghost var live, was := srv.live, opens;
      var q := r.value;
      r := EnsureFirstOpen(q, flags);
      ShrinkTwice(old(opens), was, opens);
      if r.Fine? {
        RootMade(srv.tree.root, flags, live, srv.live, was, opens, protids[q], srv.maxMessage, srv.reported);
        assert srv.live - {protids[q].walk, protids[q].io} == (srv.live - {protids[q].io}) - {protids[q].walk};
      }
    }

    /** Another protid for the same open file, if the user could be authenticated. */
    method Reauthenticate(p: nat, proved: bool) returns (r: Answer<nat>)
      requires p in protids && Valid() && next + 1 < NO_FID
      modifies this`next, this`protids, this`nextId, srv`live, srv`walks, srv`refused
      ensures next <= old(next) + 1 && (r.Fine? || r == Failed(Rejected))
      ensures srv.refused == old(srv.refused) + if proved && r.Failed? then 1 else 0
      ensures !proved ==> r.Failed?
      ensures r.Failed? ==> protids == old(protids) && srv.live == old(srv.live)
      ensures r.Fine? ==>
        && r.value !in old(protids) && next !in old(srv.live) && old(protids)[p].walk in old(srv.live)
        && protids == old(protids)[r.value := Protid(next, NO_FID, {}, old(protids)[p].po)]
        && srv.live == old(srv.live)[next := Live(old(srv.live)[old(protids)[p].walk].node, None)]
      ensures Valid()
    {
      hide Balanced, FidsUsable, Covered;
      ghost var ps, live := protids, srv.live;
      Entry(linux, ps, live, loose, next, p);
      FreshFids(linux, ps, live, loose, next);
      var po := protids[p].po;
      var q := nextId;
      nextId := nextId + 1;
      protids := protids[q := Protid(NO_FID, NO_FID, {}, po)];
      r := if proved then Fine(q) else Failed(Rejected);
      if proved && protids[p].walk != NO_FID {
        var f := AllocFid();
        var ok := srv.Clone(protids[p].walk, f);
        if ok {
          protids := protids[q := protids[q].(walk := f)];
          NewEntry(linux, ps, live, loose, f - 1, q, f, srv.live[f], po);
          assert protids == ps[q := Protid(f, NO_FID, {}, po)];
        } else {
          Later(linux, ps, live, loose, f - 1, f);
          r := Failed(Rejected);
        }
      }
      if r.Failed? {
        // Dropping the last reference; there is no fid to clunk.
        protids := protids - {q};
        assert protids == ps;
      }
    }

    /** Makes a directory. The older protocols create it with a fid that is used once. */
    method Mkdir(p: nat, name: Name) returns (r: Answer<()>)
      requires p in protids && Valid() && next + 1 < NO_FID
      modifies this`next, srv`live, srv`walks, srv`changes, srv`refused
      ensures next <= old(next) + 1 && srv.live == old(srv.live)
      ensures r == Failed(EROFS) <==> readonly
      ensures r.Fine? || r == Failed(EROFS) || r == Failed(Rejected)
      ensures old(srv.refused) <= srv.refused <= old(srv.refused) + 1
      ensures r == Failed(Rejected) <==>
        || srv.refused > old(srv.refused)
        || (|srv.changes| > |old(srv.changes)| && srv.changes[|old(srv.changes)|].1 == Unsupported)
      ensures protids[p].walk in srv.live && old(srv.changes) <= srv.changes && |srv.changes| <= |old(srv.changes)| + 1
      ensures r.Fine? <==> |srv.changes| > |old(srv.changes)| && srv.changes[|old(srv.changes)|].1 == Done
      ensures forall k :: |old(srv.changes)| <= k < |srv.changes| ==>
        srv.changes[k].0 == MakeDir(srv.live[protids[p].walk].node, name)
      ensures Valid()
    {
      hide Balanced, FidsUsable, Covered;
      Entry(linux, protids, srv.live, loose, next, p);
      FreshFids(linux, protids, srv.live, loose, next);
      if readonly { return Failed(EROFS); }
      if linux {
        var reply := srv.Ask(protids[p].walk, MakeDir(srv.live[protids[p].walk].node, name));
        return if reply.Done? then Fine(()) else Failed(Rejected);
      }
      var f := AllocFid();
      Later(linux, protids, srv.live, loose, f - 1, f);
      var ok := srv.Clone(protids[p].walk, f);
      if !ok { return Failed(Rejected); }
      var made := srv.Create(f, name);
      var clunked := srv.Clunk(f);
      assert srv.live == old(srv.live);
      r := if made then Fine(()) else Failed(Rejected);
    }

    /** Removes a name from a directory, whether it names a directory or not. A server of
        9P2000.L that cannot do so by name is treated like one of the older protocols: walk to
        the file and remove that, which ends the new fid in any case. */
    method RemoveName(p: nat, name: Name, isDir: bool) returns (r: Answer<()>)
      requires p in protids && Valid() && next + 1 < NO_FID
      modifies this`next, srv`live, srv`walks, srv`changes, srv`refused
      ensures next <= old(next) + 1 && srv.live == old(srv.live)
      ensures r == Failed(EROFS) <==> readonly
      ensures r.Fine? || r == Failed(EROFS) || r == Failed(Rejected)
      ensures srv.refused == old(srv.refused) + if r == Failed(Rejected) then 1 else 0
      ensures protids[p].walk in srv.live
      ensures Removing(srv.tree, srv.live[protids[p].walk].node, name, isDir, linux, readonly,
                                                      old(srv.changes), srv.changes, r.Fine?)
      ensures Valid()
    {
      hide Balanced, FidsUsable, Covered;
      Entry(linux, protids, srv.live, loose, next, p);
      FreshFids(linux, protids, srv.live, loose, next);
      if readonly { return Failed(EROFS); }
      if linux {
        var reply := srv.Ask(protids[p].walk, Unlink(srv.live[protids[p].walk].node, name, isDir));
        if !reply.Unsupported? {
          return if reply.Done? then Fine(()) else Failed(Rejected);
        }
      }
      var f := AllocFid();
      Later(linux, protids, srv.live, loose, f - 1, f);
      var ok, qids := srv.Walk(protids[p].walk, f, [name]);
      if !ok { return Failed(Rejected); }
      OneStep(srv.tree, srv.live[protids[p].walk].node, name);
      assert qids == [qids[0]] && Resolve(srv.tree, srv.live[protids[p].walk].node, [name], 0 + 1) == Some(qids[0]);
      var removed := srv.Remove(f);
      assert srv.live == old(srv.live);
      r := if removed then Fine(()) else Failed(Rejected);
    }
  }
}
