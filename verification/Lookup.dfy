// Looking up a path: a scan for its components fused with walks of at most sixteen names each.
// The O_CREAT half of the operation is not modelled.
module Lookup {
  import opened Bytes
  import opened Paths
  import opened Server
  import opened Ledger
  import opened Fids

  datatype Outcome = Found(protid: nat) | Reauth(retryName: Name) | Stopped(error: Error)

  function Flat(walks: seq<seq<Name>>): seq<Name> {
    if walks == [] then [] else walks[0] + Flat(walks[1..])
  }

  lemma {:induction false} FlatAppend(walks: seq<seq<Name>>, names: seq<Name>)
    ensures Flat(walks + [names]) == Flat(walks) + names
  {
    if walks == [] {
      OneTail(names);
      assert walks + [names] == [names];
    } else {
      FlatAppend(walks[1..], names);
      DropHead(walks, [names]);
    }
  }

  /** The walks between two points in time asked for these names, one after the other. */
  ghost predicate Asked(before: seq<seq<Name>>, after: seq<seq<Name>>, names: seq<Name>) {
    exists walks :: after == before + walks && Flat(walks) == names
  }

  lemma AskedNothing(before: seq<seq<Name>>)
    ensures Asked(before, before, [])
  {
    assert before == before + [] && Flat([]) == [];
  }

  lemma AskedMore(before: seq<seq<Name>>, after: seq<seq<Name>>, names: seq<Name>, more: seq<Name>)
    requires Asked(before, after, names)
    ensures Asked(before, after + [more], names + more)
  {
    var walks :| after == before + walks && Flat(walks) == names;
    FlatAppend(walks, more);
    Assoc(before, walks, [more]);
  }

  // ---- What a lookup should do, stated on the components ----

  /** Component j is a step from the root to its parent, and the walk gets that far. */
  predicate EscapeAt(t: Tree, start: Node, root: Node, comps: seq<Name>, j: int) {
    && 0 <= j < |comps| && comps[j] == DOTDOT
    && Resolve(t, start, comps, j) == Some(root) && Resolve(t, start, comps, j + 1).Some?
  }

  /** The lookup looks at the replies to one walk at a time, past the first component of each. */
  predicate SeenAt(t: Tree, start: Node, root: Node, comps: seq<Name>, j: int) {
    j % MAX_NAMES != 0 && EscapeAt(t, start, root, comps, j)
  }

  predicate NoneSeen(t: Tree, start: Node, root: Node, comps: seq<Name>, below: int) {
    forall j :: 0 <= j < below ==> !SeenAt(t, start, root, comps, j)
  }

  /** Resolution gets to component k but not past it. */
  predicate StopsAt(t: Tree, start: Node, comps: seq<Name>, k: int) {
    0 <= k < |comps| && Resolve(t, start, comps, k).Some? && Resolve(t, start, comps, k + 1).None?
  }

  /** Nothing can be seen where resolution did not get. */
  lemma NoneSeenBeyond(t: Tree, start: Node, root: Node, comps: seq<Name>, k: nat)
    requires StopsAt(t, start, comps, k) && NoneSeen(t, start, root, comps, k)
    ensures NoneSeen(t, start, root, comps, |comps|)
  {
    forall j | k <= j < |comps| ensures !EscapeAt(t, start, root, comps, j) {
      if Resolve(t, start, comps, j + 1).Some? {
        ResolvedPrefix(t, start, comps, k + 1, j + 1);
        assert false;
      }
    }
  }

  // ---- One walk ----

  /** The replies to a walk from `at` say what each name leads to, as far as the walk got. */
  predicate Replies(t: Tree, at: Node, names: seq<Name>, qids: seq<Node>)
    requires |qids| <= |names|
  {
    && (forall i :: 0 <= i < |qids| ==> Resolve(t, at, names, i + 1) == Some(qids[i]))
    && (|qids| < |names| ==> Resolve(t, at, names, |qids| + 1).None?)
  }

  /** The lookup holds fid f for the node reached, beside what was there at the beginning. */
  predicate Holding(walk: nat, f: nat, at: Node, live0: map<nat, Live>, loose0: set<nat>, live: map<nat, Live>,
                    loose: set<nat>) {
    walk in live0 &&
    if f == walk then live == live0 && loose == loose0 && live0[f].node == at
    else f !in live0 && f !in loose0 && live == live0[f := Live(at, None)] && loose == loose0 + {f}
  }

  /** Clunks a fid the lookup holds. */
  method LetGo(c: Client, f: nat)
    requires c.Valid() && f in c.loose
    modifies c`loose, c.srv`live
    ensures c.loose == old(c.loose) - {f} && c.srv.live == old(c.srv.live) - {f}
    ensures c.Valid()
  {
    hide Balanced, Tables;
    LooseIsLive(c.linux, c.protids, c.srv.live, c.loose, c.next, f);
    DropExtra(c.linux, c.protids, c.srv.live, c.loose, c.next, f);
    var clunked := c.srv.Clunk(f);
    c.loose := c.loose - {f};
  }

  /** Walks on from prev to a new fid and gives prev up, unless it belongs to the protid. */
  method WalkOn(c: Client, p: nat, prev: nat, names: seq<Name>, ghost at: Node, ghost live0: map<nat, Live>,
                ghost loose0: set<nat>)
    returns (ok: bool, qids: seq<Node>, f: nat)
    requires p in c.protids && c.next + 1 < NO_FID && |names| <= MAX_NAMES && c.Valid()
    requires Holding(c.protids[p].walk, prev, at, live0, loose0, c.srv.live, c.loose)
    modifies c`next, c`loose, c.srv`live, c.srv`walks, c.srv`refused
    ensures c.next == old(c.next) + 1 && f == c.next && c.srv.walks == old(c.srv.walks) + [names]
    ensures c.srv.refused == old(c.srv.refused) + if ok then 0 else 1
    ensures !ok && !c.srv.faulty ==> names != [] && Resolve(c.srv.tree, at, names, 1).None?
    ensures ok ==> |qids| <= |names| && (names != [] ==> qids != [])
    ensures ok ==> Replies(c.srv.tree, at, names, qids)
    ensures
      if ok && |qids| == |names| then
        && f != c.protids[p].walk && f in c.loose
        && Holding(c.protids[p].walk, f, if qids == [] then at else qids[|qids| - 1],
                   live0, loose0, c.srv.live, c.loose)
      else
        c.srv.live == live0 && c.loose == loose0
    ensures c.Valid()
  {
    hide Balanced, FidsUsable, Tables;
    var walk := c.protids[p].walk;
    Entry(c.linux, c.protids, c.srv.live, c.loose, c.next, p);
    FreshFids(c.linux, c.protids, c.srv.live, c.loose, c.next);
    f := c.AllocFid();
    ghost var live1, loose1 := c.srv.live, c.loose;
    ok, qids := c.srv.Walk(prev, f, names);
    if ok && |qids| == |names| {
      AddExtra(c.linux, c.protids, live1, loose1, f - 1, f, c.srv.live[f]);
      c.loose := c.loose + {f};
    } else {
      Later(c.linux, c.protids, live1, loose1, f - 1, f);
    }
    if prev != walk {
      LetGo(c, prev);
      assert live1 - {prev} == live0 && loose1 - {prev} == loose0;
      assert live1[f := Live(at, None)] - {prev} == live0[f := Live(at, None)];
    }
    assert c.loose == (if ok && |qids| == |names| then loose0 + {f} else loose0);
    ghost var end := if qids == [] then at else qids[|qids| - 1];
    assert c.srv.live == if ok && |qids| == |names| then live0[f := Live(end, None)] else live0;
  }

  // ---- What the replies say ----

  /** The replies to one walk, placed in the whole path. */
  lemma Lifted(t: Tree, start: Node, comps: seq<Name>, base: nat, n: nat, at: Node, qids: seq<Node>)
    requires base + n <= |comps| && Resolve(t, start, comps, base) == Some(at) && |qids| <= n
    requires Replies(t, at, comps[base..base + n], qids)
    ensures forall i :: 0 <= i < |qids| ==> Resolve(t, start, comps, base + i + 1) == Some(qids[i])
  {
    forall i | 0 <= i < |qids| ensures Resolve(t, start, comps, base + i + 1) == Some(qids[i]) {
      ResolveFrom(t, start, comps, base, base + n, i + 1);
    }
  }

  /** One reply says that the walk stepped out of the root. */
  predicate StepsOut(name: Name, parts: seq<nat>, qids: seq<Node>, root: Node, i: int)
    requires Within(name, parts)
  {
    0 < i < |qids| && i < |parts| && PartAt(name, parts[i]) == DOTDOT && qids[i - 1] == root
  }

  lemma StepsOutIsEscape(t: Tree, start: Node, root: Node, comps: seq<Name>, base: nat, name: Name, parts: seq<nat>,
                         qids: seq<Node>, i: nat)
    requires Within(name, parts) && |qids| <= |parts| <= MAX_NAMES && base + |parts| <= |comps| && base % MAX_NAMES == 0
    requires PartsAt(name, parts) == comps[base..base + |parts|] && i < |qids|
    requires forall i :: 0 <= i < |qids| ==> Resolve(t, start, comps, base + i + 1) == Some(qids[i])
    ensures StepsOut(name, parts, qids, root, i) <==> SeenAt(t, start, root, comps, base + i)
  {
    assert comps[base + i] == PartsAt(name, parts)[i];
    assert Resolve(t, start, comps, base + i + 1) == Some(qids[i]);
    if i > 0 {
      assert Resolve(t, start, comps, base + (i - 1) + 1) == Some(qids[i - 1]);
    }
  }

  lemma NoneSeenNow(t: Tree, start: Node, root: Node, comps: seq<Name>, base: nat, name: Name, parts: seq<nat>,
                    qids: seq<Node>, m: nat)
    requires Within(name, parts) && |qids| <= |parts| <= MAX_NAMES && base + |parts| <= |comps| && base % MAX_NAMES == 0
    requires PartsAt(name, parts) == comps[base..base + |parts|] && m <= |qids|
    requires forall i :: 0 <= i < |qids| ==> Resolve(t, start, comps, base + i + 1) == Some(qids[i])
    requires forall i :: 0 < i < m ==> !StepsOut(name, parts, qids, root, i)
    requires NoneSeen(t, start, root, comps, base)
    ensures NoneSeen(t, start, root, comps, base + m)
  {
    hide SeenAt;
    forall j | base <= j < base + m ensures !SeenAt(t, start, root, comps, j) {
      StepsOutIsEscape(t, start, root, comps, base, name, parts, qids, j - base);
    }
  }

  /** What remains of the path after the two dots at `at`, to be looked up elsewhere. */
  function After(name: Name, at: nat): Name {
    if at + 2 <= |name| then Stripped(name[at + 2..]) else []
  }

  /** The first step out of the root that can be seen is component j, and what follows it is retried. */
  predicate RetriesAt(t: Tree, start: Node, root: Node, name: Name, comps: seq<Name>, starts: seq<nat>, retryName: Name,
                      j: int) {
    && 0 <= j < |starts| && SeenAt(t, start, root, comps, j) && NoneSeen(t, start, root, comps, j)
    && retryName == After(name, starts[j])
  }

  /** The error for a walk that got to component k: it depends on what is there. */
  function Missing(t: Tree, start: Node, comps: seq<Name>, k: int): Error
    requires StopsAt(t, start, comps, k)
  {
    if t.isDir(Resolve(t, start, comps, k).value) then ENOENT else ENOTDIR
  }

  /** Whether a lookup may end like this, going by the components. */
  ghost predicate Ends(t: Tree, start: Node, root: Node, name: Name, comps: seq<Name>, starts: seq<nat>, faulty: bool,
                       o: Outcome) {
    match o
    case Reauth(retryName) => exists j :: RetriesAt(t, start, root, name, comps, starts, retryName, j)
    case Stopped(Rejected) =>
      || faulty
      || (NoneSeen(t, start, root, comps, |comps|) && exists k :: k % MAX_NAMES == 0 && StopsAt(t, start, comps, k))
    case Stopped(error) =>
      && NoneSeen(t, start, root, comps, |comps|)
      && exists k :: k % MAX_NAMES != 0 && StopsAt(t, start, comps, k) && error == Missing(t, start, comps, k)
    case Found(_) => false
  }

  lemma RefusedAtOnce(t: Tree, start: Node, root: Node, comps: seq<Name>, base: nat, n: nat, at: Node)
    requires 0 < n && base + n <= |comps| && base % MAX_NAMES == 0
    requires Resolve(t, start, comps, base) == Some(at) && Resolve(t, at, comps[base..base + n], 1).None?
    requires NoneSeen(t, start, root, comps, base)
    ensures StopsAt(t, start, comps, base) && NoneSeen(t, start, root, comps, |comps|)
  {
    hide Resolve, NoneSeen;
    ResolveFrom(t, start, comps, base, base + n, 1);
    NoneSeenBeyond(t, start, root, comps, base);
  }

  lemma NoMultiple(base: nat, k: nat)
    requires base % MAX_NAMES == 0 && 0 < k < MAX_NAMES
    ensures (base + k) % MAX_NAMES != 0
  {
  }

  lemma CutShort(t: Tree, start: Node, root: Node, name: Name, comps: seq<Name>, starts: seq<nat>, base: nat, n: nat,
                 at: Node, qids: seq<Node>)
    requires 0 < |qids| < n <= MAX_NAMES && base + n <= |comps| && base % MAX_NAMES == 0
    requires Resolve(t, start, comps, base) == Some(at) && Replies(t, at, comps[base..base + n], qids)
    requires Resolve(t, start, comps, base + |qids|) == Some(qids[|qids| - 1])
    requires NoneSeen(t, start, root, comps, base + |qids|)
    ensures Ends(t, start, root, name, comps, starts, false,
                 Stopped(if t.isDir(qids[|qids| - 1]) then ENOENT else ENOTDIR))
  {
    hide Resolve, NoneSeen, RetriesAt;
    var k := |qids|;
    ResolveFrom(t, start, comps, base, base + n, k + 1);
    NoneSeenBeyond(t, start, root, comps, base + k);
    NoMultiple(base, k);
    assert StopsAt(t, start, comps, base + k);
  }

  /** The position of the first step out of the root that the replies show. */
  method FindStepOut(name: Name, parts: seq<nat>, qids: seq<Node>, root: Node) returns (hit: Option<nat>)
    requires NulFree(name) && Within(name, parts) && |qids| <= |parts|
    ensures hit.None? ==> forall i :: 0 < i < |qids| ==> !StepsOut(name, parts, qids, root, i)
    ensures hit.Some? ==>
      StepsOut(name, parts, qids, root, hit.value) && hit.value < |parts| && PartAt(name, parts[hit.value]) == DOTDOT
    ensures hit.Some? ==> forall i :: 0 < i < hit.value ==> !StepsOut(name, parts, qids, root, i)
  {
    var i := 0;
    while i + 1 < |qids|
      invariant forall k :: 0 < k <= i && k < |qids| ==> !StepsOut(name, parts, qids, root, k)
      invariant i <= |qids|
    {
      var at := parts[i + 1];
      PartIsDotDot(name, at);
      if qids[i] == root
        && at + 2 <= |name| && name[at] == DOT && name[at + 1] == DOT && (at + 2 == |name| || name[at + 2] == SLASH)
      {
        return Some(i + 1);
      }
      i := i + 1;
    }
    return None;
  }

  lemma RetryFound(t: Tree, start: Node, root: Node, comps: seq<Name>, starts: seq<nat>, base: nat, name: Name,
                   parts: seq<nat>, qids: seq<Node>, i: nat)
    requires Within(name, parts) && |qids| <= |parts| <= MAX_NAMES && base + |parts| <= |comps| == |starts|
    requires base % MAX_NAMES == 0
    requires PartsAt(name, parts) == comps[base..base + |parts|] && parts == starts[base..base + |parts|]
    requires forall i :: 0 <= i < |qids| ==> Resolve(t, start, comps, base + i + 1) == Some(qids[i])
    requires 0 < i < |qids| && StepsOut(name, parts, qids, root, i) && forall k :: 0 < k < i ==>
      !StepsOut(name, parts, qids, root, k)
    requires NoneSeen(t, start, root, comps, base)
    ensures Ends(t, start, root, name, comps, starts, false, Reauth(After(name, parts[i])))
  {
    hide NoneSeen, SeenAt, PartsAt, PartAt, StepsOut, Resolve, Until, After, Within;
    NoneSeenNow(t, start, root, comps, base, name, parts, qids, i);
    StepsOutIsEscape(t, start, root, comps, base, name, parts, qids, i);
    assert parts[i] == starts[base + i];
    assert RetriesAt(t, start, root, name, comps, starts, After(name, parts[i]), base + i);
  }

  /** What the replies to one walk mean for the lookup; None if it can go on. More replies than names
      are an input/output error, whatever they say. */
  method Judge(t: Tree, name: Name, parts: seq<nat>, qids: seq<Node>, root: Node,
               ghost start: Node, ghost comps: seq<Name>, ghost starts: seq<nat>, ghost base: nat, ghost at: Node)
    returns (stop: Option<Outcome>)
    requires NulFree(name) && Within(name, parts) && |parts| <= MAX_NAMES && (parts != [] ==> qids != [])
    requires base + |parts| <= |comps| == |starts| && base % MAX_NAMES == 0
    requires PartsAt(name, parts) == comps[base..base + |parts|] && parts == starts[base..base + |parts|]
    requires Resolve(t, start, comps, base) == Some(at) && NoneSeen(t, start, root, comps, base)
    requires |qids| <= |parts| ==> Replies(t, at, comps[base..base + |parts|], qids)
    ensures stop == Some(Stopped(EIO)) <==> |qids| > |parts|
    ensures stop.Some? && |qids| <= |parts| ==> Ends(t, start, root, name, comps, starts, false, stop.value)
    ensures stop.Some? ==> qids != [] && (stop.value.Reauth? || |qids| != |parts|) && stop != Some(Stopped(Rejected))
    ensures stop.None? ==>
      && |qids| == |parts| && NoneSeen(t, start, root, comps, base + |parts|)
      && Resolve(t, start, comps, base + |parts|) == Some(if qids == [] then at else qids[|qids| - 1])
  {
    hide NoneSeen, PartsAt, PartAt, Ends, StepsOut, Resolve, Until, Replies;
    if |qids| > |parts| {
      return Some(Stopped(EIO));
    }
    Lifted(t, start, comps, base, |parts|, at, qids);
    assert qids != [] ==> Resolve(t, start, comps, base + (|qids| - 1) + 1) == Some(qids[|qids| - 1]);
    var hit := FindStepOut(name, parts, qids, root);
    if hit.Some? {
      var i := hit.value;
      PartIsDotDot(name, parts[i]);
      var retryName := StripSlashes(name[parts[i] + 2..]);
      RetryFound(t, start, root, comps, starts, base, name, parts, qids, i);
      return Some(Reauth(retryName));
    }
    NoneSeenNow(t, start, root, comps, base, name, parts, qids, |qids|);
    if |qids| < |parts| {
      CutShort(t, start, root, name, comps, starts, base, |parts|, at, qids);
      return Some(Stopped(if t.isDir(qids[|qids| - 1]) then ENOENT else ENOTDIR));
    }
    return None;
  }

  /** One round: the walk, the clunk of the fid before, and the look at the replies. */
  method Round(c: Client, p: nat, name: Name, parts: seq<nat>, prev: nat, root: Node,
               ghost start: Node, ghost comps: seq<Name>, ghost starts: seq<nat>, ghost base: nat,
               ghost at: Node, ghost live0: map<nat, Live>, ghost loose0: set<nat>)
    returns (stop: Option<Outcome>, f: nat, qids: seq<Node>)
    requires NulFree(name) && Within(name, parts) && |parts| <= MAX_NAMES
    requires base + |parts| <= |comps| == |starts| && base % MAX_NAMES == 0
    requires PartsAt(name, parts) == comps[base..base + |parts|] && parts == starts[base..base + |parts|]
    requires p in c.protids && c.next + 1 < NO_FID && c.Valid()
    requires Resolve(c.srv.tree, start, comps, base) == Some(at) && NoneSeen(c.srv.tree, start, root, comps, base)
    requires Holding(c.protids[p].walk, prev, at, live0, loose0, c.srv.live, c.loose)
    modifies c`next, c`loose, c.srv`live, c.srv`walks, c.srv`refused
    ensures c.next == old(c.next) + 1 && c.srv.walks == old(c.srv.walks) + [comps[base..base + |parts|]]
    ensures c.srv.refused == old(c.srv.refused) + if stop == Some(Stopped(Rejected)) then 1 else 0
    ensures stop.Some? ==> c.srv.live == live0 && c.loose == loose0
    ensures stop.Some? ==> Ends(c.srv.tree, start, root, name, comps, starts, c.srv.faulty, stop.value)
    ensures stop.None? ==>
      var end := if qids == [] then at else qids[|qids| - 1];
      && |qids| == |parts| && Resolve(c.srv.tree, start, comps, base + |parts|) == Some(end)
      && NoneSeen(c.srv.tree, start, root, comps, base + |parts|)
      && f == c.next != c.protids[p].walk && f in c.loose
      && Holding(c.protids[p].walk, f, end, live0, loose0, c.srv.live, c.loose)
    ensures c.Valid()
  {
    hide Balanced, Tables, NoneSeen, PartsAt, RetriesAt;
    var ok;
    var names := PartsAt(name, parts);
    ok, qids, f := WalkOn(c, p, prev, names, at, live0, loose0);
    if !ok {
      if !c.srv.faulty {
        RefusedAtOnce(c.srv.tree, start, root, comps, base, |parts|, at);
      }
      return Some(Stopped(Rejected)), f, [];
    }
    hide Resolve;
    stop := Judge(c.srv.tree, name, parts, qids, root, start, comps, starts, base, at);
    if stop.Some? && stop.value.Reauth? && |qids| == |parts| {
      LetGo(c, f);
      assert live0[f := Live(qids[|qids| - 1], None)] - {f} == live0 && loose0 + {f} - {f} == loose0;
    }
  }

  // ---- The scan ----

  /** Components before `base` have been walked, the next ones collected, and the rest lie ahead. */
  predicate Scanned(name: Name, starts: seq<nat>, base: nat, parts: seq<nat>, part: nat) {
    && part <= |name| && base + |parts| <= |starts|
    && parts == starts[base..base + |parts|] && Starts(name, part) == starts[base + |parts|..]
  }

  lemma ScanStep(name: Name, starts: seq<nat>, base: nat, parts: seq<nat>, part: nat)
    requires Scanned(name, starts, base, parts, part)
    ensures var h := PartAt(name, part);
      var parts' := if Dropped(h) then parts else parts + [part];
      && base + |parts'| <= |starts| && parts' == starts[base..base + |parts'|]
      && if part + |h| < |name| then
           && Scanned(name, starts, base, parts', part + |h| + 1)
           && LastDropped(name, part) == LastDropped(name, part + |h| + 1)
         else base + |parts'| == |starts| && LastDropped(name, part) == Dropped(h)
  {
    hide PartAt, Dropped;
    var ahead := starts[base + |parts|..];
    if !Dropped(PartAt(name, part)) {
      assert ahead[0] == part;
      TakeNext(starts, base + |parts|);
    }
  }

  lemma DroppedPiece(name: Name, at: nat)
    requires at <= |name|
    ensures Dropped(PartAt(name, at)) <==> |PartAt(name, at)| == 0 || (|PartAt(name, at)| == 1 && name[at] == DOT)
  {
    if |PartAt(name, at)| == 1 {
      assert PartAt(name, at)[0] == name[at..][0] == name[at];
    }
  }

  lemma PartsAtSlice(name: Name, ats: seq<nat>, a: nat, b: nat)
    requires Within(name, ats) && a <= b <= |ats|
    ensures Within(name, ats[a..b]) && PartsAt(name, ats[a..b]) == PartsAt(name, ats)[a..b]
  {
  }

  /** How far a lookup has got: `base` components walked, to the node `at`, without a step out of
      the root that can be seen; then `parts` collected; the scan is at `part`. */
  predicate Progress(t: Tree, start: Node, root: Node, name: Name, base: nat, at: Node, parts: seq<nat>, part: nat) {
    && base % MAX_NAMES == 0 && |parts| < MAX_NAMES && part <= |name|
    && base + |parts| <= |Components(name)| && Scanned(name, Starts(name, 0), base, parts, part)
    && LastDropped(name, part) == NamesDirectory(name)
    && Resolve(t, start, Components(name), base) == Some(at) && NoneSeen(t, start, root, Components(name), base)
  }

  /** The same when the piece that ends at `slash` has been dealt with. */
  predicate Collected(t: Tree, start: Node, root: Node, name: Name, base: nat, at: Node, parts: seq<nat>, slash: nat) {
    && base % MAX_NAMES == 0 && |parts| <= MAX_NAMES && slash <= |name|
    && base + |parts| <= |Components(name)| == |Starts(name, 0)|
    && Within(name, parts) && parts == Starts(name, 0)[base..base + |parts|]
    && PartsAt(name, parts) == Components(name)[base..base + |parts|]
    && Resolve(t, start, Components(name), base) == Some(at) && NoneSeen(t, start, root, Components(name), base)
    && if slash < |name| then
         Scanned(name, Starts(name, 0), base, parts, slash + 1) && LastDropped(name, slash + 1) == NamesDirectory(name)
       else base + |parts| == |Components(name)|
  }

  lemma ProgressBegins(t: Tree, start: Node, root: Node, name: Name)
    ensures Progress(t, start, root, name, 0, start, [], 0)
  {
    assert name[0..] == name;
    ScanFinds(name, 0);
  }

  /** Dealing with a piece. */
  lemma PieceTaken(t: Tree, start: Node, root: Node, name: Name, base: nat, at: Node, parts: seq<nat>, part: nat)
    requires Progress(t, start, root, name, base, at, parts, part)
    ensures var h := PartAt(name, part);
      var parts', slash := if Dropped(h) then parts else parts + [part], part + |h|;
      && Collected(t, start, root, name, base, at, parts', slash)
      && (slash < |name| && |parts'| < MAX_NAMES ==> Progress(t, start, root, name, base, at, parts', slash + 1))
      && (slash == |name| ==> NamesDirectory(name) == Dropped(h))
  {
    hide LastDropped, NamesDirectory, Components, Resolve, NoneSeen, Dropped, PartAt, PartsAt, Starts, Within, Until;
    hide Scanned;
    assert name[0..] == name;
    ScanFinds(name, 0);
    ScanStep(name, Starts(name, 0), base, parts, part);
    var parts' := if Dropped(PartAt(name, part)) then parts else parts + [part];
    PartsAtSlice(name, Starts(name, 0), base, base + |parts'|);
  }

  /** After a walk of all the parts collected. */
  lemma RoundDone(t: Tree, start: Node, root: Node, name: Name, base: nat, at: Node, parts: seq<nat>, slash: nat,
                  end: Node)
    requires Collected(t, start, root, name, base, at, parts, slash) && slash < |name| && |parts| == MAX_NAMES
    requires Resolve(t, start, Components(name), base + |parts|) == Some(end)
    requires NoneSeen(t, start, root, Components(name), base + |parts|)
    ensures Progress(t, start, root, name, base + |parts|, end, [], slash + 1)
  {
    hide LastDropped, NamesDirectory, Components, Resolve, NoneSeen, PartsAt, Starts;
  }

  /** The last walk has no names to ask for. */
  predicate LastWalkEmpty(name: Name) {
    NamesDirectory(name) && |Components(name)| % MAX_NAMES == 0
  }

  lemma WholePath(t: Tree, start: Node, root: Node, name: Name, base: nat, at: Node, parts: seq<nat>)
    requires Collected(t, start, root, name, base, at, parts, |name|)
    ensures base + |parts| == |Components(name)| && Components(name)[..base + |parts|] == Components(name)
    ensures |parts| < MAX_NAMES ==> (|Components(name)| % MAX_NAMES == 0 <==> parts == [])
  {
  }

  /** A round in the middle of a path: either it ends the lookup, or the walks have asked for
      the parts collected as well, and the fid held is for the node they lead to. */
  method RoundAt(c: Client, p: nat, name: Name, parts: seq<nat>, prev: nat, root: Node, ghost start: Node,
                 ghost base: nat,
                 ghost at: Node, ghost slash: nat, ghost live0: map<nat, Live>, ghost loose0: set<nat>,
                 ghost walks0: seq<seq<Name>>)
    returns (stop: Option<Outcome>, f: nat, qids: seq<Node>, ghost end: Node)
    requires NulFree(name) && Collected(c.srv.tree, start, root, name, base, at, parts, slash)
    requires p in c.protids && c.next + 1 < NO_FID && c.Valid()
    requires Holding(c.protids[p].walk, prev, at, live0, loose0, c.srv.live, c.loose)
    requires Asked(walks0, c.srv.walks, Components(name)[..base])
    modifies c`next, c`loose, c.srv`live, c.srv`walks, c.srv`refused
    ensures c.next == old(c.next) + 1
    ensures c.srv.refused == old(c.srv.refused) + if stop == Some(Stopped(Rejected)) then 1 else 0
    ensures base + |parts| <= |Components(name)| && Asked(walks0, c.srv.walks, Components(name)[..base + |parts|])
    ensures stop.Some? ==> c.srv.live == live0 && c.loose == loose0
    ensures stop.Some? ==>
      Ends(c.srv.tree, start, root, name, Components(name), Starts(name, 0), c.srv.faulty, stop.value)
    ensures stop.None? ==>
      && Resolve(c.srv.tree, start, Components(name), base + |parts|) == Some(end)
      && NoneSeen(c.srv.tree, start, root, Components(name), base + |parts|)
      && f == c.next != c.protids[p].walk && f in c.loose
      && Holding(c.protids[p].walk, f, end, live0, loose0, c.srv.live, c.loose)
      && |qids| == |parts| && (qids != [] ==> qids[|qids| - 1] == end)
    ensures c.Valid()
  {
    hide Balanced, Tables, NoneSeen, PartsAt, Ends, Starts, Components, LastDropped, NamesDirectory, Asked, Scanned;
    hide Resolve, Holding;
    ghost var comps, walks := Components(name), c.srv.walks;
    stop, f, qids := Round(c, p, name, parts, prev, root, start, comps, Starts(name, 0), base, at, live0, loose0);
    AskedMore(walks0, walks, comps[..base], comps[base..base + |parts|]);
    assert comps[..base + |parts|] == comps[..base] + comps[base..base + |parts|];
    end := if qids == [] then at else qids[|qids| - 1];
  }

  /** The scan and the walks. Unless it stops early, it ends up holding a fid for the node that
      resolving the components one at a time leads to. */
  method WalkPath(c: Client, p: nat, name: Name, root: Node)
    returns (stop: Option<Outcome>, f: nat, qids: seq<Node>, mustBeDir: bool)
    requires p in c.protids && c.next + |name| + 1 < NO_FID && NulFree(name) && c.Valid()
    requires c.protids[p].walk in c.srv.live
    modifies c`next, c`loose, c.srv`live, c.srv`walks, c.srv`refused
    ensures c.next <= old(c.next) + |name| + 1
    ensures c.srv.refused == old(c.srv.refused) + if stop == Some(Stopped(Rejected)) then 1 else 0
    ensures stop.Some? ==>
      && c.srv.live == old(c.srv.live) && c.loose == old(c.loose)
      && Ends(c.srv.tree, old(c.srv.live)[c.protids[p].walk].node, root, name, Components(name), Starts(name, 0),
              c.srv.faulty, stop.value)
      && exists k :: 0 <= k <= |Components(name)| && Asked(old(c.srv.walks), c.srv.walks, Components(name)[..k])
    ensures stop.None? ==>
      var start, comps := old(c.srv.live)[c.protids[p].walk].node, Components(name);
      && Resolve(c.srv.tree, start, comps, |comps|).Some?
      && var end := Resolve(c.srv.tree, start, comps, |comps|).value;
      && NoneSeen(c.srv.tree, start, root, comps, |comps|)
      && Asked(old(c.srv.walks), c.srv.walks, comps)
      && f == c.next != c.protids[p].walk && f in c.loose
      && Holding(c.protids[p].walk, f, end, old(c.srv.live), old(c.loose), c.srv.live, c.loose)
      && mustBeDir == NamesDirectory(name) && (qids == [] <==> LastWalkEmpty(name))
      && (qids != [] ==> qids[|qids| - 1] == end)
    ensures c.Valid()
  {
    hide Balanced, Tables, NoneSeen, Ends, Starts, Components, NamesDirectory, Asked, Dropped, PartAt, Progress;
    hide Collected, Resolve;
    ghost var live0, loose0, walks0 := c.srv.live, c.loose, c.srv.walks;
    var walk := c.protids[p].walk;
    ghost var start := live0[walk].node;
    ghost var base: nat, at := 0, start;
    ProgressBegins(c.srv.tree, start, root, name);
    AskedNothing(walks0);
    assert Components(name)[..0] == [];

    var prev, part := walk, 0;
    var parts: seq<nat> := [];
    mustBeDir, qids := false, [];
    while true
      invariant c.next <= old(c.next) + part && part <= |name| && |parts| < MAX_NAMES && !mustBeDir && c.Valid()
      invariant Progress(c.srv.tree, start, root, name, base, at, parts, part)
      invariant base <= |Components(name)| && Asked(walks0, c.srv.walks, Components(name)[..base])
      invariant Holding(walk, prev, at, live0, loose0, c.srv.live, c.loose) && c.srv.refused == old(c.srv.refused)
      decreases |name| - part
    {
      var slash := part + |PartAt(name, part)|;
      PieceTaken(c.srv.tree, start, root, name, base, at, parts, part);
      DroppedPiece(name, part);
      if slash == part || (slash == part + 1 && name[part] == DOT) {
        if slash < |name| {
          part := slash + 1;
          continue;
        }
        mustBeDir := true;
      } else {
        parts := parts + [part];
      }
      if |parts| == MAX_NAMES || slash == |name| {
        ghost var end: Node;
        stop, f, qids, end := RoundAt(c, p, name, parts, prev, root, start, base, at, slash, live0, loose0, walks0);
        if stop.Some? { return; }
        if slash < |name| {
          RoundDone(c.srv.tree, start, root, name, base, at, parts, slash, end);
        } else {
          WholePath(c.srv.tree, start, root, name, base, at, parts);
          return;
        }
        base, at := base + |parts|, end;
        prev, parts := f, [];
      }
      part := slash + 1;
    }
  }

  // ---- The end of a lookup ----

  /** What is found must be a directory and is not, and the replies to the last walk show it. */
  predicate WrongKind(t: Tree, name: Name, end: Node) {
    NamesDirectory(name) && !LastWalkEmpty(name) && !t.isDir(end)
  }

  /** The new protid owns the fid found, and is open as asked; `path` is what its node is taken to be. */
  predicate NewProtid(p: Protid, f: nat, flags: set<Access>, before: map<nat, Live>, after: map<nat, Live>,
                      opens: map<nat, Peropen>, path: Node, limit: nat, rootPath: Node) {
    && p.walk == f && p.io != f && p.flags == AccMode(flags) && after - {p.io} == before
    && OpenAsAsked(flags, p, after) && p.po in opens && opens[p.po] == Peropen(path, limit, 0, flags, rootPath)
  }

  lemma NewProtidMade(p: Protid, f: nat, flags: set<Access>, before: map<nat, Live>, after: map<nat, Live>,
                      was: map<nat, Peropen>, now: map<nat, Peropen>, path: Node, rootPath: Node,
                      maxMessage: nat, reported: nat)
    requires p.walk == f && p.io != f && p.flags == AccMode(flags) && after - {p.io} == before
    requires OpenAsAsked(flags, p, after) && p.po in was && was[p.po] == Peropen(path, maxMessage, 0, flags, rootPath)
    requires now == OpenedFirst(was, p.po, flags, reported)
    ensures NewProtid(p, f, flags, before, after, now, path, FirstLimit(maxMessage, flags, reported), rootPath)
  {
  }

  /** Turns the fid held into a new protid's walk fid and opens it. The exit for something that is
      not a directory leaves the fid behind. */
  method Settle(c: Client, p: nat, f: nat, qids: seq<Node>, mustBeDir: bool, flags: set<Access>, ghost end: Node)
    returns (o: Outcome)
    requires p in c.protids && c.next + 1 < NO_FID && f in c.loose && c.Valid()
    requires f in c.srv.live && c.srv.live[f] == Live(end, None)
    requires qids != [] ==> qids[|qids| - 1] == end
    modifies c`next, c`loose, c`protids, c`opens, c`nextId
    modifies c.srv`live, c.srv`walks, c.srv`reported, c.srv`refused
    ensures old(c.next) <= c.next <= old(c.next) + 1 && OnlyLimitsShrink(old(c.opens), c.opens)
    ensures c.srv.walks == old(c.srv.walks) || c.srv.walks == old(c.srv.walks) + [[]]
    ensures c.srv.refused == old(c.srv.refused) + if o == Stopped(Rejected) then 1 else 0
    ensures mustBeDir && qids != [] && !c.srv.tree.isDir(end) ==>
      && o == Stopped(ENOTDIR) && c.protids == old(c.protids) && c.loose == old(c.loose)
      && c.srv.live == old(c.srv.live) && c.next == old(c.next)
    ensures !(mustBeDir && qids != [] && !c.srv.tree.isDir(end)) ==>
      c.loose == old(c.loose) - {f} && (o.Found? || o == Stopped(Rejected))
    ensures o == Stopped(Rejected) ==> c.protids == old(c.protids) && c.srv.live == old(c.srv.live) - {f}
    ensures o.Found? ==>
      && o.protid in c.protids && o.protid !in old(c.protids)
      && c.protids == old(c.protids)[o.protid := c.protids[o.protid]]
    ensures o.Found? ==>
      && old(c.protids)[p].po in old(c.opens)
      && NewProtid(c.protids[o.protid], f, flags, old(c.srv.live), c.srv.live, c.opens,
                   if qids == [] then 0 else end, FirstLimit(c.srv.maxMessage, flags, c.srv.reported),
                   old(c.opens)[old(c.protids)[p].po].rootPath)
    ensures c.Valid()
  {
    hide Balanced, Tables, OnlyLimitsShrink, Covered, FidsUsable, Limited, FirstLimit, OpenedFirst, OpenAsAsked;
    TableEntry(c.protids, c.opens, c.nextId, c.srv.maxMessage, p);
    if mustBeDir && qids != [] && !c.srv.tree.isDir(qids[|qids| - 1]) {
      return Stopped(ENOTDIR);
    }
    ghost var ps, was, live := c.protids, c.opens, c.srv.live;
    var root := c.opens[c.protids[p].po].rootPath;
    var path := if qids == [] then 0 else qids[|qids| - 1];
    NewRows(ps, was, c.nextId, c.srv.maxMessage, Peropen(path, c.srv.maxMessage, 0, flags, root));
    LooseIsLive(c.linux, ps, live, c.loose, c.next, f);
    var q := c.MakeProtid(flags, root);
    c.opens := c.opens[q - 1 := c.opens[q - 1].(path := path)];
    c.protids := c.protids[q := c.protids[q].(walk := f)];
    Adopt(c.linux, ps, live, c.loose, c.next, q, f, q - 1);
    c.loose := c.loose - {f};
    assert c.protids == ps[q := Protid(f, NO_FID, {}, q - 1)];
    assert c.opens == was[q - 1 := Peropen(path, c.srv.maxMessage, 0, flags, root)];
    ghost var opens1 := c.opens;
    var r := c.EnsureFirstOpen(q, flags);
    ShrinkTwice(was, opens1, c.opens);
    if r.Fine? {
      o := Found(q);
      NewProtidMade(c.protids[q], f, flags, live, c.srv.live, opens1, c.opens, path, root, c.srv.maxMessage,
                    c.srv.reported);
    } else {
      o := Stopped(r.error);
    }
  }

  /** The path starts with a step out of the root that the lookup starts at. */
  predicate StartsOut(here: Node, root: Node, name: Name) {
    here == root && PartAt(name, 0) == DOTDOT
  }

  predicate Settles(t: Tree, name: Name, end: Node, o: Outcome) {
    if WrongKind(t, name, end) then o == Stopped(ENOTDIR)
    else o.Found? || o == Stopped(Rejected)
  }

  /** How a lookup may end, going by resolving the components one at a time from `start`; `here`
      is what the start's node is recorded to be. */
  ghost predicate Allowed(t: Tree, start: Node, here: Node, root: Node, name: Name, faulty: bool, o: Outcome) {
    var comps := Components(name);
    if StartsOut(here, root, name) then o == Reauth(After(name, 0))
    else
      || Ends(t, start, root, name, comps, Starts(name, 0), faulty, o)
      || (NoneSeen(t, start, root, comps, |comps|) && Resolve(t, start, comps, |comps|).Some?
          && Settles(t, name, Resolve(t, start, comps, |comps|).value, o))
  }

  /** A lookup's result: a new protid for the node that the components lead to. Its node is
      recorded correctly if the last walk had names. */
  predicate FoundAt(t: Tree, start: Node, rootPath: Node, path: Name, flags: set<Access>, was: map<nat, Protid>,
                    before: map<nat, Live>,
                    q: nat, now: map<nat, Protid>, after: map<nat, Live>, opens: map<nat, Peropen>, limit: nat) {
    var comps := Components(path);
    && q in now && q !in was && now == was[q := now[q]] && Resolve(t, start, comps, |comps|).Some?
    && var end := Resolve(t, start, comps, |comps|).value;
    && now[q].walk !in before
    && NewProtid(now[q], now[q].walk, flags, before[now[q].walk := Live(end, None)], after, opens,
                 if LastWalkEmpty(path) then 0 else end, limit, rootPath)
  }

  lemma FoundWell(t: Tree, start: Node, rootPath: Node, name: Name, flags: set<Access>, was: map<nat, Protid>,
                  before: map<nat, Live>,
                  q: nat, now: map<nat, Protid>, after: map<nat, Live>, opens: map<nat, Peropen>, limit: nat, f: nat)
    requires q in now && q !in was && now == was[q := now[q]] && f !in before
    requires Resolve(t, start, Components(name), |Components(name)|).Some?
    requires var end := Resolve(t, start, Components(name), |Components(name)|).value;
      NewProtid(now[q], f, flags, before[f := Live(end, None)], after, opens,
                if LastWalkEmpty(name) then 0 else end, limit, rootPath)
    ensures FoundAt(t, start, rootPath, name, flags, was, before, q, now, after, opens, limit)
  {
  }

  /** The whole path was walked, and yet the answer is that something is not a directory. */
  predicate LeaksFid(t: Tree, start: Node, name: Name, o: Outcome) {
    o == Stopped(ENOTDIR) && Resolve(t, start, Components(name), |Components(name)|).Some?
  }

  /** What a lookup that finds nothing leaves behind: the fid that the last walk made, in the case
      above, and nothing otherwise. */
  predicate Leftover(t: Tree, start: Node, name: Name, o: Outcome, next: nat, before: map<nat, Live>,
                     after: map<nat, Live>, was: set<nat>, now: set<nat>) {
    if LeaksFid(t, start, name, o) then
      && next !in before && next !in was && now == was + {next}
      && after == before[next := Live(Resolve(t, start, Components(name), |Components(name)|).value, None)]
    else now == was && after == before
  }

  lemma SettledWell(t: Tree, start: Node, here: Node, root: Node, name: Name, faulty: bool, o: Outcome)
    requires !StartsOut(here, root, name) && NoneSeen(t, start, root, Components(name), |Components(name)|)
    requires Resolve(t, start, Components(name), |Components(name)|).Some?
    requires Settles(t, name, Resolve(t, start, Components(name), |Components(name)|).value, o)
    ensures Allowed(t, start, here, root, name, faulty, o)
  {
  }

  lemma HeldAndDropped(walk: nat, f: nat, end: Node, live0: map<nat, Live>, loose0: set<nat>, live: map<nat, Live>,
                       loose: set<nat>)
    requires Holding(walk, f, end, live0, loose0, live, loose) && f != walk
    ensures f !in live0 && f !in loose0 && loose != loose0 && f in live && live[f] == Live(end, None)
    ensures live - {f} == live0 && loose - {f} == loose0 && live == live0[f := Live(end, None)] && loose == loose0 + {f}
  {
    assert f in loose;
  }

  lemma OutAtOnce(t: Tree, start: Node, here: Node, root: Node, name: Name, faulty: bool)
    requires NulFree(name)
    ensures StartsOut(here, root, name) <==>
      root == here && 2 <= |name| && name[0] == DOT && name[1] == DOT && (|name| == 2 || name[2] == SLASH)
    ensures StartsOut(here, root, name) ==> Allowed(t, start, here, root, name, faulty, Reauth(Stripped(name[2..])))
  {
    hide Ends, Settles, NoneSeen, Components, Resolve;
    PartIsDotDot(name, 0);
  }

  lemma EndedEarly(t: Tree, start: Node, here: Node, root: Node, name: Name, faulty: bool, o: Outcome)
    requires !StartsOut(here, root, name) && Ends(t, start, root, name, Components(name), Starts(name, 0), faulty, o)
    ensures Allowed(t, start, here, root, name, faulty, o) && !o.Found? && o != Stopped(EROFS)
    ensures !LeaksFid(t, start, name, o)
  {
    hide NoneSeen, Components, StartsOut, RetriesAt;
    if o == Stopped(ENOTDIR) {
      var comps := Components(name);
      var k :| k % MAX_NAMES != 0 && StopsAt(t, start, comps, k) && ENOTDIR == Missing(t, start, comps, k);
      if Resolve(t, start, comps, |comps|).Some? {
        ResolvedPrefix(t, start, comps, k + 1, |comps|);
        assert false;
      }
    }
  }

  /** The lookup past its first checks. */
  method FindName(c: Client, p: nat, name: Name, flags: set<Access>) returns (o: Outcome)
    requires p in c.protids && c.next + |name| + 2 < NO_FID && NulFree(name) && c.Valid()
    requires c.protids[p].walk in c.srv.live && c.protids[p].po in c.opens
    requires !StartsOut(c.opens[c.protids[p].po].path, c.opens[c.protids[p].po].rootPath, name)
    modifies c`next, c`loose, c`protids, c`opens, c`nextId
    modifies c.srv`live, c.srv`walks, c.srv`reported, c.srv`refused
    ensures c.next <= old(c.next) + |name| + 2 && OnlyLimitsShrink(old(c.opens), c.opens)
    ensures c.srv.refused == old(c.srv.refused) + if o == Stopped(Rejected) then 1 else 0
    ensures
      var po, start := old(c.opens)[old(c.protids)[p].po], old(c.srv.live)[old(c.protids)[p].walk].node;
      Allowed(c.srv.tree, start, po.path, po.rootPath, name, c.srv.faulty, o)
    ensures o.Found? ==>
      var po, start := old(c.opens)[old(c.protids)[p].po], old(c.srv.live)[old(c.protids)[p].walk].node;
      && FoundAt(c.srv.tree, start, po.rootPath, name, flags, old(c.protids), old(c.srv.live),
                 o.protid, c.protids, c.srv.live, c.opens, FirstLimit(c.srv.maxMessage, flags, c.srv.reported))
      && c.loose == old(c.loose) && Asked(old(c.srv.walks), c.srv.walks, Components(name))
    ensures o != Stopped(EROFS)
    ensures !o.Found? ==>
      && c.protids == old(c.protids)
      && Leftover(c.srv.tree, old(c.srv.live)[old(c.protids)[p].walk].node, name, o, c.next,
                  old(c.srv.live), c.srv.live, old(c.loose), c.loose)
    ensures c.Valid()
  {
    hide Balanced, Tables, Covered, FidsUsable, NoneSeen, Ends, Components, NamesDirectory, Resolve, Asked;
    hide LastWalkEmpty, PartAt, Starts, OnlyLimitsShrink, Holding, NewProtid, Allowed, StartsOut, FoundAt, NulFree;
    hide FirstLimit;
    TableEntry(c.protids, c.opens, c.nextId, c.srv.maxMessage, p);
    ghost var live0, loose0, walks0 := c.srv.live, c.loose, c.srv.walks;
    ghost var pi := c.protids[p];
    ghost var po, start, comps := c.opens[pi.po], live0[pi.walk].node, Components(name);
    var stop, f, qids, mustBeDir := WalkPath(c, p, name, c.opens[c.protids[p].po].rootPath);
    if stop.Some? {
      EndedEarly(c.srv.tree, start, po.path, po.rootPath, name, c.srv.faulty, stop.value);
      return stop.value;
    }
    ghost var walks1 := c.srv.walks;
    ghost var end := Resolve(c.srv.tree, start, comps, |comps|).value;
    HeldAndDropped(pi.walk, f, end, live0, loose0, c.srv.live, c.loose);
    o := Settle(c, p, f, qids, mustBeDir, flags, end);
    SettledWell(c.srv.tree, start, po.path, po.rootPath, name, c.srv.faulty, o);
    if o.Found? {
      FoundWell(c.srv.tree, start, po.rootPath, name, flags, old(c.protids), live0, o.protid,
                c.protids, c.srv.live, c.opens, FirstLimit(c.srv.maxMessage, flags, c.srv.reported), f);
    }
    AskedMore(walks0, walks1, comps, []);
    assert comps + [] == comps;
  }

  /** Looks up a path from the file that protid p stands for. Without O_CREAT, O_EXCL (`excl`)
      matters in read-only mode only. */
  method Find(c: Client, p: nat, path: Name, flags: set<Access>, excl: bool) returns (o: Outcome)
    requires p in c.protids && c.next + |path| + 2 < NO_FID && NulFree(path) && c.Valid()
    modifies c`next, c`loose, c`protids, c`opens, c`nextId
    modifies c.srv`live, c.srv`walks, c.srv`reported, c.srv`refused
    ensures c.next <= old(c.next) + |path| + 2 && OnlyLimitsShrink(old(c.opens), c.opens)
    ensures c.srv.refused == old(c.srv.refused) + if o == Stopped(Rejected) then 1 else 0
    ensures o == Stopped(EROFS) <==> c.readonly && (Write in flags || excl)
    ensures old(c.protids)[p].walk in old(c.srv.live) && old(c.protids)[p].po in old(c.opens)
    ensures o != Stopped(EROFS) ==>
      var po, start := old(c.opens)[old(c.protids)[p].po], old(c.srv.live)[old(c.protids)[p].walk].node;
      Allowed(c.srv.tree, start, po.path, po.rootPath, Stripped(path), c.srv.faulty, o)
    ensures o.Found? ==>
      var po, start := old(c.opens)[old(c.protids)[p].po], old(c.srv.live)[old(c.protids)[p].walk].node;
      && FoundAt(c.srv.tree, start, po.rootPath, Stripped(path), flags, old(c.protids), old(c.srv.live),
                 o.protid, c.protids, c.srv.live, c.opens, FirstLimit(c.srv.maxMessage, flags, c.srv.reported))
      && c.loose == old(c.loose) && Asked(old(c.srv.walks), c.srv.walks, Components(path))
    ensures !o.Found? ==>
      && c.protids == old(c.protids)
      && Leftover(c.srv.tree, old(c.srv.live)[old(c.protids)[p].walk].node, Stripped(path), o, c.next,
                  old(c.srv.live), c.srv.live, old(c.loose), c.loose)
    ensures c.Valid()
  {
    hide Balanced, Tables, Covered, FidsUsable, Components, NamesDirectory, Resolve, Asked, Allowed, StartsOut;
    hide OnlyLimitsShrink, FoundAt, NulFree, LastWalkEmpty, FirstLimit, After;
    Entry(c.linux, c.protids, c.srv.live, c.loose, c.next, p);
    TableEntry(c.protids, c.opens, c.nextId, c.srv.maxMessage, p);
    if c.readonly && (Write in flags || excl) { return Stopped(EROFS); }
    var name := StripSlashes(path);
    StrippedComponents(path);
    StrippedNulFree(path);
    var po := c.opens[c.protids[p].po];
    ghost var start := c.srv.live[c.protids[p].walk].node;
    OutAtOnce(c.srv.tree, start, po.path, po.rootPath, name, c.srv.faulty);
    if po.rootPath == po.path && 2 <= |name| && name[0] == DOT && name[1] == DOT && (|name| == 2 || name[2] == SLASH) {
      var retryName := StripSlashes(name[2..]);
      return Reauth(retryName);
    }
    o := FindName(c, p, name, flags);
  }
}
