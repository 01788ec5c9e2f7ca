// What lookups answer, compared with taking the components one at a time.
module LookupLaws {
  import opened Bytes
  import opened Paths
  import opened Server
  import opened Wire
  import opened Ledger
  import opened Fids
  import opened Lookup
  import Recv
  import RecvLaws

  /** Resolution one component at a time takes ".." at the root, as component j. */
  predicate TakesRootParent(t: Tree, start: Node, root: Node, comps: seq<Name>, j: int) {
    0 <= j < |comps| && comps[j] == DOTDOT && Resolve(t, start, comps, j) == Some(root)
  }

  /** Where the lookup notices: on the very first piece, going by what the start's node is recorded
      to be, and past the first component of a walk. */
  predicate Noticed(t: Tree, start: Node, here: Node, root: Node, name: Name, j: int) {
    0 <= j < |Components(name)|
    && if j == 0 then StartsOut(here, root, name)
       else j % MAX_NAMES != 0 && TakesRootParent(t, start, root, Components(name), j)
  }

  lemma EscapeIsTaken(t: Tree, start: Node, root: Node, comps: seq<Name>, j: int)
    requires t.step(root, DOTDOT).Some?
    ensures EscapeAt(t, start, root, comps, j) <==> TakesRootParent(t, start, root, comps, j)
  {
  }

  /** A path whose first piece is ".." has that as its first component. */
  lemma FirstPiece(name: Name)
    requires !Dropped(PartAt(name, 0))
    ensures Components(name) != [] && Components(name)[0] == PartAt(name, 0)
    ensures Starts(name, 0) != [] && Starts(name, 0)[0] == 0
  {
    assert name[0..] == name;
    ComponentsFrom(name, 0);
    hide Components, PartAt, Dropped;
    assert Starts(name, 0)[0] == 0;
  }

  lemma SeenIsNoticed(t: Tree, start: Node, here: Node, root: Node, name: Name, j: int)
    requires SeenAt(t, start, root, Components(name), j)
    ensures Noticed(t, start, here, root, name, j) && Components(name)[j] == DOTDOT
  {
  }

  /** For all paths, starts and servers: the answer is to retry outside only if a step out of the
      root is noticed, and always if a request is not refused first. The parent of the root of the
      server's tree is that root, by walk(5). */
  lemma ReauthIff(t: Tree, start: Node, here: Node, root: Node, name: Name, faulty: bool, o: Outcome)
    requires Allowed(t, start, here, root, name, faulty, o) && t.step(root, DOTDOT).Some?
    ensures o.Reauth? ==> exists j :: Noticed(t, start, here, root, name, j)
    ensures !faulty || Noticed(t, start, here, root, name, 0) ==>
      (o.Reauth? <==> exists j :: Noticed(t, start, here, root, name, j))
  {
    var comps := Components(name);
    if StartsOut(here, root, name) {
      FirstPiece(name);
      assert Noticed(t, start, here, root, name, 0);
      return;
    }
    hide Components, Starts, PartAt, After, StartsOut, Resolve;
    if o.Reauth? {
      var j :| RetriesAt(t, start, root, name, comps, Starts(name, 0), o.retryName, j);
      SeenIsNoticed(t, start, here, root, name, j);
    } else if !faulty {
      forall j ensures !Noticed(t, start, here, root, name, j) {
        EscapeIsTaken(t, start, root, comps, j);
        if 0 <= j < |comps| { assert !SeenAt(t, start, root, comps, j); }
      }
    }
  }

  /** The first component, if no dot precedes it. */
  lemma FirstStep(t: Tree, start: Node, here: Node, root: Node, name: Name)
    requires name == [] || !Dropped(PartAt(name, 0))
    ensures TakesRootParent(t, start, root, Components(name), 0) <==> PartAt(name, 0) == DOTDOT && start == root
    ensures Noticed(t, start, here, root, name, 0) <==> PartAt(name, 0) == DOTDOT && here == root
  {
    if name != [] {
      FirstPiece(name);
    } else {
      ComponentsStep(name);
    }
    hide Components, PartAt;
    assert Resolve(t, start, Components(name), 0) == Some(start);
  }

  /** The other components of a path that takes one walk. */
  lemma LaterStep(t: Tree, start: Node, here: Node, root: Node, name: Name, j: int)
    requires |Components(name)| <= MAX_NAMES && j > 0
    ensures Noticed(t, start, here, root, name, j) <==> TakesRootParent(t, start, root, Components(name), j)
  {
    hide Components, Resolve, StartsOut;
    if 0 < j < MAX_NAMES { assert j % MAX_NAMES != 0; }
  }

  lemma NoStepBefore(t: Tree, start: Node, here: Node, root: Node, name: Name)
    ensures forall j :: j < 0 ==>
      !Noticed(t, start, here, root, name, j) && !TakesRootParent(t, start, root, Components(name), j)
  {
  }

  /** Up to sixteen components of which the first was not preceded by a dot, and a server that
      refuses no request: then the answer is to retry outside exactly if resolution takes ".." at
      the root, or else the path begins with ".." and the start is recorded to be the root and is
      not, or is the root and is not recorded to be. */
  lemma RootEscape(t: Tree, start: Node, here: Node, root: Node, name: Name, o: Outcome)
    requires Allowed(t, start, here, root, name, false, o) && t.step(root, DOTDOT).Some?
    requires |Components(name)| <= 16 && (name == [] || !Dropped(PartAt(name, 0)))
    ensures
      var taken := exists j :: TakesRootParent(t, start, root, Components(name), j);
      var later := exists j :: j > 0 && TakesRootParent(t, start, root, Components(name), j);
      (o.Reauth? <==> taken) <==> (later || PartAt(name, 0) != DOTDOT || (here == root <==> start == root))
  {
    hide Components, PartAt, Resolve, Allowed, Noticed, TakesRootParent, Dropped;
    ReauthIff(t, start, here, root, name, false, o);
    FirstStep(t, start, here, root, name);
    forall j | j > 0
      ensures Noticed(t, start, here, root, name, j) <==> TakesRootParent(t, start, root, Components(name), j)
    {
      LaterStep(t, start, here, root, name, j);
    }
    NoStepBefore(t, start, here, root, name);
  }

  lemma SkipHead<T>(a: seq<T>, b: seq<T>, n: nat)
    requires |a| <= n <= |a| + |b|
    ensures (a + b)[n..] == b[n - |a|..]
  {
  }

  lemma AfterDotDot(name: Name, at: nat)
    requires at <= |name| && NulFree(name) && PartAt(name, at) == DOTDOT
    ensures at + 2 <= |name| && Dropped(DOTDOT) == false
    ensures Components(After(name, at)) == if at + 2 == |name| then [] else Components(name[at + 3..])
  {
    PartIsDotDot(name, at);
    StrippedComponents(name[at + 2..]);
    ComponentsFrom(name, at + 2);
    assert at + 2 < |name| ==> name[at + 2..][0] == SLASH;
  }

  /** After ".." comes what is left of the path. */
  lemma {:induction false} RestFrom(name: Name, at: nat, j: nat)
    requires at <= |name| && NulFree(name)
    requires j < |Starts(name, at)| == |Components(name[at..])|
    requires Starts(name, at)[j] <= |name| && PartAt(name, Starts(name, at)[j]) == DOTDOT
    ensures Components(After(name, Starts(name, at)[j])) == Components(name[at..])[j + 1..]
    decreases |name| - at
  {
    hide Components, PartAt, Dropped, After, NulFree, Until, PartsAt, NamesDirectory, LastDropped;
    var h := PartAt(name, at);
    var here := Starts(name, at)[j];
    var own := if Dropped(h) then [] else [at];
    ComponentsFrom(name, at);
    if j < |own| {
      assert here == at && own == [at];
      AfterDotDot(name, at);
      OneTail(h);
      if at + 2 < |name| {
        DropHead([h], Components(name[at + 3..]));
      }
    } else {
      var next := at + |h| + 1;
      ScanFinds(name, next);
      assert Starts(name, at)[j] == Starts(name, next)[j - |own|];
      RestFrom(name, next, j - |own|);
      SkipHead(if Dropped(h) then [] else [h], Components(name[next..]), j + 1);
    }
  }

  lemma PartOf(name: Name, ats: seq<nat>, j: nat)
    requires Within(name, ats) && j < |ats|
    ensures |PartsAt(name, ats)| == |ats| && PartsAt(name, ats)[j] == PartAt(name, ats[j])
  {
  }

  lemma FirstNoticed(t: Tree, start: Node, here: Node, root: Node, name: Name)
    requires StartsOut(here, root, name) && Components(name) != []
    ensures Noticed(t, start, here, root, name, 0)
  {
  }

  lemma NoneEarlier(t: Tree, start: Node, here: Node, root: Node, name: Name, j: nat)
    requires t.step(root, DOTDOT).Some? && NoneSeen(t, start, root, Components(name), j) && !StartsOut(here, root, name)
    ensures forall i :: 0 <= i < j ==> !Noticed(t, start, here, root, name, i)
  {
    hide Components, StartsOut;
    forall i | 0 <= i < j ensures !Noticed(t, start, here, root, name, i) {
      EscapeIsTaken(t, start, root, Components(name), i);
      assert !SeenAt(t, start, root, Components(name), i);
    }
  }

  /** The name to retry with has the components after the first step out that was noticed. */
  lemma RetryRemains(t: Tree, start: Node, here: Node, root: Node, name: Name, faulty: bool, o: Outcome)
    requires Allowed(t, start, here, root, name, faulty, o) && t.step(root, DOTDOT).Some? && NulFree(name) && o.Reauth?
    ensures exists j ::
      && Noticed(t, start, here, root, name, j)
      && (forall i :: 0 <= i < j ==> !Noticed(t, start, here, root, name, i))
      && Components(o.retryName) == Components(name)[j + 1..]
  {
    hide Components, Starts, After, PartAt, PartsAt, NulFree, SeenAt, NoneSeen, Noticed, Resolve;
    var comps, starts := Components(name), Starts(name, 0);
    assert name[0..] == name;
    ScanFinds(name, 0);
    var j: nat;
    if StartsOut(here, root, name) {
      j := 0;
      FirstPiece(name);
      assert Noticed(t, start, here, root, name, 0) by { FirstNoticed(t, start, here, root, name); }
    } else {
      j :| RetriesAt(t, start, root, name, comps, starts, o.retryName, j);
      SeenIsNoticed(t, start, here, root, name, j);
      NoneEarlier(t, start, here, root, name, j);
    }
    PartOf(name, starts, j);
    RestFrom(name, 0, j);
  }

  lemma ScanLength(name: Name)
    ensures |Starts(name, 0)| == |Components(name)|
  {
    assert name[0..] == name;
    ScanFinds(name, 0);
  }

  lemma StopsOnce(t: Tree, start: Node, comps: seq<Name>, j: int, k: int)
    requires StopsAt(t, start, comps, j) && StopsAt(t, start, comps, k)
    ensures j == k
  {
    if j < k {
      ResolvedPrefix(t, start, comps, j + 1, k);
    } else if k < j {
      ResolvedPrefix(t, start, comps, k + 1, j);
    }
  }

  /** If resolution stops at a component, without a noticed step out of the root before it, the lookup
      stops: by the server's refusal of a walk that begins there; otherwise because there is no such
      file, if it stops in a directory, and because that is no directory, if it does not. A server
      may refuse a request before that. */
  lemma MissingTells(t: Tree, start: Node, here: Node, root: Node, name: Name, faulty: bool, o: Outcome, k: int)
    requires Allowed(t, start, here, root, name, faulty, o) && !StartsOut(here, root, name)
    requires NoneSeen(t, start, root, Components(name), |Components(name)|) && StopsAt(t, start, Components(name), k)
    ensures (faulty && o == Stopped(Rejected))
      || o == Stopped(if k % 16 == 0 then Rejected
                      else if t.isDir(Resolve(t, start, Components(name), k).value) then ENOENT else ENOTDIR)
  {
    hide Components, Resolve, StartsOut;
    var comps := Components(name);
    if Resolve(t, start, comps, |comps|).Some? {
      ResolvedPrefix(t, start, comps, k + 1, |comps|);
      assert false;
    }
    forall j | StopsAt(t, start, comps, j) ensures j == k {
      StopsOnce(t, start, comps, j, k);
    }
    assert Ends(t, start, root, name, comps, Starts(name, 0), faulty, o);
    ScanLength(name);
    if o.Reauth? {
      assert false;
    }
  }

  // ---- What the walk requests carry ----

  /** The pointers into the path that the scan collects. */
  function Tails(name: Name, ats: seq<nat>): (tails: seq<Name>)
    requires Within(name, ats)
    ensures |tails| == |ats|
  {
    seq(|ats|, j requires 0 <= j < |ats| => name[ats[j]..])
  }

  lemma UntilTwice(s: Name)
    ensures Until(Until(s, SLASH), SLASH) == Until(s, SLASH)
  {
    var h := Until(s, SLASH);
    var r := Until(h, SLASH);
    if |r| < |h| {
      assert false;
    }
  }

  /** The writer cuts each pointer's string at its slash, so that the request carries the
      components themselves. */
  lemma {:induction false} WalkCarriesComponents(name: Name, ats: seq<nat>, k: nat)
    requires Within(name, ats) && k <= |ats|
    ensures EncodeNames(Tails(name, ats)[..k]) == EncodeNames(PartsAt(name, ats)[..k])
  {
    if k > 0 {
      WalkCarriesComponents(name, ats, k - 1);
      NamesSplit(Tails(name, ats), k - 1);
      NamesSplit(PartsAt(name, ats), k - 1);
      UntilTwice(name[ats[k - 1]..]);
    }
  }

  /** So the server reads from it the fids, how many components there are, and each of them. */
  lemma WalkDelivers(name: Name, ats: seq<nat>, fid: nat, newFid: nat, data: seq<Byte>, at: nat)
    requires Within(name, ats) && |ats| <= 16 && fid < TWO_32 && newFid < TWO_32
    requires forall i :: 0 <= i < |ats| ==> |PartAt(name, ats[i])| < 0x1_0000
    requires Holds(data, at, Encode([U32(fid), U32(newFid), U16(|ats|), Strs(Tails(name, ats))]))
    ensures
      var p := Recv.Parse([Recv.S4, Recv.S4, Recv.S2] + RecvLaws.StrSlots(|ats|), data, at, |data|);
      && p.err.Ok? && !p.eof && |p.vals| == 3 + |ats|
      && p.vals[..3] == [Recv.Num(fid), Recv.Num(newFid), Recv.Num(|ats|)]
      && forall i :: 0 <= i < |ats| ==> p.vals[3 + i] == Recv.Text(PartsAt(name, ats)[i])
  {
    hide Encode, Holds, Until, Recv.Parse;
    var tails := Tails(name, ats);
    assert forall i :: 0 <= i < |ats| ==> Until(tails[i], SLASH) == PartsAt(name, ats)[i];
    RecvLaws.WalkRoundTrip(fid, newFid, tails, data, at);
  }

  // ---- Where the lookup falls short ----

  /** A tree that is all one directory. */
  function Loop(root: Node): Tree {
    Tree(root, (n, name) => Some(root), n => true)
  }

  lemma JustDotDot()
    ensures Components(DOTDOT) == [DOTDOT]
  {
    PartIsDotDot(DOTDOT, 0);
    assert DOTDOT[0..] == DOTDOT;
    ComponentsStep(DOTDOT);
  }

  /** "./.." at the root leaves it unnoticed. */
  lemma DotHidesEscape(root: Node, o: Outcome)
    requires Allowed(Loop(root), root, root, root, [DOT, SLASH, DOT, DOT], false, o)
    ensures !o.Reauth? && TakesRootParent(Loop(root), root, root, Components([DOT, SLASH, DOT, DOT]), 0)
  {
    var name := [DOT, SLASH, DOT, DOT];
    var rest := name[2..];
    assert rest == DOTDOT && name[0..] == name;
    JustDotDot();
    assert PartAt(name, 0) == [DOT] by { assert Until(name[1..], SLASH) == []; }
    ComponentsStep(name);
    hide Components;
    assert Components(name) == [DOTDOT];
    ReauthIff(Loop(root), root, root, root, name, false, o);
  }

  /** ".." at a root that is not recorded to be one, as after a lookup of "", "." or "/", goes
      unnoticed. */
  lemma UnrecordedRoot(root: Node, o: Outcome)
    requires root != 0 && Allowed(Loop(root), root, 0, root, DOTDOT, false, o)
    ensures !o.Reauth? && TakesRootParent(Loop(root), root, root, Components(DOTDOT), 0)
  {
    JustDotDot();
    hide Components;
    ReauthIff(Loop(root), root, 0, root, DOTDOT, false, o);
  }

  lemma NotRoot(t: Tree, start: Node, j: int)
    requires start != 0
    ensures !TakesRootParent(t, start, 0, [DOTDOT], j)
  {
    assert Resolve(t, start, [DOTDOT], 0) == Some(start);
  }

  /** If the root's path is 0, ".." at any other node reached by such a lookup is taken for a step
      out of the root. */
  lemma FalseEscape(t: Tree, start: Node, faulty: bool, o: Outcome)
    requires start != 0 && Allowed(t, start, 0, 0, DOTDOT, faulty, o)
    ensures o.Reauth? && forall j :: !TakesRootParent(t, start, 0, Components(DOTDOT), j)
  {
    hide Components, Resolve, Ends, Settles, NoneSeen, After, TakesRootParent, StartsOut;
    OutAtOnce(t, start, 0, 0, DOTDOT, faulty);
    JustDotDot();
    forall j ensures !TakesRootParent(t, start, 0, Components(DOTDOT), j) {
      NotRoot(t, start, j);
    }
  }

  /** n components "a", then `tail`. */
  function Deep(n: nat, tail: Name): Name {
    if n == 0 then tail else [97, SLASH] + Deep(n - 1, tail)
  }

  lemma {:induction false} DeepComponents(n: nat, tail: Name)
    ensures |Components(Deep(n, tail))| == n + |Components(tail)|
    ensures forall i :: 0 <= i < n ==> Components(Deep(n, tail))[i] == [97]
    ensures forall i :: 0 <= i < |Components(tail)| ==> Components(Deep(n, tail))[n + i] == Components(tail)[i]
    decreases n
  {
    if n > 0 {
      var rest := Deep(n - 1, tail);
      var name := Deep(n, tail);
      assert name[0] == 97 && name[1] == SLASH && name[2..] == rest;
      assert Until(name, SLASH) == [97] by { assert name[1..][0] == SLASH; }
      ComponentsStep(name);
      hide Components, Deep;
      DeepComponents(n - 1, tail);
      assert Components(name) == [[97]] + Components(rest);
    }
  }

  lemma {:induction false} LoopResolves(root: Node, names: seq<Name>, k: nat)
    requires k <= |names|
    ensures Resolve(Loop(root), root, names, k) == Some(root)
  {
    if k > 0 {
      LoopResolves(root, names, k - 1);
    }
  }

  lemma OnlyLastIsDotDot(n: nat)
    ensures |Components(Deep(n, DOTDOT))| == n + 1 && Components(Deep(n, DOTDOT))[n] == DOTDOT
    ensures forall j :: 0 <= j < n ==> Components(Deep(n, DOTDOT))[j] != DOTDOT
  {
    JustDotDot();
    DeepComponents(n, DOTDOT);
    hide Components, Deep;
    assert Components(DOTDOT)[0] == DOTDOT;
    assert Components(Deep(n, DOTDOT))[n + 0] == DOTDOT;
  }

  lemma NotFirst(here: Node, root: Node, name: Name)
    requires Components(name) != [] && Components(name)[0] != DOTDOT
    ensures !StartsOut(here, root, name)
  {
    if PartAt(name, 0) == DOTDOT {
      FirstPiece(name);
    }
  }

  /** A step out of the root that begins a later walk goes unnoticed. */
  lemma BoundaryHidesEscape(root: Node, n: nat, o: Outcome)
    requires n > 0 && n % 16 == 0
    requires Allowed(Loop(root), root, root, root, Deep(n, DOTDOT), false, o)
    ensures !o.Reauth? && TakesRootParent(Loop(root), root, root, Components(Deep(n, DOTDOT)), n)
  {
    hide Components, Deep, Allowed, Resolve, PartAt;
    var name := Deep(n, DOTDOT);
    OnlyLastIsDotDot(n);
    LoopResolves(root, Components(name), n);
    NotFirst(root, root, name);
    hide StartsOut;
    ReauthIff(Loop(root), root, root, root, name, false, o);
  }

  /** A path that resolves does not stop short. */
  lemma NeverShort(t: Tree, start: Node, root: Node, name: Name, faulty: bool, o: Outcome)
    requires Resolve(t, start, Components(name), |Components(name)|).Some?
    requires Ends(t, start, root, name, Components(name), Starts(name, 0), faulty, o)
    ensures o.Reauth? || (o == Stopped(Rejected) && faulty)
  {
    hide Components, NoneSeen, RetriesAt;
    var comps := Components(name);
    forall k | 0 <= k < |comps| ensures !StopsAt(t, start, comps, k) {
      ResolvedPrefix(t, start, comps, k + 1, |comps|);
    }
  }

  /** What is found can be other than the directory asked for only if the last walk had no names,
      and the error for that is given only if it had some. A server that refuses no request makes
      that exact, unless a step out of the root is noticed. */
  lemma DirectoryChecked(t: Tree, start: Node, here: Node, root: Node, name: Name, faulty: bool, o: Outcome)
    requires Allowed(t, start, here, root, name, faulty, o) && NamesDirectory(name)
    requires Resolve(t, start, Components(name), |Components(name)|).Some?
    requires !t.isDir(Resolve(t, start, Components(name), |Components(name)|).value)
    ensures o.Found? ==> LastWalkEmpty(name)
    ensures o == Stopped(ENOTDIR) ==> !LastWalkEmpty(name)
    ensures !faulty && !o.Reauth? ==> (o == Stopped(ENOTDIR) <==> !LastWalkEmpty(name))
  {
    hide Components, Resolve, NoneSeen, LastWalkEmpty, NamesDirectory;
    if Ends(t, start, root, name, Components(name), Starts(name, 0), faulty, o) {
      NeverShort(t, start, root, name, faulty, o);
    }
  }

  /** A fid is leaked only if the whole path resolves, without a noticed step out of the root, to
      something other than the directory asked for, and the last walk had names; and then always,
      unless the server refuses a request first. */
  lemma LeakIff(t: Tree, start: Node, here: Node, root: Node, name: Name, faulty: bool, o: Outcome)
    requires Allowed(t, start, here, root, name, faulty, o)
    ensures var comps := Components(name);
      var wrong := !StartsOut(here, root, name) && NoneSeen(t, start, root, comps, |comps|)
        && Resolve(t, start, comps, |comps|).Some? && WrongKind(t, name, Resolve(t, start, comps, |comps|).value);
      && (LeaksFid(t, start, name, o) ==> wrong)
      && (wrong && (!faulty || o != Stopped(Rejected)) ==> LeaksFid(t, start, name, o))
  {
    hide Components, Resolve, WrongKind;
    var comps := Components(name);
    if Resolve(t, start, comps, |comps|).Some? && Ends(t, start, root, name, comps, Starts(name, 0), faulty, o) {
      NeverShort(t, start, root, name, faulty, o);
    }
  }

  lemma FileWithSlashResolves(t: Tree, start: Node, here: Node, root: Node)
    requires t.step(start, [97]).Some? && !t.isDir(t.step(start, [97]).value)
    ensures NulFree([97, SLASH]) && Stripped([97, SLASH]) == [97, SLASH] && Components([97, SLASH]) == [[97]]
    ensures Resolve(t, start, [[97]], 1) == t.step(start, [97])
    ensures !StartsOut(here, root, [97, SLASH]) && NoneSeen(t, start, root, [[97]], 1)
    ensures WrongKind(t, [97, SLASH], t.step(start, [97]).value)
  {
    var name := [97, SLASH];
    OneStep(t, start, [97]);
    hide Resolve;
    assert Until(name[1..], SLASH) == [];
    assert Until(name, SLASH) == [97] && name[2..] == [] && name[0..] == name;
    ComponentsStep(name);
    ComponentsStep([]);
    hide Components, NamesDirectory;
    assert Components([]) == [] && Components(name) == [[97]];
    assert NoneSeen(t, start, root, [[97]], 1);
  }

  /** Looking up "a/" where a is a file leaks a fid. */
  method FileWithSlash(c: Client, p: nat) returns (o: Outcome)
    requires p in c.protids && c.next + 4 < NO_FID && c.Valid() && !c.srv.faulty
    requires c.protids[p].walk in c.srv.live
    requires var child := c.srv.tree.step(c.srv.live[c.protids[p].walk].node, [97]);
      child.Some? && !c.srv.tree.isDir(child.value)
    modifies c`next, c`loose, c`protids, c`opens, c`nextId
    modifies c.srv`live, c.srv`walks, c.srv`reported, c.srv`refused
    ensures o == Stopped(ENOTDIR) && c.next !in old(c.srv.live)
    ensures c.loose == old(c.loose) + {c.next} && c.srv.live.Keys == old(c.srv.live.Keys) + {c.next}
    ensures c.protids == old(c.protids) && c.Valid()
  {
    hide Balanced, Tables, Allowed, OnlyLimitsShrink, Components, Resolve, FoundAt;
    TableEntry(c.protids, c.opens, c.nextId, c.srv.maxMessage, p);
    ghost var start, t, po := c.srv.live[c.protids[p].walk].node, c.srv.tree, c.opens[c.protids[p].po];
    FileWithSlashResolves(t, start, po.path, po.rootPath);
    o := Find(c, p, [97, SLASH], {}, false);
    LeakIff(t, start, po.path, po.rootPath, [97, SLASH], false, o);
  }
}
