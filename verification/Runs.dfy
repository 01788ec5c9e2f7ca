// Any number of operations, one after the other, against a server that may fail any request.
module Runs {
  import opened Bytes
  import opened Paths
  import opened Server
  import opened Ledger
  import opened Fids
  import opened Lookup
  import opened Io

  datatype Op =
    | GetRoot(flags: set<Access>)
    | LookUp(p: nat, path: Name, flags: set<Access>, excl: bool)
    | ReadAt(p: nat, offset: int, amount: nat)
    | WriteAt(p: nat, offset: int, data: seq<Byte>)
    | Reauth(p: nat, proved: bool)
    | Mkdir(p: nat, name: Name)
    | Remove(p: nat, name: Name, isDir: bool)
    | Rewind(p: nat)
    | Drop(p: nat)

  /** What the caller gets; Gone if the protid does not exist. */
  datatype Result =
    | Made(protid: nat)
    | Looked(o: Outcome)
    | Data(bytes: seq<Byte>)
    | Wrote(n: nat)
    | Success
    | Erred(error: Error)
    | Gone

  /** Offsets are 64 bits wide, paths are C strings. */
  predicate Sane(op: Op) {
    match op
    case LookUp(_, path, _, _) => NulFree(path)
    case ReadAt(_, offset, _) => offset + TWO_64 >= 0
    case WriteAt(_, offset, _) => offset + TWO_64 >= 0
    case _ => true
  }

  /** At most so many fids are allocated. */
  function Needs(op: Op): nat {
    match op
    case LookUp(_, path, _, _) => |path| + 2
    case _ => 2
  }

  function NeedsOf(ops: seq<Op>): nat {
    if ops == [] then 0 else Needs(ops[0]) + NeedsOf(ops[1..])
  }

  /** What never changes. */
  datatype Setting = Setting(tree: Tree, maxMessage: nat, faulty: bool, linux: bool, readonly: bool)

  /** What the operations change. */
  datatype World = World(
    protids: map<nat, Protid>, opens: map<nat, Peropen>, loose: set<nat>, live: map<nat, Live>,
    files: map<Node, seq<Byte>>, changes: seq<(Change, Reply)>, walks: seq<seq<Name>>, next: nat, reported: nat,
    refused: nat)

  ghost function SettingOf(c: Client): Setting {
    Setting(c.srv.tree, c.srv.maxMessage, c.srv.faulty, c.linux, c.readonly)
  }

  ghost function Now(c: Client): World
    reads c, c.srv
  {
    World(c.protids, c.opens, c.loose, c.srv.live, c.srv.files, c.srv.changes, c.srv.walks, c.next, c.srv.reported,
          c.srv.refused)
  }

  // ---- What each operation does ----

  predicate SameFiles(w: World, v: World) {
    v.files == w.files && v.changes == w.changes
  }

  /** Only p's entry differs, in its I/O fid and flags, and only that fid among the live ones. */
  predicate OnlyIo(p: nat, w: World, v: World) {
    && p in w.protids && p in v.protids && v.protids == w.protids[p := v.protids[p]]
    && v.protids[p].walk == w.protids[p].walk && v.protids[p].po == w.protids[p].po
    && v.live - {v.protids[p].io} == w.live - {w.protids[p].io} && v.loose == w.loose
  }

  predicate RootEffect(k: Setting, flags: set<Access>, w: World, r: Result, v: World) {
    && SameFiles(w, v) && v.loose == w.loose && OnlyLimitsShrink(w.opens, v.opens)
    && match r
       case Made(q) =>
         && !(k.readonly && Write in flags)
         && q !in w.protids && q in v.protids && v.protids == w.protids[q := v.protids[q]]
         && NewRoot(k.tree.root, flags, v.protids[q], v.live, v.opens, FirstLimit(k.maxMessage, flags, v.reported))
         && v.live - {v.protids[q].walk, v.protids[q].io} == w.live
       case Erred(error) =>
         && (error == EROFS || error == Rejected) && (error == EROFS <==> k.readonly && Write in flags)
         && v.protids == w.protids && v.live == w.live
       case _ => false
  }

  ghost predicate LookEffect(k: Setting, p: nat, path: Name, flags: set<Access>, excl: bool, w: World, r: Result,
                             v: World) {
    && SameFiles(w, v) && r.Looked? && p in w.protids && OnlyLimitsShrink(w.opens, v.opens)
    && w.protids[p].walk in w.live && w.protids[p].po in w.opens
    && var name, po, start := Stripped(path), w.opens[w.protids[p].po], w.live[w.protids[p].walk].node;
    && (r.o == Stopped(EROFS) <==> k.readonly && (Write in flags || excl))
    && (r.o != Stopped(EROFS) ==> Allowed(k.tree, start, po.path, po.rootPath, name, k.faulty, r.o))
    && if r.o.Found? then
         && v.loose == w.loose && Asked(w.walks, v.walks, Components(path))
         && FoundAt(k.tree, start, po.rootPath, name, flags, w.protids, w.live, r.o.protid, v.protids, v.live, v.opens,
                    FirstLimit(k.maxMessage, flags, v.reported))
       else
         v.protids == w.protids && Leftover(k.tree, start, name, r.o, v.next, w.live, v.live, w.loose, v.loose)
  }

  predicate ReadEffect(k: Setting, p: nat, offset: int, amount: nat, w: World, r: Result, v: World)
    requires offset + TWO_64 >= 0
  {
    && SameFiles(w, v) && OnlyIo(p, w, v) && w.protids[p].po in w.opens && w.protids[p].po in v.opens
    && var o := w.protids[p].po;
    && OnlyPointerMoves(w.opens, v.opens, o, offset, if r.Data? then |r.bytes| else 0)
    && match r
       case Data(bytes) =>
         && Read in w.opens[o].userFlags && w.protids[p].walk in v.live && v.live[w.protids[p].walk].node in w.files
         && 24 <= v.opens[o].limit
         && ReadsFrom(w.files[v.live[w.protids[p].walk].node], StartOf(offset, w.opens[o].offset),
                      Min(amount, v.opens[o].limit - 24), bytes)
       case Erred(error) =>
         && (error == EBADF || error == Rejected) && (error == EBADF <==> Read !in w.opens[o].userFlags)
       case _ => false
  }

  predicate WriteEffect(k: Setting, p: nat, offset: int, data: seq<Byte>, w: World, r: Result, v: World)
    requires offset + TWO_64 >= 0
  {
    && v.changes == w.changes && OnlyIo(p, w, v) && w.protids[p].po in w.opens && w.protids[p].po in v.opens
    && var o := w.protids[p].po;
    && OnlyPointerMoves(w.opens, v.opens, o, offset, if r.Wrote? then r.n else 0)
    && match r
       case Wrote(n) =>
         && Write in w.opens[o].userFlags && !k.readonly
         && w.protids[p].walk in v.live && v.live[w.protids[p].walk].node in w.files && n <= |data|
         && n + 24 <= v.opens[o].limit && (n == 0 <==> (data == [] || v.opens[o].limit == 24))
         && var node := v.live[w.protids[p].walk].node;
            v.files == w.files[node := Splice(w.files[node], StartOf(offset, w.opens[o].offset), data[..n])]
       case Erred(error) =>
         && v.files == w.files && (error == EBADF || error == EROFS || error == Rejected)
         && (error == EBADF <==> Write !in w.opens[o].userFlags)
         && (error == EROFS <==> Write in w.opens[o].userFlags && k.readonly)
       case _ => false
  }

  predicate ReauthEffect(p: nat, proved: bool, w: World, r: Result, v: World) {
    && SameFiles(w, v) && v.loose == w.loose && v.opens == w.opens && p in w.protids
    && match r
       case Made(q) =>
         && proved && q !in w.protids && v.next !in w.live && w.protids[p].walk in w.live
         && v.protids == w.protids[q := Protid(v.next, NO_FID, {}, w.protids[p].po)]
         && v.live == w.live[v.next := Live(w.live[w.protids[p].walk].node, None)]
       case Erred(error) => error == Rejected && v.protids == w.protids && v.live == w.live
       case _ => false
  }

  predicate MkdirEffect(k: Setting, p: nat, name: Name, w: World, r: Result, v: World) {
    && v.files == w.files && v.protids == w.protids && v.live == w.live && v.loose == w.loose && v.opens == w.opens
    && p in w.protids && w.protids[p].walk in w.live
    && w.changes <= v.changes && |v.changes| <= |w.changes| + 1
    && (|v.changes| > |w.changes| ==> v.changes[|w.changes|].0 == MakeDir(w.live[w.protids[p].walk].node, name))
    && (r == Success <==> |v.changes| > |w.changes| && v.changes[|w.changes|].1 == Done)
    && (r == Erred(EROFS) <==> k.readonly) && (r == Success || r == Erred(EROFS) || r == Erred(Rejected))
  }

  predicate RemoveEffect(k: Setting, p: nat, name: Name, isDir: bool, w: World, r: Result, v: World) {
    && v.files == w.files && v.protids == w.protids && v.live == w.live && v.loose == w.loose && v.opens == w.opens
    && p in w.protids && w.protids[p].walk in w.live
    && Removing(k.tree, w.live[w.protids[p].walk].node, name, isDir, k.linux, k.readonly,
                w.changes, v.changes, r == Success)
    && (r == Erred(EROFS) <==> k.readonly) && (r == Success || r == Erred(EROFS) || r == Erred(Rejected))
  }

  predicate RewindEffect(p: nat, w: World, r: Result, v: World) {
    && SameFiles(w, v) && OnlyIo(p, w, v) && OnlyLimitsShrink(w.opens, v.opens)
    && match r
       case Success =>
         && v.protids[p].io == v.next == w.next + 1 && v.protids[p].flags == {Read}
         && v.next in v.live && v.live[v.next].open == Some({Read})
       case Erred(error) => error == Rejected
       case _ => false
  }

  predicate DropEffect(p: nat, w: World, v: World) {
    && SameFiles(w, v) && p in w.protids && v.opens == w.opens && v.loose == w.loose && v.protids == w.protids - {p}
    && v.live == w.live - {w.protids[p].walk, w.protids[p].io}
  }

  /** The answer is an error for which the server is responsible. */
  predicate Turned(op: Op, r: Result) {
    r == Looked(Stopped(Rejected)) || (r == Erred(Rejected) && !(op.Reauth? && !op.proved))
  }

  /** A directory could not be made because the server does not know the request. */
  predicate NotSupported(op: Op, w: World, v: World) {
    op.Mkdir? && |v.changes| > |w.changes| && v.changes[|w.changes|].1 == Unsupported
  }

  ghost predicate Effect(k: Setting, op: Op, w: World, r: Result, v: World)
    requires Sane(op)
  {
    if !op.GetRoot? && op.p !in w.protids then r == Gone && v == w
    else
      && (v.refused == w.refused || v.refused == w.refused + 1)
      && (Turned(op, r) <==> v.refused > w.refused || NotSupported(op, w, v))
      &&
      match op
      case GetRoot(flags) => RootEffect(k, flags, w, r, v)
      case LookUp(p, path, flags, excl) => LookEffect(k, p, path, flags, excl, w, r, v)
      case ReadAt(p, offset, amount) => ReadEffect(k, p, offset, amount, w, r, v)
      case WriteAt(p, offset, data) => WriteEffect(k, p, offset, data, w, r, v)
      case Reauth(p, proved) => ReauthEffect(p, proved, w, r, v)
      case Mkdir(p, name) => MkdirEffect(k, p, name, w, r, v)
      case Remove(p, name, isDir) => RemoveEffect(k, p, name, isDir, w, r, v)
      case Rewind(p) => RewindEffect(p, w, r, v)
      case Drop(p) => r == Success && DropEffect(p, w, v)
  }

  lemma RootMasked(k: Setting, flags: set<Access>, w: World, r: Result, v: World)
    requires RootEffect(k, flags, w, r, v) && Masked(w.protids)
    ensures Masked(v.protids)
  {
  }

  lemma LookMasked(k: Setting, p: nat, path: Name, flags: set<Access>, excl: bool, w: World, r: Result, v: World)
    requires LookEffect(k, p, path, flags, excl, w, r, v) && Masked(w.protids)
    ensures Masked(v.protids)
  {
    hide Allowed, Asked, Leftover;
  }

  method Transfer(c: Client, op: Op) returns (r: Result)
    requires op.ReadAt? || op.WriteAt?
    requires Sane(op) && op.p in c.protids && c.next + Needs(op) < NO_FID && Masked(c.protids) && c.Valid()
    modifies c`next, c`protids, c`opens
    modifies c.srv`live, c.srv`walks, c.srv`reported, c.srv`files, c.srv`refused, c.srv`asked
    ensures Effect(SettingOf(c), op, old(Now(c)), r, Now(c))
    ensures c.next <= old(c.next) + Needs(op)
    ensures Masked(c.protids) && c.Valid()
  {
    hide Balanced, Tables, OnlyLimitsShrink, OnlyPointerMoves, Splice, ReadsFrom, StartOf, Masked;
    match op
    case ReadAt(p, offset, amount) =>
      var a := IoRead(c, p, offset, amount);
      r := if a.Fine? then Data(a.value) else Erred(a.error);
    case WriteAt(p, offset, data) =>
      var a := IoWrite(c, p, data, offset);
      r := if a.Fine? then Wrote(a.value) else Erred(a.error);
  }

  method Alter(c: Client, op: Op) returns (r: Result)
    requires op.Mkdir? || op.Remove?
    requires op.p in c.protids && c.next + Needs(op) < NO_FID && Masked(c.protids) && c.Valid()
    modifies c`next, c.srv`live, c.srv`walks, c.srv`changes, c.srv`refused
    ensures Effect(SettingOf(c), op, old(Now(c)), r, Now(c))
    ensures c.next <= old(c.next) + Needs(op)
    ensures c.Valid()
  {
    hide Balanced, Tables, Removing, Masked;
    match op
    case Mkdir(p, name) =>
      var a := c.Mkdir(p, name);
      r := if a.Fine? then Success else Erred(a.error);
    case Remove(p, name, isDir) =>
      var a := c.RemoveName(p, name, isDir);
      r := if a.Fine? then Success else Erred(a.error);
  }

  method Look(c: Client, op: Op) returns (r: Result)
    requires op.LookUp?
    requires Sane(op) && op.p in c.protids && c.next + Needs(op) < NO_FID && Masked(c.protids) && c.Valid()
    modifies c`next, c`loose, c`protids, c`opens, c`nextId
    modifies c.srv`live, c.srv`walks, c.srv`reported, c.srv`refused
    ensures Effect(SettingOf(c), op, old(Now(c)), r, Now(c))
    ensures c.next <= old(c.next) + Needs(op)
    ensures Masked(c.protids) && c.Valid()
  {
    hide Balanced, Tables, OnlyLimitsShrink, Allowed, FoundAt, Asked, FirstLimit, Leftover, Masked, NulFree;
    var o := Find(c, op.p, op.path, op.flags, op.excl);
    r := Looked(o);
    LookMasked(SettingOf(c), op.p, op.path, op.flags, op.excl, old(Now(c)), r, Now(c));
  }

  method Manage(c: Client, op: Op) returns (r: Result)
    requires op.Reauth? || op.Rewind? || op.Drop?
    requires op.p in c.protids && c.next + Needs(op) < NO_FID && Masked(c.protids) && c.Valid()
    modifies c`next, c`protids, c`opens, c`nextId
    modifies c.srv`live, c.srv`walks, c.srv`reported, c.srv`refused
    ensures Effect(SettingOf(c), op, old(Now(c)), r, Now(c))
    ensures c.next <= old(c.next) + Needs(op)
    ensures Masked(c.protids) && c.Valid()
  {
    hide Balanced, Tables, OnlyLimitsShrink;
    match op
    case Reauth(p, proved) =>
      var a := c.Reauthenticate(p, proved);
      r := if a.Fine? then Made(a.value) else Erred(a.error);
    case Rewind(p) =>
      var a := c.Rewind(p);
      r := if a.Fine? then Success else Erred(a.error);
    case Drop(p) =>
      c.Release(p);
      r := Success;
  }

  /** One operation. One on a protid that is gone does nothing. */
  method Perform(c: Client, op: Op) returns (r: Result)
    requires Sane(op) && c.next + Needs(op) < NO_FID && Masked(c.protids) && c.Valid()
    modifies c`next, c`loose, c`protids, c`opens, c`nextId
    modifies c.srv`live, c.srv`walks, c.srv`reported, c.srv`changes, c.srv`files, c.srv`refused, c.srv`asked
    ensures Effect(SettingOf(c), op, old(Now(c)), r, Now(c))
    ensures c.next <= old(c.next) + Needs(op)
    ensures Masked(c.protids) && c.Valid()
  {
    hide Balanced, Tables, OnlyLimitsShrink, NewRoot, FirstLimit, LookEffect, NulFree, Masked;
    hide ReadEffect, WriteEffect, MkdirEffect, RemoveEffect, ReauthEffect, RewindEffect, DropEffect;
    if !op.GetRoot? && op.p !in c.protids { return Gone; }
    match op
    case GetRoot(flags) =>
      var a := c.GetRoot(flags);
      r := if a.Fine? then Made(a.value) else Erred(a.error);
      RootMasked(SettingOf(c), flags, old(Now(c)), r, Now(c));
    case LookUp(_, _, _, _) =>
      r := Look(c, op);
    case ReadAt(_, _, _) =>
      r := Transfer(c, op);
    case WriteAt(_, _, _) =>
      r := Transfer(c, op);
    case Mkdir(_, _) =>
      r := Alter(c, op);
    case Remove(_, _, _) =>
      r := Alter(c, op);
    case _ =>
      r := Manage(c, op);
  }

  // ---- Runs ----

  /** Limits never grow; nothing else about a description changes but its file pointer. */
  predicate LimitsNeverGrow(was: map<nat, Peropen>, now: map<nat, Peropen>) {
    forall o :: o in was ==>
      o in now && now[o].limit <= was[o].limit && now[o] == was[o].(limit := now[o].limit, offset := now[o].offset)
  }

  lemma GrowTwice(a: map<nat, Peropen>, b: map<nat, Peropen>, c: map<nat, Peropen>)
    requires LimitsNeverGrow(a, b) && LimitsNeverGrow(b, c)
    ensures LimitsNeverGrow(a, c)
  {
  }

  lemma NeverGrown(a: map<nat, Peropen>)
    ensures LimitsNeverGrow(a, a)
  {
  }

  lemma EffectLimits(k: Setting, op: Op, w: World, r: Result, v: World)
    requires Sane(op) && Effect(k, op, w, r, v)
    ensures LimitsNeverGrow(w.opens, v.opens)
  {
    hide Allowed, NewRoot, FoundAt, Asked, Splice, Removing, FirstLimit, Leftover, ReadsFrom, StartOf, OnlyIo, Moved;
  }

  /** The operation was a lookup that resolved to something other than the directory asked for. */
  predicate Leaked(k: Setting, op: Op, w: World, r: Result) {
    && op.LookUp? && r.Looked? && op.p in w.protids && w.protids[op.p].walk in w.live
    && LeaksFid(k.tree, w.live[w.protids[op.p].walk].node, Stripped(op.path), r.o)
  }

  lemma SameLoose(k: Setting, op: Op, w: World, r: Result, v: World)
    requires op.Reauth? || op.Mkdir? || op.Remove? || op.Rewind?
    requires Effect(k, op, w, r, v)
    ensures v.loose == w.loose
  {
    hide OnlyLimitsShrink, Removing;
  }

  lemma EffectLeaks(k: Setting, op: Op, w: World, r: Result, v: World)
    requires Sane(op) && Effect(k, op, w, r, v)
    ensures if Leaked(k, op, w, r) then v.next !in w.loose && v.loose == w.loose + {v.next} else v.loose == w.loose
  {
    hide Allowed, NewRoot, FoundAt, Asked, Splice, Removing, FirstLimit, ReadsFrom, StartOf, OnlyPointerMoves, NulFree;
    hide OnlyLimitsShrink, RewindEffect, ReauthEffect, MkdirEffect, RemoveEffect, Resolve, Components, Stripped;
    match op
    case Reauth(p, proved) => SameLoose(k, op, w, r, v);
    case Mkdir(p, name) => SameLoose(k, op, w, r, v);
    case Remove(p, name, isDir) => SameLoose(k, op, w, r, v);
    case Rewind(p) => SameLoose(k, op, w, r, v);
    case _ =>
  }

  lemma OneMore(k: Setting, op: Op, w: World, r: Result, v: World)
    requires Sane(op) && Effect(k, op, w, r, v)
    ensures w.loose <= v.loose && |v.loose| == |w.loose| + if Leaked(k, op, w, r) then 1 else 0
  {
    hide Effect, Leaked;
    EffectLeaks(k, op, w, r, v);
  }

  /** A run, step by step: what each operation met, answered and left. */
  ghost predicate History(k: Setting, ops: seq<Op>, results: seq<Result>, worlds: seq<World>) {
    && |results| == |ops| && |worlds| == |ops| + 1
    && forall i :: 0 <= i < |ops| ==> Sane(ops[i]) && Effect(k, ops[i], worlds[i], results[i], worlds[i + 1])
  }

  lemma RefusedGrows(k: Setting, op: Op, w: World, r: Result, v: World)
    requires Sane(op) && Effect(k, op, w, r, v)
    ensures w.refused <= v.refused
    ensures w.refused == v.refused && Turned(op, r) ==> NotSupported(op, w, v)
  {
    hide RootEffect, LookEffect, ReadEffect, WriteEffect, ReauthEffect, MkdirEffect, RemoveEffect, RewindEffect;
    hide DropEffect;
  }

  lemma {:induction false} RefusedSoFar(k: Setting, ops: seq<Op>, results: seq<Result>, worlds: seq<World>,
                                        i: nat, j: nat)
    requires History(k, ops, results, worlds) && i <= j <= |ops|
    ensures worlds[i].refused <= worlds[j].refused
    decreases j
  {
    hide Effect;
    if i < j {
      RefusedSoFar(k, ops, results, worlds, i, j - 1);
      RefusedGrows(k, ops[j - 1], worlds[j - 1], results[j - 1], worlds[j]);
    }
  }

  /** In a run in which the server refuses nothing, no operation blames it, but to make a directory
      of a server that does not know how. */
  lemma NothingRefused(k: Setting, ops: seq<Op>, results: seq<Result>, worlds: seq<World>, i: nat)
    requires History(k, ops, results, worlds) && worlds[|ops|].refused == worlds[0].refused
    requires i < |ops| && Turned(ops[i], results[i])
    ensures NotSupported(ops[i], worlds[i], worlds[i + 1])
  {
    hide Effect, Turned, NotSupported;
    RefusedSoFar(k, ops, results, worlds, 0, i);
    RefusedSoFar(k, ops, results, worlds, i + 1, |ops|);
    RefusedGrows(k, ops[i], worlds[i], results[i], worlds[i + 1]);
  }

  /** How many of the first n operations leaked. */
  function LeakCount(k: Setting, ops: seq<Op>, results: seq<Result>, worlds: seq<World>, n: nat): nat
    requires n <= |ops| && n <= |results| && n <= |worlds|
  {
    if n == 0 then 0
    else LeakCount(k, ops, results, worlds, n - 1)
         + if Leaked(k, ops[n - 1], worlds[n - 1], results[n - 1]) then 1 else 0
  }

  lemma {:induction false} LeakCountGrows(k: Setting, ops: seq<Op>, results: seq<Result>, worlds: seq<World>,
                                          r: Result, v: World, n: nat)
    requires n <= |ops| && n <= |results| && n <= |worlds|
    ensures LeakCount(k, ops, results + [r], worlds + [v], n) == LeakCount(k, ops, results, worlds, n)
    decreases n
  {
    hide Leaked;
    if n > 0 {
      LeakCountGrows(k, ops, results, worlds, r, v, n - 1);
    }
  }

  lemma CountOne(k: Setting, ops: seq<Op>, results: seq<Result>, worlds: seq<World>, r: Result, v: World, n: nat)
    requires n < |ops| && n == |results| && |worlds| == n + 1
    ensures LeakCount(k, ops, results + [r], worlds + [v], n + 1)
         == LeakCount(k, ops, results, worlds, n) + if Leaked(k, ops[n], worlds[n], r) then 1 else 0
  {
    hide Leaked;
    LeakCountGrows(k, ops, results, worlds, r, v, n);
  }

  lemma CountNone(k: Setting, ops: seq<Op>, results: seq<Result>, worlds: seq<World>)
    ensures LeakCount(k, ops, results, worlds, 0) == 0
  {
  }

  lemma InOneWord(linux: bool, ps: map<nat, Protid>, live: map<nat, Live>, loose: set<nat>, next: nat)
    requires Balanced(linux, ps, live, loose, next)
    ensures forall f :: f in live <==> f in loose || exists p :: Owns(ps, p, f)
    ensures forall p, q, f :: Owns(ps, p, f) && Owns(ps, q, f) ==> p == q && f !in loose
    ensures ps == map[] ==> live.Keys == loose
  {
    Conservation(linux, ps, live, loose, next);
  }

  lemma OpenAsBelieved(linux: bool, ps: map<nat, Protid>, live: map<nat, Live>, loose: set<nat>, next: nat)
    requires Balanced(linux, ps, live, loose, next) && Masked(ps)
    ensures forall p :: p in ps && ps[p].io in live && live[ps[p].io].open.Some? ==>
      ps[p].flags <= live[ps[p].io].open.value
  {
    forall p | p in ps && ps[p].io in live && live[ps[p].io].open.Some?
      ensures ps[p].flags <= live[ps[p].io].open.value
    {
      Entry(linux, ps, live, loose, next, p);
      hide Balanced;
      MaskedMeets(linux, ps[p].flags, live[ps[p].io].open.value);
    }
  }

  lemma Workable(protids: map<nat, Protid>, opens: map<nat, Peropen>, nextId: nat, maxMessage: nat)
    requires Tables(protids, opens, nextId, maxMessage)
    ensures forall o :: o in opens ==> MIN_MESSAGE <= opens[o].limit <= maxMessage
  {
  }

  /** In every run all operations are performed. Whatever fails, the live fids are those that the
      protids own, each owned once, and the leaked ones: exactly one for each lookup that resolved
      to something other than the directory asked for, and said so. When all protids are gone, no
      other fid is left. I/O fids are open for what the client believes they are open for. Message
      limits never grow and stay workable. */
  method Run(c: Client, ops: seq<Op>) returns (results: seq<Result>, ghost worlds: seq<World>)
    requires (forall op :: op in ops ==> Sane(op)) && c.next + NeedsOf(ops) < NO_FID && Masked(c.protids) && c.Valid()
    modifies c`next, c`loose, c`protids, c`opens, c`nextId
    modifies c.srv`live, c.srv`walks, c.srv`reported, c.srv`changes, c.srv`files, c.srv`refused, c.srv`asked
    ensures History(SettingOf(c), ops, results, worlds) && worlds[0] == old(Now(c)) && worlds[|ops|] == Now(c)
    ensures forall f :: f in c.srv.live <==> f in c.loose || exists p :: Owns(c.protids, p, f)
    ensures forall p, q, f :: Owns(c.protids, p, f) && Owns(c.protids, q, f) ==> p == q && f !in c.loose
    ensures c.protids == map[] ==> c.srv.live.Keys == c.loose
    ensures old(c.loose) <= c.loose
    ensures |c.loose| == |old(c.loose)| + LeakCount(SettingOf(c), ops, results, worlds, |ops|)
    ensures LimitsNeverGrow(old(c.opens), c.opens)
    ensures forall o :: o in c.opens ==> MIN_MESSAGE <= c.opens[o].limit <= c.srv.maxMessage
    ensures forall p :: p in c.protids && c.protids[p].io in c.srv.live && c.srv.live[c.protids[p].io].open.Some? ==>
      c.protids[p].flags <= c.srv.live[c.protids[p].io].open.value
    ensures Masked(c.protids) && c.Valid()
  {
    hide Balanced, Leaked, LeakCount, Owns, Masked, Effect, Tables, LimitsNeverGrow;
    results, worlds := [], [Now(c)];
    ghost var k, opens0, loose0 := SettingOf(c), c.opens, c.loose;
    NeverGrown(opens0);
    CountNone(k, ops, results, worlds);
    var i := 0;
    assert ops[0..] == ops;
    while i < |ops|
      invariant i <= |ops| && c.next + NeedsOf(ops[i..]) < NO_FID && Masked(c.protids) && c.Valid()
      invariant |results| == i && |worlds| == i + 1 && worlds[0] == old(Now(c)) && worlds[i] == Now(c)
      invariant forall j :: 0 <= j < i ==> Sane(ops[j]) && Effect(k, ops[j], worlds[j], results[j], worlds[j + 1])
      invariant loose0 <= c.loose && |c.loose| == |loose0| + LeakCount(k, ops, results, worlds, i)
      invariant LimitsNeverGrow(opens0, c.opens)
    {
      ghost var w := Now(c);
      assert ops[i..][0] == ops[i] && ops[i..][1..] == ops[i + 1..];
      var r := Perform(c, ops[i]);
      CountOne(k, ops, results, worlds, r, Now(c), i);
      results := results + [r];
      worlds := worlds + [Now(c)];
      OneMore(k, ops[i], w, r, Now(c));
      EffectLimits(k, ops[i], w, r, Now(c));
      GrowTwice(opens0, w.opens, c.opens);
      i := i + 1;
    }
    InOneWord(c.linux, c.protids, c.srv.live, c.loose, c.next);
    OpenAsBelieved(c.linux, c.protids, c.srv.live, c.loose, c.next);
    Workable(c.protids, c.opens, c.nextId, c.srv.maxMessage);
  }
}
