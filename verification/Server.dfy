// A 9P server as its clients can observe it: a table of live fids over a tree of files. Every
// request says which fids it needs, so each call site shows that no dead fid is used.
module Server {
  import opened Bytes

  /** Files are numbered by their qid path. */
  type Node = nat

  datatype Tree = Tree(root: Node, step: (Node, Name) -> Option<Node>, isDir: Node -> bool)

  datatype Access = Read | Write | Exec

  /** A live fid: the file it stands for, and the access it was opened with, if it was. */
  datatype Live = Live(node: Node, open: Option<set<Access>>)

  /** The node k names from n, one component at a time. */
  function Resolve(t: Tree, n: Node, names: seq<Name>, k: nat): Option<Node>
    requires k <= |names|
  {
    if k == 0 then Some(n)
    else
      match Resolve(t, n, names, k - 1)
      case None => None
      case Some(m) => t.step(m, names[k - 1])
  }

  lemma OneStep(t: Tree, n: Node, name: Name)
    ensures Resolve(t, n, [name], 1) == t.step(n, name)
  {
    assert Resolve(t, n, [name], 0) == Some(n);
  }

  lemma {:induction false} ResolvedPrefix(t: Tree, n: Node, names: seq<Name>, i: nat, k: nat)
    requires i <= k <= |names| && Resolve(t, n, names, k).Some?
    ensures Resolve(t, n, names, i).Some?
    decreases k
  {
    if i < k {
      ResolvedPrefix(t, n, names, i, k - 1);
    }
  }

  /** Resolution can be cut anywhere. */
  lemma {:induction false} ResolveFrom(t: Tree, n: Node, names: seq<Name>, a: nat, b: nat, i: nat)
    requires a + i <= b <= |names| && Resolve(t, n, names, a).Some?
    ensures Resolve(t, n, names, a + i) == Resolve(t, Resolve(t, n, names, a).value, names[a..b], i)
    decreases i
  {
    if i > 0 {
      ResolveFrom(t, n, names, a, b, i - 1);
    }
  }

  /** A change to the tree that a client asks for, and what the server says to it. */
  datatype Change = MakeDir(dir: Node, name: Name) | Unlink(dir: Node, name: Name, isDir: bool) | Discard(node: Node)

  datatype Reply = Done | Unsupported | Refused

  const MAX_NAMES: nat := 16
  const NO_FID: nat := 0xFFFF_FFFF

  /** The frame of a write of n bytes takes 4+1+2+4+8+4+n bytes; of a read reply, 4+1+2+4+n. */
  function WriteFrame(n: nat): nat { 23 + n }
  function ReadReplyFrame(n: nat): nat { 11 + n }

  function Padded(f: seq<Byte>, n: nat): seq<Byte> {
    if |f| >= n then f else f + seq(n - |f|, _ => 0)
  }

  /** File contents after writing d at offset `at`; writing nothing changes nothing. */
  function Splice(f: seq<Byte>, at: nat, d: seq<Byte>): seq<Byte> {
    var p := Padded(f, at);
    if d == [] then f else p[..at] + d + (if at + |d| < |p| then p[at + |d|..] else [])
  }

  /** The answer to a read of up to n bytes at `at`: a part of the file that starts there, and
      nothing only at the end of the file or if nothing was asked for. */
  predicate ReadsFrom(f: seq<Byte>, at: nat, n: nat, data: seq<Byte>) {
    && |data| <= n
    && (at < |f| ==> at + |data| <= |f| && data == f[at..at + |data|])
    && (data == [] <==> (at >= |f| || n == 0))
  }

  class FileServer {
    const tree: Tree
    const maxMessage: nat   // negotiated limit on frames
    var live: map<nat, Live>
    var files: map<Node, seq<Byte>>
    var walks: seq<seq<Name>>  // the names of every walk so far
    var changes: seq<(Change, Reply)>  // the changes asked for so far
    var reported: nat          // the iounit in the latest reply to an open
    ghost var refused: nat     // how many requests were refused, clunks apart
    ghost var asked: nat       // the count in the latest read or write
    const faulty: bool         // walks may fail for reasons of the server's own

    constructor (tree: Tree, maxMessage: nat, faulty: bool)
      ensures this.tree == tree && this.maxMessage == maxMessage && this.faulty == faulty && live == map[]
    {
      this.tree, this.maxMessage, this.faulty := tree, maxMessage, faulty;
      live, files, walks, changes, reported, refused, asked := map[], map[], [], [], 0, 0, 0;
    }

    /** Tattach: a fid for the root. */
    method Attach(fid: nat) returns (ok: bool, path: Node)
      requires fid !in live && fid != NO_FID
      modifies this`live, this`refused
      ensures refused == old(refused) + if ok then 0 else 1
      ensures live == if ok then old(live)[fid := Live(tree.root, None)] else old(live)
      ensures ok ==> path == tree.root
    {
      path := tree.root;
      ok := *;
      if ok {
        live := live[fid := Live(tree.root, None)];
      } else {
        refused := refused + 1;
      }
    }

    /** Twalk: the new fid exists afterwards exactly if every name was walked; the first name
        failing is an error. */
    method Walk(fid: nat, newFid: nat, names: seq<Name>) returns (ok: bool, qids: seq<Node>)
      requires fid in live && live[fid].open.None?
      requires newFid !in live && newFid != NO_FID
      requires |names| <= MAX_NAMES
      modifies this`live, this`walks, this`refused
      ensures walks == old(walks) + [names] && refused == old(refused) + if ok then 0 else 1
      ensures !ok ==> live == old(live)
      ensures !ok && !faulty ==> names != [] && Resolve(tree, old(live)[fid].node, names, 1).None?
      ensures ok ==> |qids| <= |names| && (names != [] ==> qids != [])
      ensures ok ==> forall i :: 0 <= i < |qids| ==> Resolve(tree, old(live)[fid].node, names, i + 1) == Some(qids[i])
      ensures ok && |qids| < |names| ==>
        live == old(live) && Resolve(tree, old(live)[fid].node, names, |qids| + 1).None?
      ensures ok && |qids| == |names| ==>
        live == old(live)[newFid := Live(if qids == [] then old(live)[fid].node else qids[|qids| - 1], None)]
    {
      walks := walks + [names];
      qids := [];
      if faulty {
        ok := *;
        if !ok {
          refused := refused + 1;
          return;
        }
      }
      var start := live[fid].node;
      var at := start;
      while |qids| < |names|
        invariant |qids| <= |names|
        invariant forall i :: 0 <= i < |qids| ==> Resolve(tree, start, names, i + 1) == Some(qids[i])
        invariant at == if qids == [] then start else qids[|qids| - 1]
        decreases |names| - |qids|
      {
        var next := tree.step(at, names[|qids|]);
        assert Resolve(tree, start, names, |qids|) == Some(at);
        if next.None? { break; }
        at := next.value;
        qids := qids + [at];
      }
      ok := names == [] || qids != [];
      if !ok {
        refused := refused + 1;
      }
      if |qids| == |names| {
        live := live[newFid := Live(at, None)];
      }
    }

    /** Twalk without names: another fid for the same file. */
    method Clone(fid: nat, newFid: nat) returns (ok: bool)
      requires fid in live && live[fid].open.None?
      requires newFid !in live && newFid != NO_FID
      modifies this`live, this`walks, this`refused
      ensures walks == old(walks) + [[]] && refused == old(refused) + if ok then 0 else 1
      ensures live == if ok then old(live)[newFid := Live(old(live)[fid].node, None)] else old(live)
    {
      var qids;
      ok, qids := Walk(fid, newFid, []);
    }

    /** Topen or Tlopen. The server's own limit on a transfer is 0 for none, or workable. */
    method Open(fid: nat, mode: set<Access>) returns (ok: bool, iounit: nat)
      requires fid in live && live[fid].open.None?
      modifies this`live, this`reported, this`refused
      ensures refused == old(refused) + if ok then 0 else 1
      ensures live == if ok then old(live)[fid := Live(old(live)[fid].node, Some(mode))] else old(live)
      ensures iounit == reported && (iounit == 0 || iounit >= 24)
    {
      iounit := 0;
      if * {
        iounit :| iounit >= 24;
      }
      reported := iounit;
      ok := *;
      if ok {
        live := live[fid := Live(live[fid].node, Some(mode))];
      } else {
        refused := refused + 1;
      }
    }

    /** Tcreate of a directory; success turns the fid into an open one for the new file. */
    method Create(fid: nat, name: Name) returns (ok: bool)
      requires fid in live && live[fid].open.None?
      modifies this`live, this`changes, this`refused
      ensures live.Keys == old(live.Keys) && refused == old(refused) + if ok then 0 else 1
      ensures forall f :: f in live && f != fid ==> live[f] == old(live)[f]
      ensures changes == old(changes) + [(MakeDir(old(live)[fid].node, name), if ok then Done else Refused)]
    {
      ok := *;
      changes := changes + [(MakeDir(live[fid].node, name), if ok then Done else Refused)];
      if ok {
        var node: Node := *;
        live := live[fid := Live(node, Some({Read}))];
      } else {
        refused := refused + 1;
      }
    }

    /** Tclunk ends the fid even when it reports an error. */
    method Clunk(fid: nat) returns (ok: bool)
      requires fid in live
      modifies this`live
      ensures live == old(live) - {fid}
    {
      ok := *;
      live := live - {fid};
    }

    /** Tremove also ends the fid in either case. */
    method Remove(fid: nat) returns (ok: bool)
      requires fid in live
      modifies this`live, this`changes, this`refused
      ensures live == old(live) - {fid} && refused == old(refused) + if ok then 0 else 1
      ensures changes == old(changes) + [(Discard(old(live)[fid].node), if ok then Done else Refused)]
    {
      ok := *;
      changes := changes + [(Discard(live[fid].node), if ok then Done else Refused)];
      live := live - {fid};
      if !ok {
        refused := refused + 1;
      }
    }

    /** Tmkdir or Tunlinkat, which name a directory's fid but end or create none. */
    method Ask(fid: nat, change: Change) returns (reply: Reply)
      requires fid in live && live[fid].open.None?
      requires !change.Discard? && change.dir == live[fid].node
      modifies this`changes, this`refused
      ensures changes == old(changes) + [(change, reply)]
      ensures refused == old(refused) + if reply.Refused? then 1 else 0
    {
      reply := *;
      changes := changes + [(change, reply)];
      if reply.Refused? {
        refused := refused + 1;
      }
    }

    /** Tread: nothing only at the end of the file. */
    method ReadFile(fid: nat, offset: nat, count: nat) returns (ok: bool, data: seq<Byte>)
      requires fid in live && live[fid].open.Some? && Read in live[fid].open.value
      requires ReadReplyFrame(count) <= maxMessage
      modifies this`refused, this`asked
      ensures refused == (old(refused) + if ok then 0 else 1) && asked == count
      ensures ok ==> live[fid].node in files
      ensures ok ==> ReadsFrom(files[live[fid].node], offset, count, data)
    {
      ok, data, asked := false, [], count;
      var node := live[fid].node;
      if node in files {
        ok := *;
      }
      if !ok {
        refused := refused + 1;
        return;
      }
      var f := files[node];
      if offset < |f| && count > 0 {
        var most := if count < |f| - offset then count else |f| - offset;
        var n: nat :| 0 < n <= most;
        data := f[offset..offset + n];
      }
    }

    /** Twrite: at least one byte of a non-empty write, and never more than was sent. */
    method WriteFile(fid: nat, offset: nat, data: seq<Byte>) returns (ok: bool, n: nat)
      requires fid in live && live[fid].open.Some? && Write in live[fid].open.value
      requires WriteFrame(|data|) <= maxMessage
      modifies this`files, this`refused, this`asked
      ensures refused == (old(refused) + if ok then 0 else 1) && asked == |data|
      ensures !ok ==> files == old(files)
      ensures ok ==> n <= |data| && (data != [] ==> n > 0)
      ensures ok ==> live[fid].node in old(files)
      ensures ok ==> files == old(files)[live[fid].node := Splice(old(files)[live[fid].node], offset, data[..n])]
    {
      ok, n, asked := false, 0, |data|;
      var node := live[fid].node;
      if node in files {
        ok := *;
      }
      if !ok {
        refused := refused + 1;
        return;
      }
      if data != [] {
        n :| 0 < n <= |data|;
      }
      files := files[node := Splice(files[node], offset, data[..n])];
    }
  }
}
