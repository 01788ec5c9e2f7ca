// The buffered directory cursor: raw server bytes plus a position, behaving like slices of the
// server's listing under skips, rewinds, refills and growth of the output buffer.
module Readdir {
  import opened Bytes
  import opened Wire
  import opened Stat
  import opened StatLaws
  import opened Listing

  datatype Error = Ok | BadRecord | WalkFailed | OpenFailed | ReadFailed

  /** The protid's I/O fid as the server sees it. */
  datatype IoFid = NoFid | Unopened | Opened

  const PAGE: nat := 4096

  /** The offsets of 9P2000.L identify positions. */
  lemma OffsetInjective(d: seq<Entry>, i: nat, j: nat)
    requires i <= |d| && j <= |d| && ListingOk(V9P2000L, d) && OffsetOf(V9P2000L, d, i) == OffsetOf(V9P2000L, d, j)
    ensures i == j
  {
  }

  lemma CoreOffset(v: Version, d: seq<Entry>, k: nat)
    requires v != V9P2000L && ListingOk(v, d) && k <= |d|
    ensures OffsetOf(v, d, k) == ByteOffset(v, d, k)
  {
  }

  /** The server's end: a directory that does not change, and the state of the I/O fid. */
  class DirServer {
    const v: Version
    const d: seq<Entry>
    var io: IoFid
    var upTo: nat      // the entry at which the last read on this fid ended
    var expected: nat  // its offset plus its count; 0 on a fresh fid
    var reopens: nat   // how often the fid was replaced
    ghost var refused: nat  // how many requests were refused for reasons of the server's own
    ghost var noRoom: nat   // and how many because the next entry is longer than was asked for

    ghost predicate Valid()
      reads this
    {
      && ListingOk(v, d) && upTo <= |d|
      && (v != V9P2000L ==> expected == OffsetOf(v, d, upTo))
      && (!io.Opened? ==> upTo == 0)
    }

    constructor (v: Version, d: seq<Entry>)
      requires ListingOk(v, d)
      ensures Valid() && this.v == v && this.d == d && io.NoFid?
    {
      this.v, this.d := v, d;
      io, upTo, expected, reopens := NoFid, 0, 0, 0;
      refused, noRoom := 0, 0;
    }

    /** p9_ensure_open after the open flags were reset: a new fid is walked to and opened, and
        either request can fail. */
    method Reopen() returns (err: Error)
      requires Valid()
      modifies this
      ensures Valid() && upTo == 0 && expected == 0 && reopens == old(reopens) + 1
      ensures noRoom == old(noRoom) && refused == old(refused) + if err.Ok? then 0 else 1
      ensures match err
        case Ok => io.Opened?
        case WalkFailed => io.NoFid?
        case OpenFailed => io.Unopened?
        case _ => false
    {
      upTo, expected, reopens := 0, 0, reopens + 1;
      if * {
        io, refused := NoFid, refused + 1;
        return WalkFailed;
      }
      io := Unopened;
      if * {
        refused := refused + 1;
        return OpenFailed;
      }
      io := Opened;
      err := Ok;
    }

    /** Some entry cannot be read with `count` bytes. */
    ghost predicate Cramped(count: int) {
      exists e :: 0 <= e < |d| && WireLength(v, d[e]) > count
    }

    /** How many requests were not met. */
    ghost function Trouble(): nat
      reads this
    {
      refused + noRoom
    }

    /** A read of the directory at the offset of entry k. Before 9P2000.L the offset must be the
        previous offset plus the previous count. The server answers with whole entries, none
        only at the end, or with an error, as it must on a fid that was never opened. */
    method Read(offset: nat, count: nat, ghost at: nat) returns (err: Error, bytes: seq<Byte>)
      requires Valid() && !io.NoFid?
      requires at <= |d| && offset == OffsetOf(v, d, at)
      requires v != V9P2000L ==> offset == expected && at == upTo
      modifies this
      ensures Valid() && io == old(io) && reopens == old(reopens)
      ensures err.Ok? || (err.ReadFailed? && upTo == old(upTo))
      ensures refused >= old(refused) && noRoom >= old(noRoom) && Trouble() == old(Trouble()) + if err.Ok? then 0 else 1
      ensures noRoom > old(noRoom) ==> Cramped(count)
      ensures io.Unopened? ==> !err.Ok?
      ensures err.Ok? ==> at <= upTo && bytes == Flat(v, d, at, upTo) && |bytes| <= count
      ensures err.Ok? ==> (bytes == [] <==> at == |d|)
    {
      hide ListingOk, RecordOf, WireLength, OffsetOf;
      var refuse := *;
      if !io.Opened? || refuse {
        refused := refused + 1;
        return ReadFailed, [];
      }
      var k: nat :| k <= |d| && offset == OffsetOf(v, d, k) && (v != V9P2000L ==> k == upTo);
      if v == V9P2000L {
        OffsetInjective(d, k, at);
      }
      var m := k;
      FlatStart(v, d, k, k);
      if k < |d| {
        m := k + 1;
        FlatStart(v, d, k, m);
        if |Flat(v, d, k, m)| > count {
          noRoom := noRoom + 1;
          return ReadFailed, [];
        }
        while m < |d| && |Flat(v, d, k, m + 1)| <= count
          invariant k < m <= |d| && |Flat(v, d, k, m)| <= count
          decreases |d| - m
        {
          if * { break; }
          m := m + 1;
        }
        FlatStart(v, d, k, m);
      }
      bytes := Flat(v, d, k, m);
      if v != V9P2000L {
        FlatLength(v, d, k, m);
        CoreOffset(v, d, k);
        CoreOffset(v, d, m);
      }
      upTo := m;
      expected := offset + |bytes|;
      err := Ok;
    }
  }

  // The output buffer.

  lemma HoldsByIndex(s: seq<Byte>, at: nat, b: seq<Byte>)
    requires at + |b| <= |s| && forall i :: 0 <= i < |b| ==> s[at + i] == b[i]
    ensures Holds(s, at, b)
  {
  }

  method CopyIn(data: array<Byte>, at: nat, b: seq<Byte>)
    requires at + |b| <= data.Length
    modifies data
    ensures forall i :: 0 <= i < data.Length ==>
      data[i] == if at <= i < at + |b| then b[i - at] else old(data[i])
  {
    forall i | 0 <= i < |b| {
      data[at + i] := b[i];
    }
  }

  /** Fills in one struct dirent64; the padding keeps whatever was there. */
  method WriteRecord(data: array<Byte>, at: nat, ino: nat, reclen: nat, kind: nat, name: seq<Byte>)
    requires at + NAME_AT + |name| < data.Length
    modifies data
    ensures data[..at] == old(data[..at])
    ensures Fields(data[..], at, ino, reclen, kind, name)
  {
    CopyIn(data, at, Le(ino, 8));
    CopyIn(data, at + 8, Le(reclen, 2));
    data[at + 10] := kind % 256;
    data[at + 11] := |name| % 256;
    CopyIn(data, at + NAME_AT, name);
    data[at + NAME_AT + |name|] := 0;
    HoldsByIndex(data[..], at, Le(ino, 8));
    HoldsByIndex(data[..], at + 8, Le(reclen, 2));
    HoldsByIndex(data[..], at + NAME_AT, name);
  }

  /** Room for `space` more bytes: refused beyond a non-zero bufsize, otherwise found in the
      current buffer or in a larger copy of it. */
  method MakeSpace(data0: array<Byte>, datacnt: nat, space: nat, bufsize: nat) returns (ok: bool, data: array<Byte>)
    requires datacnt <= data0.Length
    ensures ok <==> bufsize == 0 || datacnt + space <= bufsize
    ensures data == data0 || (ok && fresh(data))
    ensures datacnt <= data.Length && data[..datacnt] == data0[..datacnt]
    ensures ok ==> datacnt + space <= data.Length
  {
    data := data0;
    var required := datacnt + space;
    if bufsize != 0 && required > bufsize { return false, data; }
    if required <= data.Length { return true, data; }
    var alloc := (required + PAGE - 1) / PAGE * PAGE;
    data := new Byte[alloc](_ => 0);
    forall i | 0 <= i < datacnt {
      data[i] := data0[i];
    }
    ok := true;
  }

  /** The output holds the entries from f on, `amt` of them, in `datacnt` bytes. */
  ghost predicate Returned(v: Version, d: seq<Entry>, f: nat, amt: nat, data: seq<Byte>, datacnt: nat) {
    if amt == 0 then datacnt == 0
    else f + amt <= |d| && datacnt == PackLen(d, f, f + amt) && Packed(v, d, f, f + amt, data)
  }

  lemma NothingPacked(v: Version, d: seq<Entry>, f: nat, s: seq<Byte>)
    requires f <= |d|
    ensures PackLen(d, f, f) == 0 && Packed(v, d, f, f, s)
  {
  }

  /** One more record behind those already there. */
  lemma ReturnedNext(v: Version, d: seq<Entry>, f: nat, amt: nat, data: seq<Byte>, datacnt: nat, after: seq<Byte>)
    requires Returned(v, d, f, amt, data, datacnt) && f + amt < |d|
    requires datacnt <= |data| && datacnt <= |after| && data[..datacnt] == after[..datacnt]
    requires RecordAt(v, d[f + amt], after, datacnt)
    ensures Returned(v, d, f, amt + 1, after, datacnt + RecLen(d[f + amt]))
  {
    hide RecordAt, RecLen, PackLen, Packed;
    var e := f + amt;
    NothingPacked(v, d, f, after);
    if amt > 0 {
      PackedFrame(v, d, f, e, data, after);
    }
    PackLenNext(d, f, e);
    PackedNext(v, d, f, e, after);
  }

  lemma NothingReturned(v: Version, d: seq<Entry>, data: seq<Byte>)
    ensures forall f: nat :: Returned(v, d, f, 0, data, 0)
  {
  }

  /** What is returned includes its first record. */
  lemma ReturnedHasFirst(v: Version, d: seq<Entry>, f: nat, amt: nat, data: seq<Byte>, datacnt: nat)
    requires Returned(v, d, f, amt, data, datacnt) && amt > 0
    ensures f < |d| && RecLen(d[f]) <= datacnt
  {
    hide RecLen, PackLen, Packed;
    PackLenNext(d, f, f);
    PackLenMonotone(d, f, f + 1, f + amt);
  }

  /** What the client knows of one buffered record. */
  datatype Parsed = Parsed(ino: nat, kind: nat, name: seq<Byte>, consumed: nat)

  function ParsedOf(v: Version, e: Entry): Parsed {
    Parsed(InoOf(e), TypeOf(v, e), NameOf(e), WireLength(v, e))
  }

  /** A non-zero bufsize has no room for any of `lag` records from `entry` on. */
  predicate TooSmall(d: seq<Entry>, entry: nat, lag: nat, bufsize: nat) {
    bufsize != 0 && entry + lag <= |d| && forall e :: entry <= e < entry + lag ==> RecLen(d[e]) > bufsize
  }

  lemma TooSmallNext(d: seq<Entry>, entry: nat, lag: nat, bufsize: nat)
    requires lag == 0 || TooSmall(d, entry, lag, bufsize)
    requires bufsize != 0 && entry + lag < |d| && RecLen(d[entry + lag]) > bufsize
    ensures TooSmall(d, entry, lag + 1, bufsize)
  {
    hide RecLen;
  }

  lemma TooSmallFirst(d: seq<Entry>, entry: nat, lag: nat, bufsize: nat)
    requires lag > 0 && TooSmall(d, entry, lag, bufsize)
    ensures bufsize != 0 && entry + lag <= |d| && RecLen(d[entry]) > bufsize
  {
    hide RecLen;
  }

  /** Puts one record behind the first datacnt bytes, if there is space. */
  method Emit(data0: array<Byte>, datacnt: nat, bufsize: nat, p: Parsed, ghost v: Version, ghost e: Entry)
    returns (ok: bool, data: array<Byte>, count: nat)
    requires datacnt <= data0.Length && p == ParsedOf(v, e)
    requires bufsize != 0 ==> datacnt <= bufsize
    modifies data0
    ensures data == data0 || fresh(data)
    ensures datacnt <= data.Length && data[..datacnt] == old(data0[..datacnt])
    ensures ok <==> bufsize == 0 || datacnt + RecLen(e) <= bufsize
    ensures ok ==> count == datacnt + RecLen(e) <= data.Length && RecordAt(v, e, data[..], datacnt)
    ensures !ok ==> data == data0 && data[..] == old(data0[..]) && count == datacnt
    ensures bufsize != 0 ==> count <= bufsize
  {
    hide Fields, TypeOf, WireLength;
    var reclen := RoundUp(DIRENT64_SIZE + |p.name|);
    count := datacnt;
    ok, data := MakeSpace(data0, datacnt, reclen, bufsize);
    if !ok { return; }
    WriteRecord(data, datacnt, p.ino, reclen, p.kind, p.name);
    count := datacnt + reclen;
  }

  /** What TakeBuffered says about offsets keeps the cursor's offset right. */
  lemma OffsetsKept(v: Version, d: seq<Entry>, k: nat, k1: nat, m: nat, before: nat, after: nat)
    requires ListingOk(v, d) && k <= k1 <= m <= |d|
    requires before == OffsetOf(v, d, k) || (v == V9P2000L && k < m && before == OffsetOf(v, d, k + 1))
    requires v != V9P2000L ==> after + ByteOffset(v, d, k) == before + ByteOffset(v, d, k1)
    requires v == V9P2000L ==>
      (k1 == k && after == before) || after == OffsetOf(v, d, k1) || (k1 < m && after == OffsetOf(v, d, k1 + 1))
    ensures after == OffsetOf(v, d, k1) || (v == V9P2000L && k1 < m && after == OffsetOf(v, d, k1 + 1))
  {
  }

  lemma NothingFlat(v: Version, d: seq<Entry>)
    ensures Flat(v, d, 0, 0) == []
    ensures ListingOk(v, d) ==> OffsetOf(v, d, 0) == 0
  {
  }

  lemma ByteOffsetNext(v: Version, d: seq<Entry>, k: nat)
    requires k < |d|
    ensures ByteOffset(v, d, k + 1) == ByteOffset(v, d, k) + WireLength(v, d[k])
  {
  }

  lemma CookieIsOffset(v: Version, d: seq<Entry>, k: nat)
    requires v == V9P2000L && ListingOk(v, d) && k < |d|
    ensures d[k].Linux? && d[k].cookie == OffsetOf(v, d, k + 1)
  {
    assert EntryOk(v, d[k]);
  }

  class Cursor {
    const srv: DirServer
    var nextEntry: nat
    var nextOffset: nat
    var buf: seq<Byte>

    constructor (srv: DirServer)
      requires srv.Valid() && srv.io.NoFid?
      ensures this.srv == srv && Valid()
    {
      this.srv := srv;
      nextEntry, nextOffset, buf := 0, 0, [];
    }

    /** The buffer holds the records of entries k..m. */
    ghost predicate Holding(k: nat, m: nat)
      reads this
    {
      ListingOk(srv.v, srv.d) && k <= m <= |srv.d| && buf == Flat(srv.v, srv.d, k, m)
    }

    /** The offset stands for position k; a 9P2000.L record that was looked at but not taken has
        moved it one further already. */
    ghost predicate OffsetAt(k: nat, m: nat)
      requires k <= m <= |srv.d| && ListingOk(srv.v, srv.d)
      reads this
    {
      || nextOffset == OffsetOf(srv.v, srv.d, k)
      || (srv.v == V9P2000L && k < m && nextOffset == OffsetOf(srv.v, srv.d, k + 1))
    }

    /** The buffer is the encoding of the entries up to where the last read ended, from the one
        that lies `lag` behind next_entry. */
    ghost predicate Placed(lag: nat)
      reads this, srv
    {
      srv.Valid() && Holding(nextEntry + lag, srv.upTo) && OffsetAt(nextEntry + lag, srv.upTo)
    }

    /** The buffer starts at next_entry, as it should. */
    ghost predicate Valid()
      reads this, srv
    {
      Placed(0)
    }

    /** Parses the first buffered record with the version's own parser. */
    method ParseNext(ghost k: nat, ghost m: nat) returns (err: Error, p: Parsed)
      requires Holding(k, m) && buf != []
      modifies this`nextOffset
      ensures k < m && err.Ok? && p == ParsedOf(srv.v, srv.d[k])
      ensures nextOffset == if srv.v == V9P2000L then OffsetOf(srv.v, srv.d, k + 1) else old(nextOffset)
    {
      hide Encode, StatItems, DirentItems, StatSpec, DirentSpec, Flat, StatLength, OffsetOf;
      FlatStart(srv.v, srv.d, k, m);
      ghost var e := srv.d[k];
      assert EntryOk(srv.v, e);
      err, p := BadRecord, Parsed(0, 0, [], 0);
      if srv.v == V9P2000L {
        EncodedDirentParses(e.qid, e.cookie, e.kind, e.entryName, buf);
        var r := DirentDeserialize(buf);
        if r.NoDirent? { return; }
        nextOffset := r.offset;
        CookieIsOffset(srv.v, srv.d, k);
        p := Parsed(r.qid.path, r.kind, r.name, r.consumed);
      } else {
        EncodedStatParses(srv.v, e.stat, buf);
        var r := StatDeserialize(srv.v, buf);
        if r.Failure? { return; }
        var block := Extended(srv.v) && IsBlockDevice(r.stat.extension);
        p := Parsed(r.stat.qid.path, ModeToDType(srv.v, r.stat.mode, block), r.stat.name, r.consumed);
      }
      err := Ok;
    }

    /** ptr += consumed, and one entry on. */
    method Advance(consumed: nat, ghost k: nat, ghost m: nat)
      requires Holding(k, m) && k < m && consumed == WireLength(srv.v, srv.d[k])
      modifies this
      ensures Holding(k + 1, m) && nextEntry == old(nextEntry) + 1
      ensures nextOffset == if srv.v == V9P2000L then old(nextOffset) else old(nextOffset) + WireLength(srv.v, srv.d[k])
    {
      hide Flat, RecordOf, WireLength, ListingOk;
      FlatStart(srv.v, srv.d, k, m);
      buf := buf[consumed..];
      nextEntry := nextEntry + 1;
      if srv.v != V9P2000L {
        nextOffset := nextOffset + consumed;
      }
    }

    /** The loop over buffered records: skips to `entry`, then emits while there is room and
        need. The ghost k says which entry of the directory next_entry really stands for. */
    method TakeBuffered(data0: array<Byte>, entry: nat, nentries: int, bufsize: nat, ghost k: nat, ghost m: nat)
      returns (err: Error, data: array<Byte>, datacnt: nat, amt: nat, ghost k1: nat)
      requires Holding(k, m) && nentries >= -1
      modifies this, data0
      ensures err.Ok? && (data == data0 || fresh(data)) && datacnt <= data.Length
      ensures k <= k1 && Holding(k1, m) && nextEntry - k1 == old(nextEntry) - k
      ensures entry < old(nextEntry) || nentries == 0 ==> amt == 0 && k1 == k && nextOffset == old(nextOffset)
      ensures entry >= old(nextEntry) ==> Returned(srv.v, srv.d, k + entry - old(nextEntry), amt, data[..], datacnt)
      ensures amt > 0 ==> entry >= old(nextEntry) && nextEntry == entry + amt
      ensures nentries == -1 || amt <= nentries
      ensures (bufsize != 0 ==> datacnt <= bufsize) && (amt == 0 ==> datacnt == 0)
      ensures amt == 0 && entry >= old(nextEntry) ==> nextEntry <= entry || k1 == k
      ensures k1 < m && entry >= old(nextEntry) && nentries != 0 ==>
        k1 >= k + entry - old(nextEntry)
        && (amt == nentries || (bufsize != 0 && datacnt + RecLen(srv.d[k1]) > bufsize))
      ensures srv.v != V9P2000L ==>
        nextOffset + ByteOffset(srv.v, srv.d, k) == old(nextOffset) + ByteOffset(srv.v, srv.d, k1)
      ensures srv.v == V9P2000L ==>
        (k1 == k && nextOffset == old(nextOffset))
        || nextOffset == OffsetOf(srv.v, srv.d, k1)
        || (k1 < m && nextOffset == OffsetOf(srv.v, srv.d, k1 + 1))
      ensures srv.v == V9P2000L && k1 < m && entry >= old(nextEntry) && amt != nentries && nentries != 0 ==>
        nextOffset == OffsetOf(srv.v, srv.d, k1 + 1)
    {
      hide Flat, RecordOf, RecordAt, RecLen, PackLen, Packed, ListingOk, OffsetOf, ByteOffset, WireLength, Returned;
      err, data, datacnt, amt, k1 := Ok, data0, 0, 0, k;
      ghost var n0 := nextEntry;
      ghost var f := if entry >= n0 then k + entry - n0 else 0;
      NothingReturned(srv.v, srv.d, data[..]);
      var e := entry;
      while e >= nextEntry && |buf| > 0 && (amt < nentries || nentries == -1)
        invariant err.Ok? && (data == data0 || fresh(data)) && datacnt <= data.Length
        invariant k <= k1 <= m && Holding(k1, m) && nextEntry - k1 == n0 - k
        invariant e == entry + amt && (nentries == -1 || amt <= nentries) && (bufsize != 0 ==> datacnt <= bufsize)
        invariant entry < n0 || nentries == 0 ==> amt == 0 && k1 == k && nextOffset == old(nextOffset)
        invariant entry >= n0 ==> nextEntry <= e && Returned(srv.v, srv.d, f, amt, data[..], datacnt)
        invariant (amt > 0 ==> entry >= n0 && nextEntry == e) && (amt == 0 ==> datacnt == 0)
        invariant srv.v != V9P2000L ==>
          nextOffset + ByteOffset(srv.v, srv.d, k) == old(nextOffset) + ByteOffset(srv.v, srv.d, k1)
        invariant srv.v == V9P2000L ==>
          (k1 == k && nextOffset == old(nextOffset)) || nextOffset == OffsetOf(srv.v, srv.d, k1)
        decreases m - k1
      {
        var p;
        err, p := ParseNext(k1, m);
        if e == nextEntry {
          var ok, count;
          ghost var before := data[..];
          ok, data, count := Emit(data, datacnt, bufsize, p, srv.v, srv.d[k1]);
          if !ok { break; }
          ReturnedNext(srv.v, srv.d, f, amt, before, datacnt, data[..]);
          datacnt := count;
          amt := amt + 1;
          e := e + 1;
        }
        Advance(p.consumed, k1, m);
        ByteOffsetNext(srv.v, srv.d, k1);
        k1 := k1 + 1;
      }
      FlatStart(srv.v, srv.d, k1, m);
    }

    /** The caller has as many entries as it asked for, or no room for the next one, which is k. */
    predicate Full(k: nat, nentries: int, amt: nat, bufsize: nat, datacnt: nat) {
      amt == nentries || (bufsize != 0 && k < |srv.d| && datacnt + RecLen(srv.d[k]) > bufsize)
    }

    /** The same with the buffer in its place: whatever is returned begins `lag` behind `entry`, and
        if nothing is, it is because the buffer is used up, or (`tight`) has no room. */
    method TakePlaced(data0: array<Byte>, entry: nat, nentries: int, bufsize: nat, ghost lag: nat)
      returns (data: array<Byte>, datacnt: nat, amt: nat, ghost tight: bool)
      requires Placed(lag) && nentries >= -1
      modifies this, data0
      ensures (data == data0 || fresh(data)) && datacnt <= data.Length && Placed(lag)
      ensures Returned(srv.v, srv.d, entry + lag, amt, data[..], datacnt)
      ensures (nentries == -1 || amt <= nentries) && (bufsize != 0 ==> datacnt <= bufsize)
      ensures if amt > 0 then entry >= old(nextEntry) && nextEntry == entry + amt else datacnt == 0
      ensures amt > 0 && buf != [] ==> Full(entry + lag + amt, nentries, amt, bufsize, datacnt)
      ensures entry < old(nextEntry) || nentries == 0 ==>
        amt == 0 && nextEntry == old(nextEntry) && buf == old(buf)
      ensures entry >= old(nextEntry) ==> amt > 0 || (old(nextEntry) <= nextEntry <= entry)
      ensures old(buf) == [] ==> nextEntry == old(nextEntry) && buf == []
      ensures old(buf) != [] && !tight && entry >= old(nextEntry) && nentries != 0 && amt == 0 ==>
        nextEntry > old(nextEntry)
      ensures tight ==> amt == 0 && nentries != 0 && entry >= old(nextEntry)
      ensures amt == 0 && nentries != 0 && entry >= old(nextEntry) ==>
        if tight then
          && nextEntry == entry && entry + lag < srv.upTo && bufsize != 0 && RecLen(srv.d[entry + lag]) > bufsize
          && (srv.v == V9P2000L ==> nextOffset == OffsetOf(srv.v, srv.d, entry + lag + 1))
        else
          buf == [] && nextEntry + lag == srv.upTo && nextOffset == OffsetOf(srv.v, srv.d, srv.upTo)
    {
      hide Flat, RecordOf, RecordAt, RecLen, PackLen, Packed, ListingOk, OffsetOf, ByteOffset, WireLength, Returned;
      ghost var k, m, offset := nextEntry + lag, srv.upTo, nextOffset;
      FlatStart(srv.v, srv.d, k, m);
      var err;
      ghost var k1;
      err, data, datacnt, amt, k1 := TakeBuffered(data0, entry, nentries, bufsize, k, m);
      OffsetsKept(srv.v, srv.d, k, k1, m, offset, nextOffset);
      NothingReturned(srv.v, srv.d, data[..]);
      FlatStart(srv.v, srv.d, k1, m);
      tight := amt == 0 && nentries != 0 && entry >= old(nextEntry) && k1 < m;
    }

    /** Success or failure is the server's: a request is refused for reasons of its own, or because
        an entry does not fit in the two pages, or the most that a message carries, asked for. */
    ghost predicate Asked(refused: nat, noRoom: nat, maxMessage: nat, err: Error)
      reads srv
    {
      && refused <= srv.refused && noRoom <= srv.noRoom
      && srv.refused + srv.noRoom == refused + noRoom + (if err.Ok? then 0 else 1)
      && (srv.noRoom > noRoom ==> srv.Cramped(Min(8192, maxMessage - 24)))
    }

    /** Reads on at `pos`, which the offset stands for. */
    method Fetch(maxMessage: nat, ghost pos: nat) returns (err: Error)
      requires srv.Valid() && !srv.io.NoFid? && maxMessage >= 24
      requires pos <= |srv.d| && nextOffset == OffsetOf(srv.v, srv.d, pos) && (srv.v != V9P2000L ==> pos == srv.upTo)
      modifies this`buf, srv
      ensures srv.Valid() && srv.io == old(srv.io) && srv.reopens == old(srv.reopens)
      ensures err.Ok? || err.ReadFailed?
      ensures Asked(old(srv.refused), old(srv.noRoom), maxMessage, err)
      ensures err.Ok? ==> srv.io.Opened? && Holding(pos, srv.upTo) && (buf == [] <==> pos == |srv.d|)
      ensures err.Ok? && buf != [] ==> srv.upTo > pos
      ensures !err.Ok? ==> buf == [] && srv.upTo == old(srv.upTo)
    {
      hide Flat, RecordOf, ListingOk, OffsetOf;
      var receiveSize := Min(2 * PAGE, maxMessage - 24);
      err, buf := srv.Read(nextOffset, receiveSize, pos);
      FlatStart(srv.v, srv.d, pos, srv.upTo);
      if !err.Ok? {
        buf := [];
      }
    }

    predicate Reuses(entry: nat)
      reads this, srv
    {
      !srv.io.NoFid? && entry >= nextEntry
    }

    /** Where the next read continues: the offset stands for the position `lag` behind next_entry, at
        which the last read ended if nothing was skipped. */
    ghost predicate Continues(lag: nat)
      reads this, srv
    {
      && srv.Valid() && nextEntry + lag <= |srv.d| && nextOffset == OffsetOf(srv.v, srv.d, nextEntry + lag)
      && (srv.v != V9P2000L || lag == 0 ==> nextEntry + lag == srv.upTo)
    }

    /** Asks the server for more, on a fid reopened from the start if there is none or if
        `entry` lies behind the cursor. Success with nothing in the buffer is the end. */
    method Refill(entry: nat, maxMessage: nat, ghost lag0: nat) returns (err: Error, ghost lag: nat)
      requires maxMessage >= 24 && (if Reuses(entry) then Continues(lag0) else Placed(lag0))
      modifies this, srv
      ensures srv.Valid() && srv.reopens == old(srv.reopens) + (if old(Reuses(entry)) then 0 else 1)
      ensures Asked(old(srv.refused), old(srv.noRoom), maxMessage, err)
      ensures if old(Reuses(entry)) then lag == lag0 && nextEntry == old(nextEntry) else lag == 0 == nextEntry
      ensures err.Ok? ==> srv.io.Opened? && Placed(lag) && (buf == [] <==> nextEntry + lag == |srv.d|)
      ensures err.Ok? && buf != [] ==> srv.upTo > nextEntry + lag
      ensures old(Reuses(entry)) ==> (err.Ok? || err.ReadFailed?) && srv.io == old(srv.io)
      ensures lag == 0 ==>
        && (Valid() <==> !((err.WalkFailed? || err.OpenFailed?) && entry < old(nextEntry) && old(buf) != []))
        && (!Valid() ==> nextEntry == 0 && buf == old(buf))
      ensures !err.Ok? && old(Reuses(entry)) ==> buf == []
    {
      hide Flat, RecordOf, ListingOk, OffsetOf;
      NothingFlat(srv.v, srv.d);
      if Reuses(entry) {
        lag := lag0;
        FlatStart(srv.v, srv.d, nextEntry + lag, nextEntry + lag);
        err := Fetch(maxMessage, nextEntry + lag);
      } else {
        nextEntry, nextOffset, lag := 0, 0, 0;
        err := srv.Reopen();
        if !err.Ok? { return; }
        err := Fetch(maxMessage, 0);
      }
    }

    /** The first record asked for can be returned at all. */
    predicate Fits(entry: nat, bufsize: nat) {
      bufsize == 0 || (entry < |srv.d| ==> RecLen(srv.d[entry]) <= bufsize)
    }

    /** The records from `base` to `lag` behind `entry` were skipped, as there is no room for any. */
    predicate Skipped(entry: nat, bufsize: nat, base: nat, lag: nat) {
      && base <= lag
      && (lag > base ==>
        srv.v == V9P2000L && TooSmall(srv.d, entry + base, lag - base, bufsize) && !Fits(entry + base, bufsize))
    }

    /** One pass of parse_existing. If nothing comes of it, more is to be read, and the record it
        ended at, if there was one, is skipped. */
    method TakeOrSkip(data0: array<Byte>, entry: nat, nentries: int, bufsize: nat, ghost base: nat, ghost lag0: nat)
      returns (data: array<Byte>, datacnt: nat, amt: nat, ghost lag: nat)
      requires Placed(lag0) && nentries >= -1 && (entry >= nextEntry ==> Skipped(entry, bufsize, base, lag0))
      requires srv.v == V9P2000L || (lag0 == 0 && Fits(entry, bufsize))
      modifies this, data0
      ensures (data == data0 || fresh(data)) && datacnt <= data.Length
      ensures Returned(srv.v, srv.d, entry + lag, amt, data[..], datacnt)
      ensures (nentries == -1 || amt <= nentries) && (bufsize != 0 ==> datacnt <= bufsize)
      ensures if amt == 0 then datacnt == 0 else
        entry >= old(nextEntry) && nextEntry == entry + amt && (!Fits(entry + base, bufsize) ==> lag > base)
      ensures amt > 0 && buf != [] ==> Full(entry + lag + amt, nentries, amt, bufsize, datacnt)
      ensures entry < old(nextEntry) || nentries == 0 ==>
        amt == 0 && nextEntry == old(nextEntry) && buf == old(buf) && lag == lag0
      ensures amt > 0 || entry < old(nextEntry) || nentries == 0 ==> Placed(lag)
      ensures entry >= old(nextEntry) ==> Skipped(entry, bufsize, base, lag) && (amt > 0 || nextEntry <= entry)
      ensures entry >= old(nextEntry) && amt == 0 && nentries != 0 ==>
        && Continues(lag) && (srv.v != V9P2000L ==> lag == 0) && old(nextEntry) + lag0 <= nextEntry + lag
        && if old(buf) == [] then
             nextEntry == old(nextEntry) && lag == lag0 && nextEntry + lag == srv.upTo && Placed(lag)
           else old(nextEntry) + lag0 < nextEntry + lag
    {
      hide Flat, RecordOf, RecordAt, RecLen, PackLen, Packed, ListingOk, OffsetOf, ByteOffset, WireLength, Returned;
      hide TooSmall, EntryOk;
      ghost var tight;
      FlatStart(srv.v, srv.d, nextEntry + lag0, srv.upTo);
      data, datacnt, amt, tight := TakePlaced(data0, entry, nentries, bufsize, lag0);
      lag := lag0;
      if amt > 0 {
        ReturnedHasFirst(srv.v, srv.d, entry + lag, amt, data[..], datacnt);
      }
      if tight {
        TooSmallNext(srv.d, entry + base, lag - base, bufsize);
        lag := lag + 1;
        TooSmallFirst(srv.d, entry + base, lag - base, bufsize);
        NothingReturned(srv.v, srv.d, data[..]);
      }
    }

    /** From which entry on a call returns records: `lag` behind the one asked for, if the cursor
        is that far behind, unless the call begins with a rewind. */
    ghost function Base(entry: nat, nentries: int, lag: nat): nat
      reads this
    {
      if entry < nextEntry && nentries != 0 then 0 else lag
    }

    /** S_dir_readdir. A successful call returns exactly the entries from `entry` on, at least
        one unless none was asked for or the directory ends before it, and as many as there are in
        the buffer, are asked for and fit. The cursor stays good
        unless a rewind could not reopen the directory while records were still buffered.
        That holds if the first record fits. In 9P2000.L, otherwise, the records that do not fit
        are skipped without being counted: the rest is returned as if it began at `entry`, and so
        it is in later calls (`lag` is how many were skipped) until the directory is read anew. */
    method ReadDir(data0: array<Byte>, entry: nat, nentries: int, bufsize: nat, maxMessage: nat, ghost lag0: nat)
      returns (err: Error, data: array<Byte>, datacnt: nat, amt: nat, ghost lag: nat)
      requires Placed(lag0) && nentries >= -1 && maxMessage >= 24
      requires srv.v == V9P2000L || (lag0 == 0 && Fits(entry, bufsize))
      modifies this, srv, data0
      ensures data == data0 || fresh(data)
      ensures datacnt <= data.Length && (bufsize != 0 ==> datacnt <= bufsize)
      ensures Skipped(entry, bufsize, old(Base(entry, nentries, lag0)), lag)
      ensures !Fits(entry + old(Base(entry, nentries, lag0)), bufsize) && amt > 0 ==>
        lag > old(Base(entry, nentries, lag0))
      ensures Returned(srv.v, srv.d, entry + lag, amt, data[..], datacnt)
      ensures nentries == -1 || amt <= nentries
      ensures !err.Ok? ==> amt == 0 && nentries != 0
      ensures Asked(old(srv.refused), old(srv.noRoom), maxMessage, err)
      ensures err.Ok? ==> (amt == 0 <==> nentries == 0 || entry + lag >= |srv.d|)
      ensures amt > 0 ==> nextEntry == entry + amt
      ensures amt > 0 && buf != [] ==> Full(entry + lag + amt, nentries, amt, bufsize, datacnt)
      ensures lag == 0 ==>
        (Valid() <==>
         !((err.WalkFailed? || err.OpenFailed?) && entry < old(nextEntry) && old(buf) != [] && nentries != 0))
      ensures lag == 0 && !Valid() ==> nextEntry == 0 && buf == old(buf)
      ensures lag > 0 && err.Ok? ==> Placed(lag)
      ensures srv.reopens <= old(srv.reopens) + 1
      ensures entry >= old(nextEntry) && !old(srv.io).NoFid? ==> srv.reopens == old(srv.reopens)
      ensures old(srv.io).Unopened? && nentries != 0 ==> !err.Ok? && srv.io.Unopened?
    {
      hide Flat, RecordOf, RecordAt, RecLen, PackLen, Packed, ListingOk, OffsetOf, ByteOffset, WireLength, Returned;
      hide TooSmall, EntryOk, Fits, DirServer.Cramped;
      data, lag := data0, lag0;
      ghost var base := Base(entry, nentries, lag0);
      NothingFlat(srv.v, srv.d);
      while true
        invariant data == data0 || fresh(data)
        invariant Placed(lag) && srv.refused == old(srv.refused) && srv.noRoom == old(srv.noRoom)
        invariant lag > 0 ==> srv.v == V9P2000L && srv.io.Opened?
        invariant if entry >= nextEntry then Skipped(entry, bufsize, base, lag) else lag == lag0
        invariant srv.reopens <= old(srv.reopens) + (if Reuses(entry) then 1 else 0)
        invariant entry >= old(nextEntry) && !old(srv.io).NoFid? ==>
          srv.reopens == old(srv.reopens) && entry >= nextEntry
        invariant old(srv.io).Unopened? ==> srv.io.Unopened? && nextEntry == 0 && buf == []
        invariant !Reuses(entry) ==> nextEntry == old(nextEntry) && buf == old(buf)
        decreases if Reuses(entry) then 0 else 1, |srv.d| - nextEntry - lag, |srv.d| - srv.upTo
      {
        err := Ok;
        data, datacnt, amt, lag := TakeOrSkip(data, entry, nentries, bufsize, base, lag);
        if amt > 0 || nentries == 0 { return; }
        err, lag := Refill(entry, maxMessage, lag);
        NothingReturned(srv.v, srv.d, data[..]);
        if !err.Ok? || buf == [] { return; }
      }
    }
  }

  /** After a failed rewind the buffer is numbered from 0 although it starts at entry k: a call
      for entry 0 is answered with entry k. */
  method StaleBufferMisnumbers(cur: Cursor, data0: array<Byte>, ghost k: nat, ghost m: nat)
    returns (data: array<Byte>, datacnt: nat)
    requires cur.Holding(k, m) && 0 < k < m && cur.nextEntry == 0
    modifies cur, data0
    ensures datacnt <= data.Length && Returned(cur.srv.v, cur.srv.d, k, 1, data[..], datacnt)
  {
    hide Flat, ListingOk, Packed, Returned;
    var err, amt;
    ghost var k1;
    err, data, datacnt, amt, k1 := cur.TakeBuffered(data0, 0, 1, 0, k, m);
  }

  lemma {:induction false} OffsetsGrow(v: Version, d: seq<Entry>, i: nat, j: nat)
    requires v != V9P2000L && ListingOk(v, d) && i < j <= |d|
    ensures OffsetOf(v, d, i) < OffsetOf(v, d, j)
    decreases j
  {
    hide EntryOk, WireLength;
    assert EntryOk(v, d[j - 1]);
    RecordLength(v, d[j - 1]);
    if i + 1 < j {
      OffsetsGrow(v, d, i, j - 1);
    }
  }

  /** In the older protocols a bufsize without room for the first record makes the client ask for
      more at an offset other than the one that read(5) allows. */
  method SmallBufferAstray(cur: Cursor, data0: array<Byte>, bufsize: nat) returns (data: array<Byte>)
    requires cur.Valid() && cur.srv.v != V9P2000L && cur.nextEntry < cur.srv.upTo
    requires bufsize != 0 && RecLen(cur.srv.d[cur.nextEntry]) > bufsize
    modifies cur, data0
    ensures cur.buf != [] && cur.Reuses(cur.nextEntry) && cur.nextEntry == old(cur.nextEntry)
    ensures cur.nextOffset != cur.srv.expected
  {
    hide Flat, RecordOf, RecordAt, RecLen, PackLen, Packed, ListingOk, OffsetOf, ByteOffset, WireLength, Returned;
    FlatStart(cur.srv.v, cur.srv.d, cur.nextEntry, cur.srv.upTo);
    var datacnt, amt;
    ghost var tight;
    data, datacnt, amt, tight := cur.TakePlaced(data0, cur.nextEntry, 1, bufsize, 0);
    if amt > 0 {
      ReturnedHasFirst(cur.srv.v, cur.srv.d, old(cur.nextEntry), amt, data[..], datacnt);
      assert false;
    }
    FlatStart(cur.srv.v, cur.srv.d, cur.nextEntry, cur.srv.upTo);
    OffsetsGrow(cur.srv.v, cur.srv.d, cur.nextEntry, cur.srv.upTo);
  }

  lemma ReturnedUnpacks(v: Version, d: seq<Entry>, f: nat, amt: nat, data: seq<Byte>, datacnt: nat)
    requires Returned(v, d, f, amt, data, datacnt) && amt > 0 && datacnt <= |data|
    requires forall e :: 0 <= e < |d| ==> ShortName(d[e])
    ensures f + amt <= |d| && Unpack(data, 0, datacnt) == OutsOf(v, d, f, f + amt)
  {
    hide PackLen, Packed, ShortName, Unpack, OutsOf;
    Unpacks(v, d, f, f + amt, data);
  }

  /** An entry as a caller sees it whose bufsize, unless it is 0, limits a record to that many bytes. */
  function Shown(v: Version, e: Entry, bufsize: nat): seq<OutRec> {
    if bufsize != 0 && RecLen(e) > bufsize then [] else [OutOf(v, e)]
  }

  /** Entries i..j, so seen. */
  function Visible(v: Version, d: seq<Entry>, i: nat, j: nat, bufsize: nat): seq<OutRec>
    requires i <= j <= |d|
    decreases j - i
  {
    if i == j then [] else Shown(v, d[i], bufsize) + Visible(v, d, i + 1, j, bufsize)
  }

  lemma {:induction false} VisibleConcat(v: Version, d: seq<Entry>, i: nat, k: nat, j: nat, bufsize: nat)
    requires i <= k <= j <= |d|
    ensures Visible(v, d, i, k, bufsize) + Visible(v, d, k, j, bufsize) == Visible(v, d, i, j, bufsize)
    decreases k - i
  {
    hide Shown;
    if i == k {
      assert Visible(v, d, i, k, bufsize) == [];
    } else {
      VisibleConcat(v, d, i + 1, k, j, bufsize);
      Assoc(Shown(v, d[i], bufsize), Visible(v, d, i + 1, k, bufsize), Visible(v, d, k, j, bufsize));
    }
  }

  /** Records that fit are all seen. */
  lemma {:induction false} AllVisible(v: Version, d: seq<Entry>, i: nat, j: nat, bufsize: nat)
    requires i <= j <= |d| && forall e :: i <= e < j ==> bufsize == 0 || RecLen(d[e]) <= bufsize
    ensures Visible(v, d, i, j, bufsize) == OutsOf(v, d, i, j)
    decreases j - i
  {
    hide OutOf, RecLen;
    if i == j {
    } else {
      AllVisible(v, d, i + 1, j, bufsize);
    }
  }

  /** Records that do not fit are not. */
  lemma {:induction false} NoneVisible(v: Version, d: seq<Entry>, i: nat, lag: nat, bufsize: nat)
    requires i + lag <= |d| && (lag > 0 ==> TooSmall(d, i, lag, bufsize))
    ensures Visible(v, d, i, i + lag, bufsize) == []
    decreases lag
  {
    hide OutOf, RecLen;
    if lag == 0 {
    } else {
      NoneVisible(v, d, i + 1, lag - 1, bufsize);
    }
  }

  /** What is returned fits. */
  lemma ReturnedFits(v: Version, d: seq<Entry>, f: nat, amt: nat, data: seq<Byte>, datacnt: nat, e: nat)
    requires Returned(v, d, f, amt, data, datacnt) && f <= e < f + amt
    ensures f + amt <= |d| && RecLen(d[e]) <= datacnt
  {
    hide RecLen, PackLen, Packed;
    PackLenNext(d, f, e);
    PackLenMonotone(d, f, e + 1, f + amt);
  }

  /** One call's part of the enumeration: the records skipped, then those returned. */
  lemma VisibleStep(v: Version, d: seq<Entry>, i: nat, skipped: nat, amt: nat, data: seq<Byte>, datacnt: nat,
                    bufsize: nat)
    requires (skipped > 0 ==> TooSmall(d, i, skipped, bufsize)) && i <= |d| && datacnt <= |data|
    requires Returned(v, d, i + skipped, amt, data, datacnt) && (bufsize != 0 ==> datacnt <= bufsize)
    requires forall e :: 0 <= e < |d| ==> ShortName(d[e])
    ensures i + skipped <= |d| && (amt > 0 ==> i + skipped + amt <= |d|)
    ensures Visible(v, d, 0, i + skipped, bufsize) == Visible(v, d, 0, i, bufsize)
    ensures amt > 0 ==>
      Visible(v, d, 0, i + skipped + amt, bufsize) == Visible(v, d, 0, i, bufsize) + Unpack(data, 0, datacnt)
  {
    hide RecLen, Returned, OutOf, OutsOf, ShortName, Unpack, Visible;
    assert i + skipped <= |d| by {
      if skipped > 0 {
        TooSmallFirst(d, i, skipped, bufsize);
      }
    }
    var f := i + skipped;
    NoneVisible(v, d, i, skipped, bufsize);
    VisibleConcat(v, d, 0, i, f, bufsize);
    if amt > 0 {
      ReturnedUnpacks(v, d, f, amt, data, datacnt);
      forall e | f <= e < f + amt ensures bufsize == 0 || RecLen(d[e]) <= bufsize {
        ReturnedFits(v, d, f, amt, data, datacnt, e);
      }
      AllVisible(v, d, f, f + amt, bufsize);
      VisibleConcat(v, d, 0, f, f + amt, bufsize);
    }
  }

  /** Advancing `entry` by what each call returned, from any starting cursor, enumerates the
      directory exactly once, as seen by a caller that only follows d_reclen. In 9P2000.L records
      that can never fit the buffer are left out, and no others. */
  method ListAll(cur: Cursor, capacity: nat, nentries: int, bufsize: nat, maxMessage: nat)
    returns (err: Error, all: seq<OutRec>)
    requires cur.Valid() && maxMessage >= 24 && (nentries == -1 || nentries > 0)
    requires forall e :: 0 <= e < |cur.srv.d| ==> ShortName(cur.srv.d[e])
    requires cur.srv.v == V9P2000L || forall e :: 0 <= e <= |cur.srv.d| ==> cur.Fits(e, bufsize)
    modifies cur, cur.srv
    ensures err.Ok? ==> all == Visible(cur.srv.v, cur.srv.d, 0, |cur.srv.d|, bufsize)
    ensures cur.Asked(old(cur.srv.refused), old(cur.srv.noRoom), maxMessage, err)
    ensures cur.srv.refused == old(cur.srv.refused) && !cur.srv.Cramped(Min(8192, maxMessage - 24)) ==> err.Ok?
  {
    hide Flat, RecLen, ListingOk, OffsetOf, Returned, ShortName, Unpack, Visible, ByteOffset, TooSmall;
    all := [];
    var entry := 0;
    ghost var d := cur.srv.d;
    ghost var lag: nat := 0;
    NoneVisible(cur.srv.v, d, 0, 0, bufsize);
    while true
      invariant cur.Placed(lag) && entry + lag <= |d| && all == Visible(cur.srv.v, d, 0, entry + lag, bufsize)
      invariant cur.nextEntry <= entry || (entry == 0 && lag == 0)
      invariant cur.srv.v != V9P2000L ==> lag == 0
      invariant cur.srv.refused == old(cur.srv.refused) && cur.srv.noRoom == old(cur.srv.noRoom)
      decreases |d| - entry
    {
      var data := new Byte[capacity](_ => 0);
      var datacnt, amt;
      ghost var base: nat := lag;
      err, data, datacnt, amt, lag := cur.ReadDir(data, entry, nentries, bufsize, maxMessage, base);
      VisibleStep(cur.srv.v, d, entry + base, lag - base, amt, data[..], datacnt, bufsize);
      if !err.Ok? || amt == 0 { return; }
      all := all + Unpack(data[..], 0, datacnt);
      entry := entry + amt;
    }
  }
}
