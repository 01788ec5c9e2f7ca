// Path names: what their components are, and how the lookup's scan finds them.
module Paths {
  import opened Bytes

  const DOTDOT: Name := [DOT, DOT]

  /** Empty components and single dots lead nowhere. */
  predicate Dropped(part: Name) {
    part == [] || part == [DOT]
  }

  /** The pieces between the slashes. */
  function Split(s: Name): (pieces: seq<Name>)
    ensures pieces != []
  {
    var h := Until(s, SLASH);
    if |h| == |s| then [h] else [h] + Split(s[|h| + 1..])
  }

  function Effective(pieces: seq<Name>): seq<Name> {
    if pieces == [] then []
    else (if Dropped(pieces[0]) then [] else [pieces[0]]) + Effective(pieces[1..])
  }

  /** The components of a path that count. */
  function Components(s: Name): seq<Name> {
    Effective(Split(s))
  }

  /** A path that ends in a slash or a single dot can only name a directory. */
  predicate NamesDirectory(s: Name) {
    var pieces := Split(s);
    Dropped(pieces[|pieces| - 1])
  }

  // The scan works on positions in the path.

  function PartAt(s: Name, at: nat): (part: Name)
    requires at <= |s|
    ensures at + |part| <= |s|
  {
    Until(s[at..], SLASH)
  }

  predicate Within(s: Name, ats: seq<nat>) {
    forall j :: 0 <= j < |ats| ==> ats[j] <= |s|
  }

  /** Where the components that count start, from position `at` on. */
  function Starts(s: Name, at: nat): (r: seq<nat>)
    requires at <= |s|
    ensures Within(s, r)
    decreases |s| - at
  {
    var h := PartAt(s, at);
    var own := if Dropped(h) then [] else [at];
    if at + |h| == |s| then own else own + Starts(s, at + |h| + 1)
  }

  function PartsAt(s: Name, ats: seq<nat>): (parts: seq<Name>)
    requires Within(s, ats)
    ensures |parts| == |ats|
  {
    seq(|ats|, j requires 0 <= j < |ats| => PartAt(s, ats[j]))
  }

  predicate LastDropped(s: Name, at: nat)
    requires at <= |s|
    decreases |s| - at
  {
    var h := PartAt(s, at);
    if at + |h| == |s| then Dropped(h) else LastDropped(s, at + |h| + 1)
  }

  lemma EffectiveStep(h: Name, rest: seq<Name>)
    ensures Effective([h] + rest) == (if Dropped(h) then [] else [h]) + Effective(rest)
  {
    DropHead([h], rest);
    OneTail(h);
    assert [] + rest == rest;
  }

  lemma LastOf(h: Name, rest: seq<Name>)
    requires rest != []
    ensures ([h] + rest)[|rest|] == rest[|rest| - 1]
  {
  }

  lemma SplitStep(s: Name)
    ensures var h := Until(s, SLASH); Split(s) == if |h| == |s| then [h] else [h] + Split(s[|h| + 1..])
  {
    hide Until;
  }

  lemma EndWith(h: Name)
    ensures [h] + [] == [h]
  {
  }

  lemma NoneEffective()
    ensures Effective([]) == []
  {
  }

  /** One piece at a time. */
  lemma ComponentsStep(s: Name)
    ensures var h := Until(s, SLASH);
      if |h| == |s| then
        Components(s) == (if Dropped(h) then [] else [h]) && NamesDirectory(s) == Dropped(h)
      else
        && Components(s) == (if Dropped(h) then [] else [h]) + Components(s[|h| + 1..])
        && NamesDirectory(s) == NamesDirectory(s[|h| + 1..])
  {
    hide Until, Dropped, Split, Effective;
    var h := Until(s, SLASH);
    SplitStep(s);
    if |h| == |s| {
      EffectiveStep(h, []);
      NoneEffective();
      EndWith(h);
      assert (if Dropped(h) then [] else [h]) + [] == if Dropped(h) then [] else [h];
    } else {
      var rest := Split(s[|h| + 1..]);
      EffectiveStep(h, rest);
      LastOf(h, rest);
    }
  }

  predicate Plain(h: Name) {
    forall i :: 0 <= i < |h| ==> h[i] != SLASH && h[i] != 0
  }

  lemma UntilSlash(h: Name, rest: Name)
    requires Plain(h)
    ensures Until(h + [SLASH] + rest, SLASH) == h && Until(h, SLASH) == h
    ensures (h + [SLASH] + rest)[|h| + 1..] == rest
  {
    var s := h + [SLASH] + rest;
    var r, q := Until(s, SLASH), Until(h, SLASH);
    assert s[|h|] == SLASH && forall i :: 0 <= i < |h| ==> s[i] == h[i];
    if |r| < |h| { assert false; }
    if |r| > |h| { assert false; }
    if |q| < |h| { assert false; }
  }

  /** A piece in front of a slash. */
  lemma PieceFirst(h: Name, rest: Name)
    requires Plain(h)
    ensures Components(h + [47] + rest) == (if h == [] || h == [46] then [] else [h]) + Components(rest)
    ensures NamesDirectory(h + [47] + rest) == NamesDirectory(rest)
    ensures Components(h) == if h == [] || h == [46] then [] else [h]
    ensures NamesDirectory(h) == (h == [] || h == [46])
  {
    UntilSlash(h, rest);
    ComponentsStep(h + [SLASH] + rest);
    ComponentsStep(h);
  }

  /** "a//./b/": two components, and it must be a directory. */
  lemma PathExample()
    ensures Components([97, 47, 47, 46, 47, 98, 47]) == [[97], [98]]
    ensures NamesDirectory([97, 47, 47, 46, 47, 98, 47])
  {
    hide Components, NamesDirectory;
    PieceFirst([], []);
    PieceFirst([98], []);
    PieceFirst([46], [98, 47]);
    PieceFirst([], [46, 47, 98, 47]);
    PieceFirst([97], [47, 46, 47, 98, 47]);
    assert [98] + [47] + [] == [98, 47] && [46] + [47] + [98, 47] == [46, 47, 98, 47];
    assert [] + [47] + [46, 47, 98, 47] == [47, 46, 47, 98, 47];
    assert [97] + [47] + [47, 46, 47, 98, 47] == [97, 47, 47, 46, 47, 98, 47];
  }

  lemma PartsAtJoin(s: Name, a: seq<nat>, b: seq<nat>)
    requires Within(s, a) && Within(s, b)
    ensures Within(s, a + b) && PartsAt(s, a + b) == PartsAt(s, a) + PartsAt(s, b)
  {
  }

  lemma PartsAtOne(s: Name, at: nat)
    requires at <= |s|
    ensures PartsAt(s, [at]) == [PartAt(s, at)]
  {
  }

  /** One piece at a time, by position. */
  lemma ComponentsFrom(s: Name, at: nat)
    requires at <= |s|
    ensures var h := PartAt(s, at);
      if at + |h| == |s| then
        Components(s[at..]) == (if Dropped(h) then [] else [h]) && NamesDirectory(s[at..]) == Dropped(h)
      else
        && Components(s[at..]) == (if Dropped(h) then [] else [h]) + Components(s[at + |h| + 1..])
        && NamesDirectory(s[at..]) == NamesDirectory(s[at + |h| + 1..])
  {
    hide Components, NamesDirectory, Dropped, Until;
    ComponentsStep(s[at..]);
    var h := PartAt(s, at);
    if at + |h| < |s| {
      assert s[at..][|h| + 1..] == s[at + |h| + 1..];
    }
  }

  /** The scan finds the components, all of them and in order. */
  lemma {:induction false} ScanFinds(s: Name, at: nat)
    requires at <= |s|
    ensures PartsAt(s, Starts(s, at)) == Components(s[at..])
    ensures LastDropped(s, at) == NamesDirectory(s[at..])
    decreases |s| - at
  {
    hide Components, NamesDirectory, Dropped, Until, PartAt;
    ComponentsFrom(s, at);
    PartsAtOne(s, at);
    hide PartsAt;
    var h := PartAt(s, at);
    var own := if Dropped(h) then [] else [at];
    PartsAtJoin(s, own, []);
    if at + |h| < |s| {
      ScanFinds(s, at + |h| + 1);
      PartsAtJoin(s, own, Starts(s, at + |h| + 1));
    }
  }

  lemma PartIsDotDot(s: Name, at: nat)
    requires at <= |s| && NulFree(s)
    ensures PartAt(s, at) == DOTDOT <==>
      at + 2 <= |s| && s[at] == DOT && s[at + 1] == DOT && (at + 2 == |s| || s[at + 2] == SLASH)
  {
    var t := s[at..];
    assert forall i :: 0 <= i < |t| ==> t[i] == s[at + i];
    if at + 2 <= |s| && s[at] == DOT && s[at + 1] == DOT {
      assert Until(t, SLASH) == [DOT] + Until(t[1..], SLASH);
      assert Until(t[1..], SLASH) == [DOT] + Until(t[2..], SLASH);
    }
  }

  function Stripped(s: Name): (r: Name)
    ensures |r| <= |s| && r == s[|s| - |r|..]
  {
    if s != [] && s[0] == SLASH then Stripped(s[1..]) else s
  }

  lemma StrippedStep(s: Name)
    ensures Stripped(s) == if s != [] && s[0] == SLASH then Stripped(s[1..]) else s
  {
  }

  /** All slashes in front are gone, and nothing else. */
  lemma {:induction false} OnlySlashesGone(s: Name)
    ensures Stripped(s) == [] || Stripped(s)[0] != 47
    ensures forall i :: 0 <= i < |s| - |Stripped(s)| ==> s[i] == 47
  {
    hide Stripped;
    StrippedStep(s);
    if s != [] && s[0] == SLASH {
      var t := s[1..];
      OnlySlashesGone(t);
      assert forall i :: 0 < i < |s| ==> s[i] == t[i - 1];
    }
  }

  lemma NothingUntil(s: Name)
    requires s != [] && s[0] == SLASH
    ensures Until(s, SLASH) == []
  {
  }

  /** Slashes in front do not count. */
  lemma {:induction false} StrippedComponents(s: Name)
    ensures Components(Stripped(s)) == Components(s)
    ensures NamesDirectory(Stripped(s)) == NamesDirectory(s)
  {
    hide Components, NamesDirectory;
    if s != [] && s[0] == SLASH {
      StrippedComponents(s[1..]);
      ComponentsStep(s);
      NothingUntil(s);
      assert [] + Components(s[1..]) == Components(s[1..]);
    }
  }

  lemma StrippedNulFree(s: Name)
    requires NulFree(s)
    ensures NulFree(Stripped(s))
  {
    var r := Stripped(s);
    assert forall i :: 0 <= i < |r| ==> r[i] == s[|s| - |r| + i];
  }

  method StripSlashes(s: Name) returns (r: Name)
    ensures r == Stripped(s)
  {
    r := s;
    while r != [] && r[0] == SLASH
      invariant Stripped(r) == Stripped(s)
      decreases |r|
    {
      r := r[1..];
    }
  }
}
