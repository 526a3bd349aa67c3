/** Role and authentication-method lists, brought to one form before an input is digested. */
module Normalize {
  import opened Base
  import opened Lexicographic

  /** The code points strings.TrimSpace removes. */
  predicate IsSpace(c: char) {
    || '\t' <= c <= '\r' || c == ' ' || c == '\U{85}' || c == '\U{A0}' || c == '\U{1680}'
    || '\U{2000}' <= c <= '\U{200a}' || c == '\U{2028}' || c == '\U{2029}' || c == '\U{202f}'
    || c == '\U{205f}' || c == '\U{3000}'
  }

  predicate Blank(s: string) {
    forall i :: 0 <= i < |s| ==> IsSpace(s[i])
  }

  function Insert(x: string, s: seq<string>): (r: seq<string>)
    requires Ascending(s)
    ensures Ascending(r) && multiset(r) == multiset(s) + multiset{x}
  {
    if s == [] then [x]
    else if !Less(s[0], x) then
      Below(x, s);
      [x] + s
    else
      var rest := Insert(x, s[1..]);
      assert s == [s[0]] + s[1..];
      InsertedAbove(s[0], x, s[1..], rest);
      [s[0]] + rest
  }

  lemma Below(x: string, s: seq<string>)
    requires s != [] && Ascending(s) && !Less(s[0], x)
    ensures Ascending([x] + s)
  {
    forall j | 0 <= j < |s| ensures !Less(s[j], x) {
      LessTotal(x, s[0]);
      if Less(s[j], x) {
        if x != s[0] { LessTransitive(s[j], x, s[0]); }
      }
    }
  }

  lemma InsertedAbove(first: string, x: string, tail: seq<string>, rest: seq<string>)
    requires Less(first, x) && Ascending([first] + tail) && Ascending(rest)
    requires multiset(rest) == multiset(tail) + multiset{x}
    ensures Ascending([first] + rest)
  {
    forall j | 0 <= j < |rest| ensures !Less(rest[j], first) {
      assert rest[j] in multiset(rest);
      if rest[j] == x {
        LessTotal(first, x);
      } else {
        var i :| 0 <= i < |tail| && tail[i] == rest[j];
        assert ([first] + tail)[0] == first && ([first] + tail)[i + 1] == tail[i];
      }
    }
  }

  function Sort(s: seq<string>): (r: seq<string>)
    ensures Ascending(r) && multiset(r) == multiset(s)
  {
    if s == [] then []
    else
      assert s == [s[0]] + s[1..];
      Insert(s[0], Sort(s[1..]))
  }

  predicate Keeps(kept: seq<string>, x: string) {
    !Blank(x) && (kept == [] || kept[|kept| - 1] != x)
  }

  /** Drops blanks and neighbouring repetitions. */
  function Compacted(s: seq<string>): seq<string>
    decreases |s|
  {
    if s == [] then []
    else
      var kept := Compacted(s[..|s| - 1]);
      var x := s[|s| - 1];
      if Keeps(kept, x) then kept + [x] else kept
  }

  lemma {:induction false} CompactedElements(s: seq<string>, x: string)
    ensures x in Compacted(s) <==> x in s && !Blank(x)
    decreases |s|
  {
    if s != [] {
      assert s == s[..|s| - 1] + [s[|s| - 1]];
      CompactedElements(s[..|s| - 1], x);
    }
  }

  lemma CompactedStep(s: seq<string>, i: nat)
    requires i < |s|
    ensures Compacted(s[..i + 1]) == if Keeps(Compacted(s[..i]), s[i]) then Compacted(s[..i]) + [s[i]] else Compacted(s[..i])
  {
    assert s[..i + 1][..i] == s[..i];
  }

  /** After i elements the first n hold what is kept of them, and everything from n on is untouched. */
  ghost predicate Stage(s: seq<string>, was: seq<string>, n: nat, i: nat) {
    n <= i <= |was| == |s| && s[..n] == Compacted(was[..i]) && s[n..] == was[n..]
  }

  lemma StageNext(s: seq<string>, was: seq<string>, n: nat, i: nat)
    requires Stage(s, was, n, i) && i < |was|
    ensures if !Blank(s[i]) && (n == 0 || s[n - 1] != s[i]) then Stage(s[n := s[i]], was, n + 1, i + 1) else Stage(s, was, n, i + 1)
  {
    CompactedStep(was, i);
    assert s[i] == s[n..][i - n] == was[i];
    assert n > 0 ==> s[n - 1] == s[..n][n - 1];
    if !Blank(s[i]) && (n == 0 || s[n - 1] != s[i]) {
      var next := s[n := s[i]];
      assert next[..n + 1] == s[..n] + [s[i]];
      assert next[n + 1..] == s[n..][1..] && was[n + 1..] == was[n..][1..];
    }
  }

  /** compact: overwrites its slice from the front and returns how much of it remains. */
  method Compact(v: array<string>) returns (n: nat)
    modifies v
    ensures n <= v.Length && v[..n] == Compacted(old(v[..]))
    ensures v[n..] == old(v[n..])
  {
    n := 0;
    ghost var was := v[..];
    assert was[..0] == [];
    for i := 0 to v.Length
      invariant Stage(v[..], was, n, i)
    {
      var x := v[i];
      StageNext(v[..], was, n, i);
      if !Blank(x) && (n == 0 || v[n - 1] != x) {
        ghost var before := v[..];
        v[n] := x;
        assert v[..] == before[n := x];
        n := n + 1;
      }
    }
    assert was[..v.Length] == was;
  }

  function Normalized(v: seq<string>): seq<string> {
    Compacted(Sort(v))
  }

  /** A Go slice as JSON shows it: None is nil, printed as null; an empty slice is printed as []. */
  type Slice = Option<seq<string>>

  function Elements(v: Slice): seq<string> { if v.Some? then v.value else [] }

  /** Copying an empty slice gives nil, and compaction keeps nil nil; a list of blanks becomes empty instead. */
  function NormalizedSlice(v: Slice): Slice {
    if Elements(v) == [] then None else Some(Normalized(Elements(v)))
  }

  /** Copies, sorts and compacts; the caller's list is left alone. */
  method NormalizeStrings(v: Slice) returns (out: Slice)
    ensures out == NormalizedSlice(v)
  {
    var sorted := Sort(Elements(v));
    assert |sorted| == |multiset(sorted)| == |Elements(v)|;
    if |sorted| == 0 { return None; }
    var a := new string[|sorted|](i requires 0 <= i < |sorted| => sorted[i]);
    assert a[..] == sorted;
    var n := Compact(a);
    out := Some(a[..n]);
  }

  lemma {:induction false} CompactedAscends(s: seq<string>)
    requires Ascending(s)
    ensures StrictlyAscending(Compacted(s))
    ensures Compacted(s) != [] ==> s != [] && !Less(s[|s| - 1], Compacted(s)[|Compacted(s)| - 1])
    decreases |s|
  {
    if s != [] {
      var front, x := s[..|s| - 1], s[|s| - 1];
      CompactedAscends(front);
      var kept := Compacted(front);
      LessTotal(x, x);
      if kept != [] {
        var last := kept[|kept| - 1];
        CompactedElements(front, last);
        assert last in front;
        LessTotal(last, x);
        forall i | 0 <= i < |kept| - 1 && last != x ensures Less(kept[i], x) {
          LessTransitive(kept[i], last, x);
        }
      }
    }
  }

  /** Two lists normalize alike exactly when they name the same roles, blanks aside. */
  lemma NormalizedIffSameSet(v: seq<string>, w: seq<string>)
    ensures Normalized(v) == Normalized(w) <==> forall x :: !Blank(x) ==> (x in v <==> x in w)
    ensures StrictlyAscending(Normalized(v))
  {
    forall u: seq<string> | u == v || u == w
      ensures StrictlyAscending(Normalized(u)) && forall x :: x in Normalized(u) <==> x in u && !Blank(x)
    {
      CompactedAscends(Sort(u));
      forall x ensures x in Normalized(u) <==> x in u && !Blank(x) {
        assert x in Sort(u) <==> x in multiset(Sort(u));
        CompactedElements(Sort(u), x);
      }
    }
    if forall x :: !Blank(x) ==> (x in v <==> x in w) {
      StrictlyAscendingUnique(Normalized(v), Normalized(w));
    } else {
      var x :| !Blank(x) && !(x in v <==> x in w);
      assert x in Normalized(v) <==> x in v;
      assert x in Normalized(w) <==> x in w;
    }
  }

  /** The same names, blanks, order and repetitions aside, and both or neither of the lists empty. */
  ghost predicate SameNames(v: Slice, w: Slice) {
    (forall x :: !Blank(x) ==> (x in Elements(v) <==> x in Elements(w))) && (Elements(v) == [] <==> Elements(w) == [])
  }

  /**
   Equivalent lists are meant to be digested alike. They are exactly when both are empty or neither is:
   a list of blanks and an empty list name the same roles and still differ.
   */
  lemma SlicesAlikeIff(v: Slice, w: Slice)
    ensures NormalizedSlice(v) == NormalizedSlice(w) <==> SameNames(v, w)
    ensures NormalizedSlice(Some([""])) != NormalizedSlice(None)
  {
    NormalizedIffSameSet(Elements(v), Elements(w));
  }
}
