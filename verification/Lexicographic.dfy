/** Go's byte-wise string order, and what a sort by it determines. */
module Lexicographic {

  predicate Less(a: string, b: string) {
    if b == [] then false
    else if a == [] then true
    else a[0] < b[0] || (a[0] == b[0] && Less(a[1..], b[1..]))
  }

  lemma {:induction false} LessTotal(a: string, b: string)
    ensures Less(a, b) || Less(b, a) || a == b
    ensures !(Less(a, b) && Less(b, a)) && !Less(a, a)
    decreases |a|
  {
    if a != [] {
      LessTotal(a[1..], a[1..]);
      if b != [] && a[0] == b[0] {
        LessTotal(a[1..], b[1..]);
        assert a == [a[0]] + a[1..] && b == [b[0]] + b[1..];
      }
    }
  }

  lemma {:induction false} LessTransitive(a: string, b: string, c: string)
    requires Less(a, b) && Less(b, c)
    ensures Less(a, c)
    decreases |a|
  {
    if a != [] && a[0] == b[0] == c[0] {
      LessTransitive(a[1..], b[1..], c[1..]);
    }
  }

  ghost predicate Ascending(s: seq<string>) {
    forall i, j :: 0 <= i < j < |s| ==> !Less(s[j], s[i])
  }

  ghost predicate StrictlyAscending(s: seq<string>) {
    forall i, j :: 0 <= i < j < |s| ==> Less(s[i], s[j])
  }

  /** A strictly ascending sequence is determined by its elements. */
  lemma {:induction false} StrictlyAscendingUnique(s: seq<string>, t: seq<string>)
    requires StrictlyAscending(s) && StrictlyAscending(t)
    requires forall x :: x in s <==> x in t
    ensures s == t
    decreases |s|
  {
    assert |t| > 0 ==> t[0] in s;
    if s != [] {
      assert s[0] in t;
      var i :| 0 <= i < |t| && t[i] == s[0];
      assert t[0] in s;
      var j :| 0 <= j < |s| && s[j] == t[0];
      if i > 0 && j > 0 { LessTotal(s[0], t[0]); }
      assert s[0] == t[0];
      LessTotal(s[0], s[0]);
      assert forall x :: x in s[1..] <==> x in s && x != s[0];
      assert forall x :: x in t[1..] <==> x in t && x != t[0];
      StrictlyAscendingUnique(s[1..], t[1..]);
      assert s == [s[0]] + s[1..] && t == [t[0]] + t[1..];
    }
  }

  predicate IsLeast(s: set<string>, l: string) {
    l in s && forall x :: x in s && x != l ==> Less(l, x)
  }

  lemma {:induction false} LeastOf(s: set<string>) returns (least: string)
    requires s != {}
    ensures IsLeast(s, least)
    decreases |s|
  {
    var x :| x in s;
    var rest := s - {x};
    if rest == {} {
      assert s == {x};
      least := x;
    } else {
      var l := LeastOf(rest);
      LessTotal(x, l);
      least := if Less(x, l) then x else l;
      forall y | y in s && y != least ensures Less(least, y) {
        if least == x && y != l {
          assert Less(l, y);
          LessTransitive(x, l, y);
        }
      }
    }
  }

  lemma LeastExistsOnce(s: set<string>)
    requires s != {}
    ensures exists l :: IsLeast(s, l)
    ensures forall l, m :: IsLeast(s, l) && IsLeast(s, m) ==> l == m
  {
    var l := LeastOf(s);
    forall l, m | IsLeast(s, l) && IsLeast(s, m) ensures l == m {
      LessTotal(l, m);
    }
  }

  /** The elements of a set in order: how Go prints the keys of a map. */
  function SortedElements(s: set<string>): (r: seq<string>)
    ensures forall x :: x in r <==> x in s
    decreases |s|
  {
    if s == {} then []
    else
      LeastExistsOnce(s);
      var least :| least in s && IsLeast(s, least);
      [least] + SortedElements(s - {least})
  }
}
