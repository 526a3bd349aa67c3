/**
 The constraint algebra: numeric maxima, exact strings, string allowlists and nested objects.
 Values are what JSON decoding leaves; a number keeps its exact value and its spelling.
 */
module Constraints {
  import opened Base
  import Lexicographic

  datatype Value =
    | Num(value: real, text: string)
    | Str(s: string)
    | List(items: seq<Value>)
    | Obj(fields: Fields)
    | Bool(b: bool)
    | Null

  type Fields = map<string, Value>

  predicate AllStrings(items: seq<Value>) {
    forall i :: 0 <= i < |items| ==> items[i].Str?
  }

  /** Keeps the restriction's order and repetitions, dropping what the ceiling does not allow. */
  function Filter(items: seq<Value>, allowed: seq<Value>): seq<Value>
    decreases |items|
  {
    if items == [] then []
    else
      var last := items[|items| - 1];
      Filter(items[..|items| - 1], allowed) + if last in allowed then [last] else []
  }

  lemma {:induction false} FilterElements(items: seq<Value>, allowed: seq<Value>)
    ensures forall x :: x in Filter(items, allowed) <==> x in items && x in allowed
    ensures AllStrings(items) ==> AllStrings(Filter(items, allowed))
    decreases |items|
  {
    if items != [] {
      var front, last := items[..|items| - 1], items[|items| - 1];
      FilterElements(front, allowed);
      assert forall x :: x in items <==> x in front || x == last;
    }
  }

  lemma {:induction false} FilterKeepsAll(items: seq<Value>, allowed: seq<Value>)
    requires forall i :: 0 <= i < |items| ==> items[i] in allowed
    ensures Filter(items, allowed) == items
    decreases |items|
  {
    if items != [] {
      var front, last := items[..|items| - 1], items[|items| - 1];
      FilterKeepsAll(front, allowed);
      assert items == front + [last];
    }
  }

  function Meet(ceiling: Value, restriction: Value): Option<Value>
    decreases ceiling, 2
  {
    match ceiling
    case Num(limit, _) =>
      if !restriction.Num? || limit < 0.0 || restriction.value < 0.0 then None
      else Some(if restriction.value < limit then restriction else ceiling)
    case Str(_) => if restriction == ceiling then Some(ceiling) else None
    case List(limit) =>
      if restriction.List? && AllStrings(limit) && AllStrings(restriction.items)
      then Some(List(Filter(restriction.items, limit))) else None
    case Obj(_) =>
      if restriction.Obj? && MeetDefined(ceiling, restriction) then Some(Obj(MeetFields(ceiling, restriction))) else None
    case Bool(_) => None
    case Null => None
  }

  predicate MeetDefined(a: Value, r: Value)
    requires a.Obj? && r.Obj?
    decreases a, 0
  {
    && (forall k :: k in a.fields ==> Meet(a.fields[k], a.fields[k]).Some?)
    && (forall k :: k in r.fields ==> k in a.fields)
    && (forall k :: k in a.fields && k in r.fields ==> Meet(a.fields[k], r.fields[k]).Some?)
  }

  function MeetFields(a: Value, r: Value): Fields
    requires a.Obj? && r.Obj? && MeetDefined(a, r)
    decreases a, 1
  {
    map k | k in a.fields ::
      if k in r.fields then Meet(a.fields[k], r.fields[k]).value else Meet(a.fields[k], a.fields[k]).value
  }

  function Intersect(authority: Fields, restrictions: Fields): Option<Fields> {
    var m := Meet(Obj(authority), Obj(restrictions));
    if m.Some? then Some(m.value.fields) else None
  }

  // ---- constraintsNarrow -----------------------------------------------------------------------

  /** What fmt.Sprint prints; the code compares allowlist entries and unknown shapes through it. */
  function Sprint(v: Value): (text: string)
    decreases v, 2
    ensures v.List? ==> text != [] && text[0] == '['
    ensures v.Obj? ==> text != [] && text[0] == 'm'
  {
    match v
    case Num(_, text) => text
    case Str(s) => s
    case Bool(b) => if b then "true" else "false"
    case Null => "<nil>"
    case List(items) => "[" + SprintItems(v, 0) + "]"
    case Obj(fields) => "map[" + SprintFields(v, Lexicographic.SortedElements(fields.Keys)) + "]"
  }

  function SprintItems(v: Value, i: nat): string
    requires v.List? && i <= |v.items|
    decreases v, 1, |v.items| - i
  {
    if i == |v.items| then ""
    else (if i > 0 then " " else "") + Sprint(v.items[i]) + SprintItems(v, i + 1)
  }

  function SprintFields(v: Value, keys: seq<string>): string
    requires v.Obj? && forall k :: k in keys ==> k in v.fields
    decreases v, 1, |keys|
  {
    if keys == [] then ""
    else
      keys[0] + ":" + Sprint(v.fields[keys[0]]) + (if |keys| > 1 then " " else "") + SprintFields(v, keys[1..])
  }

  predicate Subset(values: seq<Value>, allowed: seq<Value>) {
    forall v :: v in values ==> exists a :: a in allowed && Sprint(a) == Sprint(v)
  }

  predicate NarrowValue(got: Value, limit: Value)
    decreases got, 1
  {
    match got
    case Num(x, _) => limit.Num? && x <= limit.value
    case Str(_) => limit == got
    case List(items) => limit.List? && Subset(items, limit.items)
    case Obj(_) => limit.Obj? && NarrowFields(got, limit)
    case Bool(_) => Sprint(got) == Sprint(limit)
    case Null => Sprint(got) == Sprint(limit)
  }

  predicate NarrowFields(got: Value, limit: Value)
    requires got.Obj? && limit.Obj?
    decreases got, 0
  {
    forall k :: k in got.fields ==> k in limit.fields && NarrowValue(got.fields[k], limit.fields[k])
  }

  predicate Narrow(got: Fields, ceiling: Fields) {
    NarrowFields(Obj(got), Obj(ceiling))
  }

  /** Decoded JSON: the text of a number starts as a JSON number does. */
  ghost predicate Json(v: Value) {
    match v
    case Num(_, text) => text != [] && (text[0] == '-' || '0' <= text[0] <= '9')
    case List(items) => forall i :: 0 <= i < |items| ==> Json(items[i])
    case Obj(fields) => forall k :: k in fields ==> Json(fields[k])
    case _ => true
  }

  lemma {:induction false} NarrowReflexive(v: Value)
    ensures NarrowValue(v, v)
  {
    if v.Obj? {
      forall k | k in v.fields ensures NarrowValue(v.fields[k], v.fields[k]) {
        NarrowReflexive(v.fields[k]);
      }
    }
  }

  lemma {:induction false} NarrowTransitive(a: Value, b: Value, c: Value)
    requires Json(b) && NarrowValue(a, b) && NarrowValue(b, c)
    ensures NarrowValue(a, c)
  {
    match a
    case Obj(fields) =>
      forall k | k in fields ensures k in c.fields && NarrowValue(fields[k], c.fields[k]) {
        NarrowTransitive(fields[k], b.fields[k], c.fields[k]);
      }
    case List(items) =>
      forall v | v in items ensures exists x :: x in c.items && Sprint(x) == Sprint(v) {
        var y :| y in b.items && Sprint(y) == Sprint(v);
        var z :| z in c.items && Sprint(z) == Sprint(y);
      }
    case _ =>
  }

  /**
   The narrowing test is documented to fail closed on unknown shapes. It does not: a boolean or null
   among the values being tested is compared through its printed text, so it passes exactly against
   itself and against the string that spells it.
   */
  lemma UnknownShapeNarrowsIff(got: Value, limit: Value)
    requires (got.Bool? || got.Null?) && Json(limit)
    ensures NarrowValue(got, limit) <==> limit == got || limit == Str(Sprint(got))
    ensures NarrowValue(Bool(true), Str("true"))
  {
  }

  /** What an allowlist entry is accepted against, by its shape: numbers by spelling, lists and objects by their flattened text. */
  predicate AcceptedBy(entry: Value, allowed: Value) {
    allowed == Str(Sprint(entry)) ||
    match entry
    case Num(_, text) => allowed.Num? && allowed.text == text
    case Str(s) => Sprint(allowed) == s
    case List(_) => allowed.List? && SprintItems(allowed, 0) == SprintItems(entry, 0)
    case Obj(fields) =>
      allowed.Obj? && SprintFields(allowed, Lexicographic.SortedElements(allowed.fields.Keys)) ==
                      SprintFields(entry, Lexicographic.SortedElements(fields.Keys))
    case Bool(b) => allowed == entry
    case Null => allowed == entry
  }

  lemma Bracketed(open: string, a: string, b: string)
    ensures open + a + "]" == open + b + "]" <==> a == b
  {
    assert a == (open + a + "]")[|open|..|open| + |a|] && b == (open + b + "]")[|open|..|open| + |b|];
  }

  lemma PrintsAlikeIff(entry: Value, allowed: Value)
    requires Json(entry) && Json(allowed)
    ensures Sprint(allowed) == Sprint(entry) <==> AcceptedBy(entry, allowed)
  {
    if entry.List? && allowed.List? {
      Bracketed("[", SprintItems(allowed, 0), SprintItems(entry, 0));
    } else if entry.Obj? && allowed.Obj? {
      Bracketed("map[", SprintFields(allowed, Lexicographic.SortedElements(allowed.fields.Keys)),
                SprintFields(entry, Lexicographic.SortedElements(entry.fields.Keys)));
    }
  }

  /** Some entry of the limit accepts this one. */
  predicate Accepted(entry: Value, allowed: seq<Value>) {
    exists w :: w in allowed && AcceptedBy(entry, w)
  }

  lemma AcceptedIff(entry: Value, allowed: seq<Value>)
    requires Json(entry) && forall i :: 0 <= i < |allowed| ==> Json(allowed[i])
    ensures (exists w :: w in allowed && Sprint(w) == Sprint(entry)) <==> Accepted(entry, allowed)
  {
    if w :| w in allowed && Sprint(w) == Sprint(entry) { PrintsAlikeIff(entry, w); }
    if w :| w in allowed && AcceptedBy(entry, w) { PrintsAlikeIff(entry, w); }
  }

  /**
   Nor does it fail closed on lists of anything but strings: a list passes exactly when each of its
   entries, whatever its shape, finds an entry of the limit that accepts it.
   */
  lemma UnknownEntriesNarrowIff(items: seq<Value>, limit: Value)
    requires Json(List(items)) && Json(limit)
    ensures NarrowValue(List(items), limit) <==>
            limit.List? && forall v :: v in items ==> Accepted(v, limit.items)
  {
    if limit.List? {
      forall v | v in items ensures (exists w :: w in limit.items && Sprint(w) == Sprint(v)) <==> Accepted(v, limit.items) {
        assert Json(v);
        AcceptedIff(v, limit.items);
      }
    }
  }

  /** Two of the inputs that should be refused: a boolean for a string, and a list flattened differently. */
  lemma UnknownEntriesPass()
    ensures NarrowValue(List([Bool(true)]), List([Str("true")]))
    ensures NarrowValue(List([List([Str("a b")])]), List([List([Str("a"), Str("b")])]))
  {
    assert Bool(true) in [Bool(true)] && Str("true") in [Str("true")];
    var one, two := List([Str("a b")]), List([Str("a"), Str("b")]);
    assert SprintItems(two, 1) == " b" by { assert SprintItems(two, 2) == ""; }
    assert SprintItems(two, 0) == "a b" == SprintItems(one, 0);
    assert one in [one] && two in [two];
  }

  // ---- The order that IntersectConstraints computes meets of -----------------------------------

  /** x permits no more than y: y's dimensions all occur in x, at most as wide. */
  ghost predicate Tighter(x: Value, y: Value)
    decreases y
  {
    match y
    case Num(limit, _) => x.Num? && x.value <= limit
    case Str(_) => x == y
    case List(items) => x.List? && forall v :: v in x.items ==> v in items
    case Obj(fields) => x.Obj? && forall k :: k in fields ==> k in x.fields && Tighter(x.fields[k], fields[k])
    case _ => false
  }

  /** A usable ceiling: nonnegative maxima, strings, string allowlists, objects of these. */
  ghost predicate WellShaped(v: Value) {
    match v
    case Num(x, _) => x >= 0.0
    case Str(_) => true
    case List(items) => AllStrings(items)
    case Obj(fields) => forall k :: k in fields ==> WellShaped(fields[k])
    case _ => false
  }

  /** Every dimension the restriction mentions exists in the authority with the same shape. */
  ghost predicate Covers(a: Value, r: Value)
    decreases r
  {
    match r
    case Num(x, _) => a.Num? && x >= 0.0
    case Str(_) => a == r
    case List(items) => a.List? && AllStrings(items)
    case Obj(fields) => a.Obj? && forall k :: k in fields ==> k in a.fields && Covers(a.fields[k], fields[k])
    case _ => false
  }

  /** The same keys at every nesting level, and the same kind of value at every leaf. */
  ghost predicate SameShape(a: Value, m: Value) {
    match a
    case Num(_, _) => m.Num?
    case Str(_) => m == a
    case List(_) => m.List?
    case Obj(fields) => m.Obj? && m.fields.Keys == fields.Keys && forall k :: k in fields ==> SameShape(fields[k], m.fields[k])
    case _ => false
  }

  /** On usable values with the same keys, the code's narrowing test is the order itself. */
  lemma {:induction false} NarrowIsTighter(got: Value, limit: Value)
    requires WellShaped(got) && WellShaped(limit) && SameShape(limit, got)
    ensures NarrowValue(got, limit) <==> Tighter(got, limit)
  {
    match limit
    case Obj(fields) =>
      forall k | k in fields ensures NarrowValue(got.fields[k], fields[k]) <==> Tighter(got.fields[k], fields[k]) {
        NarrowIsTighter(got.fields[k], fields[k]);
      }
    case List(items) =>
      forall v | v in got.items ensures v in items <==> exists a :: a in items && Sprint(a) == Sprint(v) {
        assert v.Str? && forall a :: a in items ==> a.Str?;
      }
    case _ =>
  }

  lemma {:induction false} MeetSelf(v: Value)
    ensures Meet(v, v) == if WellShaped(v) then Some(v) else None
  {
    if v.List? { FilterKeepsAll(v.items, v.items); }
    if v.Obj? {
      forall k | k in v.fields
        ensures Meet(v.fields[k], v.fields[k]) == if WellShaped(v.fields[k]) then Some(v.fields[k]) else None
      {
        MeetSelf(v.fields[k]);
      }
      if WellShaped(v) { assert MeetFields(v, v) == v.fields; }
    }
  }

  /** Intersection succeeds exactly on a usable ceiling whose dimensions cover the restriction. */
  lemma {:induction false} MeetSucceeds(a: Value, r: Value)
    ensures Meet(a, r).Some? <==> WellShaped(a) && Covers(a, r)
  {
    if a.Obj? && r.Obj? {
      forall k | k in a.fields
        ensures Meet(a.fields[k], a.fields[k]).Some? <==> WellShaped(a.fields[k])
        ensures k in r.fields ==> (Meet(a.fields[k], r.fields[k]).Some? <==> WellShaped(a.fields[k]) && Covers(a.fields[k], r.fields[k]))
      {
        MeetSelf(a.fields[k]);
        if k in r.fields { MeetSucceeds(a.fields[k], r.fields[k]); }
      }
    }
  }

  /** The result keeps the authority's keys at every level and is itself a usable ceiling. */
  lemma {:induction false} MeetKeepsShape(a: Value, r: Value)
    requires Meet(a, r).Some?
    ensures SameShape(a, Meet(a, r).value) && WellShaped(Meet(a, r).value)
  {
    if a.List? { FilterElements(r.items, a.items); }
    if a.Obj? {
      forall k | k in a.fields
        ensures SameShape(a.fields[k], Meet(a, r).value.fields[k]) && WellShaped(Meet(a, r).value.fields[k])
      {
        MeetKeepsShape(a.fields[k], if k in r.fields then r.fields[k] else a.fields[k]);
      }
    }
  }

  lemma {:induction false} MeetIsLowerBound(a: Value, r: Value)
    requires Meet(a, r).Some?
    ensures Tighter(Meet(a, r).value, a) && Tighter(Meet(a, r).value, r)
    decreases a
  {
    if a.List? { FilterElements(r.items, a.items); }
    if a.Obj? {
      var m := Meet(a, r).value;
      forall k | k in a.fields
        ensures Tighter(m.fields[k], a.fields[k])
        ensures k in r.fields ==> Tighter(m.fields[k], r.fields[k])
      {
        MeetIsLowerBound(a.fields[k], if k in r.fields then r.fields[k] else a.fields[k]);
      }
    }
  }

  lemma {:induction false} MeetIsGreatest(a: Value, r: Value, x: Value)
    requires Meet(a, r).Some? && Tighter(x, a) && Tighter(x, r)
    ensures Tighter(x, Meet(a, r).value)
    decreases a
  {
    if a.List? { FilterElements(r.items, a.items); }
    if a.Obj? {
      var m := Meet(a, r).value;
      forall k | k in m.fields ensures k in x.fields && Tighter(x.fields[k], m.fields[k]) {
        MeetIsGreatest(a.fields[k], if k in r.fields then r.fields[k] else a.fields[k], x.fields[k]);
      }
    }
  }

  /** Intersecting with what an intersection already produced changes nothing. */
  lemma {:induction false} MeetAbsorbs(a: Value, r: Value)
    requires Meet(a, r).Some?
    ensures Meet(a, Meet(a, r).value) == Meet(a, r)
  {
    if a.List? {
      FilterElements(r.items, a.items);
      FilterKeepsAll(Filter(r.items, a.items), a.items);
    }
    if a.Obj? {
      var m := Meet(a, r).value;
      forall k | k in a.fields
        ensures Meet(a.fields[k], m.fields[k]) == Some(m.fields[k])
      {
        MeetAbsorbs(a.fields[k], if k in r.fields then r.fields[k] else a.fields[k]);
      }
      assert MeetDefined(a, m);
      assert MeetFields(a, m) == m.fields;
    }
  }

  /** The code's own narrowing test accepts every intersection against its ceiling. */
  lemma {:induction false} MeetNarrows(a: Value, r: Value)
    requires Meet(a, r).Some?
    ensures NarrowValue(Meet(a, r).value, a)
  {
    if a.List? { FilterElements(r.items, a.items); }
    if a.Obj? {
      var m := Meet(a, r).value;
      forall k | k in m.fields ensures NarrowValue(m.fields[k], a.fields[k]) {
        MeetNarrows(a.fields[k], if k in r.fields then r.fields[k] else a.fields[k]);
      }
    }
  }

  // ---- ResolveConstraints ----------------------------------------------------------------------

  function Resolve(authority: Fields, requested: Fields, resolved: Option<Fields>): Option<Fields> {
    var effective := Intersect(authority, requested);
    if effective.None? || resolved.None? || !Narrow(resolved.value, effective.value) then None
    else Intersect(effective.value, resolved.value)
  }

  /** Coverage depends only on the shape, which intersections keep. */
  lemma {:induction false} CoversFollowsShape(a: Value, e: Value, r: Value)
    requires SameShape(a, e)
    ensures Covers(a, r) <==> Covers(e, r)
    decreases r
  {
    if r.Obj? && a.Obj? {
      forall k | k in r.fields && k in a.fields ensures Covers(a.fields[k], r.fields[k]) <==> Covers(e.fields[k], r.fields[k]) {
        CoversFollowsShape(a.fields[k], e.fields[k], r.fields[k]);
      }
    }
  }

  /** Resolution succeeds exactly on a usable authority that covers request and policy, when the policy narrows what was requested. */
  lemma ResolveSucceedsIff(a: Fields, r: Fields, p: Option<Fields>)
    ensures Resolve(a, r, p).Some? <==>
            && WellShaped(Obj(a)) && Covers(Obj(a), Obj(r)) && p.Some? && Covers(Obj(a), Obj(p.value))
            && Intersect(a, r).Some? && Narrow(p.value, Intersect(a, r).value)
    ensures Intersect(a, r).Some? <==> WellShaped(Obj(a)) && Covers(Obj(a), Obj(r))
  {
    MeetSucceeds(Obj(a), Obj(r));
    if Intersect(a, r).Some? && p.Some? {
      var e := Meet(Obj(a), Obj(r)).value;
      MeetKeepsShape(Obj(a), Obj(r));
      MeetSucceeds(e, Obj(p.value));
      CoversFollowsShape(Obj(a), e, Obj(p.value));
    }
  }

  /** On success: exactly the authority's keys at every level, below all three inputs, and the widest such. */
  lemma ResolveIsMeet(a: Fields, r: Fields, p: Fields, x: Value)
    requires Resolve(a, r, Some(p)).Some?
    ensures var m := Obj(Resolve(a, r, Some(p)).value);
            && SameShape(Obj(a), m) && WellShaped(m)
            && Tighter(m, Obj(a)) && Tighter(m, Obj(r)) && Tighter(m, Obj(p))
            && (Tighter(x, Obj(a)) && Tighter(x, Obj(r)) && Tighter(x, Obj(p)) ==> Tighter(x, m))
  {
    var e := Meet(Obj(a), Obj(r)).value;
    var m := Meet(e, Obj(p)).value;
    MeetKeepsShape(Obj(a), Obj(r));
    MeetKeepsShape(e, Obj(p));
    SameShapeTransitive(Obj(a), e, m);
    MeetIsLowerBound(Obj(a), Obj(r));
    MeetIsLowerBound(e, Obj(p));
    TighterTransitive(m, e, Obj(a));
    TighterTransitive(m, e, Obj(r));
    if Tighter(x, Obj(a)) && Tighter(x, Obj(r)) && Tighter(x, Obj(p)) {
      MeetIsGreatest(Obj(a), Obj(r), x);
      MeetIsGreatest(e, Obj(p), x);
    }
  }

  lemma {:induction false} TighterTransitive(x: Value, y: Value, z: Value)
    requires Tighter(x, y) && Tighter(y, z)
    ensures Tighter(x, z)
    decreases z
  {
    if z.Obj? {
      forall k | k in z.fields ensures k in x.fields && Tighter(x.fields[k], z.fields[k]) {
        TighterTransitive(x.fields[k], y.fields[k], z.fields[k]);
      }
    }
  }

  lemma {:induction false} SameShapeTransitive(a: Value, b: Value, c: Value)
    requires SameShape(a, b) && SameShape(b, c)
    ensures SameShape(a, c)
  {
    if a.Obj? {
      forall k | k in a.fields ensures SameShape(a.fields[k], c.fields[k]) {
        SameShapeTransitive(a.fields[k], b.fields[k], c.fields[k]);
      }
    }
  }

  /** Resolving what was already resolved returns it unchanged: the law a cache hit relies on. */
  lemma ResolveIdempotent(a: Fields, r: Fields, p: Option<Fields>)
    requires Resolve(a, r, p).Some?
    ensures Resolve(a, r, Resolve(a, r, p)) == Resolve(a, r, p)
  {
    var e := Meet(Obj(a), Obj(r)).value;
    MeetAbsorbs(e, Obj(p.value));
    MeetNarrows(e, Obj(p.value));
  }

  /** A resolved decision also passes the separate test against the authority. */
  lemma ResolveNarrowsAuthority(a: Fields, r: Fields, p: Option<Fields>)
    requires Resolve(a, r, p).Some? && Json(Obj(a)) && Json(Obj(r))
    ensures Narrow(Resolve(a, r, p).value, a)
  {
    var e := Meet(Obj(a), Obj(r)).value;
    MeetNarrows(Obj(a), Obj(r));
    MeetNarrows(e, Obj(p.value));
    MeetIsJson(Obj(a), Obj(r));
    NarrowTransitive(Obj(Resolve(a, r, p).value), e, Obj(a));
  }

  lemma {:induction false} MeetIsJson(a: Value, r: Value)
    requires Meet(a, r).Some? && Json(a) && Json(r)
    ensures Json(Meet(a, r).value)
  {
    if a.List? { FilterElements(r.items, a.items); }
    if a.Obj? {
      forall k | k in a.fields ensures Json(Meet(a, r).value.fields[k]) {
        MeetIsJson(a.fields[k], if k in r.fields then r.fields[k] else a.fields[k]);
      }
    }
  }

  // ---- The loops -------------------------------------------------------------------------------

  /** Fills a fresh map key by key. The keys come in any order: the result does not depend on it. */
  method IntersectConstraints(authority: Fields, restrictions: Fields) returns (result: Option<Fields>)
    ensures result == Intersect(authority, restrictions)
    decreases Obj(authority), 1
  {
    IntersectPointwise(authority, restrictions);
    result := CopyCeilings(authority);
    if result.Some? {
      result := ApplyRestrictions(authority, restrictions, result.value);
    }
    if result.Some? {
      assert Intersect(authority, restrictions).Some?;
      assert result.value == Intersect(authority, restrictions).value;
    }
  }

  lemma IntersectPointwise(authority: Fields, restrictions: Fields)
    ensures Intersect(authority, restrictions).Some? <==>
              && (forall k :: k in authority ==> Meet(authority[k], authority[k]).Some?)
              && (forall k :: k in restrictions ==> k in authority && Meet(authority[k], restrictions[k]).Some?)
    ensures Intersect(authority, restrictions).Some? ==>
              var m := Intersect(authority, restrictions).value;
              && m.Keys == authority.Keys
              && (forall k :: k in authority ==>
                    Some(m[k]) == if k in restrictions then Meet(authority[k], restrictions[k]) else Meet(authority[k], authority[k]))
  {
    assert MeetDefined(Obj(authority), Obj(restrictions)) <==>
              && (forall k :: k in authority ==> Meet(authority[k], authority[k]).Some?)
              && (forall k :: k in restrictions ==> k in authority && Meet(authority[k], restrictions[k]).Some?);
    if MeetDefined(Obj(authority), Obj(restrictions)) {
      assert Intersect(authority, restrictions) == Some(MeetFields(Obj(authority), Obj(restrictions)));
    }
  }

  method CopyCeilings(authority: Fields) returns (result: Option<Fields>)
    ensures result.Some? ==> result.value.Keys == authority.Keys
    ensures result.Some? ==> forall k :: k in authority ==> Meet(authority[k], authority[k]) == Some(result.value[k])
    ensures result.None? ==> exists k :: k in authority && Meet(authority[k], authority[k]).None?
    decreases Obj(authority), 0
  {
    var filled: Fields := map[];
    var todo := authority.Keys;
    while todo != {}
      invariant todo <= authority.Keys && filled.Keys == authority.Keys - todo
      invariant forall k :: k in filled ==> Meet(authority[k], authority[k]) == Some(filled[k])
      decreases |todo|
    {
      var key :| key in todo;
      assert Obj(authority).fields[key] < Obj(authority);
      var value := IntersectConstraint(authority[key], authority[key]);
      if value.None? { return None; }
      filled := filled[key := value.value];
      todo := todo - {key};
    }
    result := Some(filled);
  }

  method ApplyRestrictions(authority: Fields, restrictions: Fields, ceilings: Fields) returns (result: Option<Fields>)
    requires ceilings.Keys == authority.Keys
    ensures result.Some? ==> result.value.Keys == authority.Keys
    ensures result.Some? ==> forall k :: k in restrictions ==> k in authority && Meet(authority[k], restrictions[k]) == Some(result.value[k])
    ensures result.Some? ==> forall k :: k in authority && k !in restrictions ==> result.value[k] == ceilings[k]
    ensures result.None? ==> exists k :: k in restrictions && (k in authority ==> Meet(authority[k], restrictions[k]).None?)
    decreases Obj(authority), 0
  {
    var filled := ceilings;
    var todo := restrictions.Keys;
    while todo != {}
      invariant todo <= restrictions.Keys && filled.Keys == authority.Keys
      invariant forall k :: k in restrictions && k !in todo ==> k in authority && Meet(authority[k], restrictions[k]) == Some(filled[k])
      invariant forall k :: k in authority && (k !in restrictions || k in todo) ==> filled[k] == ceilings[k]
      decreases |todo|
    {
      var key :| key in todo;
      if key !in authority { return None; }
      assert Obj(authority).fields[key] < Obj(authority);
      var value := IntersectConstraint(authority[key], restrictions[key]);
      if value.None? { return None; }
      filled := filled[key := value.value];
      todo := todo - {key};
    }
    result := Some(filled);
  }

  method IntersectConstraint(ceiling: Value, restriction: Value) returns (result: Option<Value>)
    ensures result == Meet(ceiling, restriction)
    decreases ceiling, 2
  {
    match ceiling
    case Num(limit, _) =>
      if !restriction.Num? || limit < 0.0 || restriction.value < 0.0 { return None; }
      result := Some(if restriction.value < limit then restriction else ceiling);
    case Str(_) =>
      result := if restriction == ceiling then Some(ceiling) else None;
    case List(limit) =>
      result := None;
      if restriction.List? { result := IntersectLists(limit, restriction.items); }
    case Obj(limit) =>
      if !restriction.Obj? { return None; }
      var fields := IntersectConstraints(limit, restriction.fields);
      result := if fields.Some? then Some(Obj(fields.value)) else None;
    case Bool(_) => result := None;
    case Null => result := None;
  }

  /** The loop that fills the set of allowed strings, refusing anything else. */
  method AllowedStrings(limit: seq<Value>) returns (allowed: Option<set<string>>)
    ensures allowed.Some? <==> AllStrings(limit)
    ensures allowed.Some? ==> forall s :: s in allowed.value <==> Str(s) in limit
  {
    var seen: set<string> := {};
    for i := 0 to |limit|
      invariant AllStrings(limit[..i])
      invariant forall s :: s in seen <==> Str(s) in limit[..i]
    {
      if !limit[i].Str? { return None; }
      assert limit[..i + 1] == limit[..i] + [limit[i]];
      seen := seen + {limit[i].s};
    }
    assert limit[..|limit|] == limit;
    allowed := Some(seen);
  }

  method IntersectLists(limit: seq<Value>, values: seq<Value>) returns (result: Option<Value>)
    ensures result == Meet(List(limit), List(values))
  {
    var allowed := AllowedStrings(limit);
    if allowed.None? { return None; }
    var kept: seq<Value> := [];
    for i := 0 to |values|
      invariant AllStrings(values[..i])
      invariant kept == Filter(values[..i], limit)
    {
      if !values[i].Str? { return None; }
      assert values[..i + 1][..i] == values[..i];
      if values[i].s in allowed.value { kept := kept + [values[i]]; }
    }
    assert values[..|values|] == values;
    result := Some(List(kept));
  }

  // ---- Approved authority ----------------------------------------------------------------------

  /** Manifest limits are nonnegative numbers under distinct names. */
  predicate ValidLimits(limits: Fields) {
    forall k :: k in limits ==> limits[k].Num? && limits[k].value >= 0.0
  }

  /** Both sources' ceilings, the deployment's where both have one. */
  function Combined(deployment: Fields, limits: Fields): Fields { limits + deployment }

  /** One name: a ceiling meets itself exactly when usable, and a limit exactly when it is a nonnegative number. */
  lemma CeilingMeets(ceiling: Value, limit: Value)
    requires limit.Num? && limit.value >= 0.0
    ensures Meet(ceiling, ceiling) == if WellShaped(ceiling) then Some(ceiling) else None
    ensures Meet(ceiling, limit) ==
            if !ceiling.Num? || ceiling.value < 0.0 then None else Some(if limit.value < ceiling.value then limit else ceiling)
  {
    MeetSelf(ceiling);
  }

  lemma ApprovedExistsIff(deployment: Fields, limits: Fields)
    requires ValidLimits(limits)
    ensures Intersect(Combined(deployment, limits), limits).Some? <==>
              WellShaped(Obj(deployment)) && forall k :: k in deployment && k in limits ==> deployment[k].Num?
  {
    var both := Combined(deployment, limits);
    IntersectPointwise(both, limits);
    forall k | k in both
      ensures Meet(both[k], both[k]).Some? <==> WellShaped(both[k])
      ensures k in limits ==> (Meet(both[k], limits[k]).Some? <==> both[k].Num? && both[k].value >= 0.0)
    {
      CeilingMeets(both[k], if k in limits then limits[k] else Num(0.0, ""));
    }
    assert WellShaped(Obj(deployment)) <==> forall k :: k in deployment ==> WellShaped(both[k]);
  }

  /** Intersecting the union of both sources with the manifest takes the stricter ceiling per name. */
  lemma ApprovedIsStrictest(deployment: Fields, limits: Fields)
    requires forall k :: k in limits ==> limits[k].Num? && limits[k].value >= 0.0
    ensures Intersect(Combined(deployment, limits), limits).Some? <==>
              WellShaped(Obj(deployment)) && forall k :: k in deployment && k in limits ==> deployment[k].Num?
    ensures Intersect(Combined(deployment, limits), limits).Some? ==>
              var m := Intersect(Combined(deployment, limits), limits).value;
              && m.Keys == deployment.Keys + limits.Keys
              && (forall k :: k in deployment && k !in limits ==> m[k] == deployment[k])
              && (forall k :: k in limits ==>
                    m[k] == if k in deployment && deployment[k].Num? && deployment[k].value <= limits[k].value
                            then deployment[k] else limits[k])
              && Tighter(Obj(m), Obj(deployment)) && Tighter(Obj(m), Obj(limits))
  {
    ApprovedExistsIff(deployment, limits);
    var both := Combined(deployment, limits);
    if Intersect(both, limits).Some? {
      IntersectPointwise(both, limits);
      MeetIsLowerBound(Obj(both), Obj(limits));
      assert forall k :: k in deployment ==> both[k] == deployment[k];
      forall k | k in both ensures Meet(both[k], both[k]) == Some(both[k]) || k in limits {
        CeilingMeets(both[k], if k in limits then limits[k] else Num(0.0, ""));
      }
    }
  }

  /** The loop over the second source adds the names the first does not have. */
  method Merge<K(==), V>(base: map<K, V>, extra: map<K, V>) returns (merged: map<K, V>)
    ensures forall k :: k in merged <==> k in base || k in extra
    ensures forall k :: k in merged ==> merged[k] == if k in base then base[k] else extra[k]
  {
    merged := base;
    var todo := extra.Keys;
    while todo != {}
      invariant todo <= extra.Keys
      invariant forall k :: k in merged <==> k in base || (k in extra && k !in todo)
      invariant forall k :: k in merged ==> merged[k] == if k in base then base[k] else extra[k]
      decreases |todo|
    {
      var key :| key in todo;
      if key !in merged { merged := merged[key := extra[key]]; }
      todo := todo - {key};
    }
  }

  /** Either trusted source may supply a ceiling; where both do, the stricter one holds. */
  method ApprovedAuthority(deployment: Fields, limits: Fields) returns (result: Option<Fields>)
    ensures result == if ValidLimits(limits) then Intersect(Combined(deployment, limits), limits) else None
  {
    if !ValidLimits(limits) { return None; }
    var combined := Merge(deployment, limits);
    assert combined == Combined(deployment, limits);
    result := IntersectConstraints(combined, limits);
  }
}
