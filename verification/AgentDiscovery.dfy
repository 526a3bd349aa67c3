/**
 Paging through a tenant's agents under a visibility decision per agent. The registry is read in
 scans of fixed size; pages are cut by the number of visible agents. Identifier 0 is the zero ID.
 */
module AgentDiscovery {
  import opened Base

  datatype Agent = Agent(id: nat, tenant: nat)

  datatype Verdict = Visible | Hidden | Undecided

  datatype AgentPage = AgentPage(items: seq<Agent>, next: Option<nat>)

  datatype Failure = InvalidArgument | Forbidden | CrossedBoundary | Unavailable

  /** Registry order: ascending non-zero IDs. */
  ghost predicate Registry(agents: seq<Agent>) {
    && (forall i :: 0 <= i < |agents| ==> agents[i].id > 0)
    && (forall i, j :: 0 <= i < j < |agents| ==> agents[i].id < agents[j].id)
  }

  function After(agents: seq<Agent>, id: nat): (rest: seq<Agent>)
    decreases |agents|
  {
    if agents == [] || agents[0].id > id then agents else After(agents[1..], id)
  }

  /** The query: rows above the cursor in ID order, at most `limit`. */
  function ListAgents(agents: seq<Agent>, after: nat, limit: nat): seq<Agent> {
    var rest := After(agents, after);
    if |rest| <= limit then rest else rest[..limit]
  }

  lemma {:induction false} AfterIsSuffix(agents: seq<Agent>, id: nat) returns (k: nat)
    requires Registry(agents)
    ensures k <= |agents| && After(agents, id) == agents[k..]
    ensures forall i :: 0 <= i < |agents| ==> (agents[i].id > id <==> i >= k)
    decreases |agents|
  {
    if agents == [] || agents[0].id > id {
      k := 0;
    } else {
      var j := AfterIsSuffix(agents[1..], id);
      k := j + 1;
      forall i | 0 <= i < |agents| ensures agents[i].id > id <==> i >= k {
        if i > 0 { assert agents[i] == agents[1..][i - 1]; }
      }
    }
  }

  /** Moving the cursor to the n-th row of the rest drops exactly n rows. */
  lemma AfterAdvances(agents: seq<Agent>, id: nat, n: nat)
    requires Registry(agents) && n < |After(agents, id)|
    ensures After(agents, After(agents, id)[n].id) == After(agents, id)[n + 1..]
    ensures After(agents, id)[n].id > id
    ensures n > 0 ==> After(agents, id)[n - 1].id < After(agents, id)[n].id
  {
    var k := AfterIsSuffix(agents, id);
    var rest := agents[k..];
    var j := AfterIsSuffix(agents, rest[n].id);
    assert rest[n] == agents[k + n];
    assert j == k + n + 1;
    assert agents[j..] == rest[n + 1..];
  }

  // ---- One page --------------------------------------------------------------------------------

  /** The sequential reading: one agent at a time, stopping at the first error or one visible agent too many. */
  function Page(rest: seq<Agent>, tenant: nat, judge: Agent -> Verdict, items: seq<Agent>, limit: nat): Result<AgentPage, Failure>
    decreases |rest|
  {
    if rest == [] then Ok(AgentPage(items, None))
    else if rest[0].tenant != tenant then Err(CrossedBoundary)
    else
      match judge(rest[0])
      case Undecided => Err(Unavailable)
      case Hidden => Page(rest[1..], tenant, judge, items, limit)
      case Visible =>
        var grown := items + [rest[0]];
        if |grown| > limit then Ok(AgentPage(grown[..limit], if limit == 0 then None else Some(grown[limit - 1].id)))
        else Page(rest[1..], tenant, judge, grown, limit)
  }

  function VisibleOf(rest: seq<Agent>, judge: Agent -> Verdict): seq<Agent>
    decreases |rest|
  {
    if rest == [] then [] else (if judge(rest[0]) == Visible then [rest[0]] else []) + VisibleOf(rest[1..], judge)
  }

  ghost predicate Decided(rest: seq<Agent>, tenant: nat, judge: Agent -> Verdict) {
    forall a :: a in rest ==> a.tenant == tenant && judge(a) != Undecided
  }

  /** A page is the first `limit` visible agents; a next cursor is given exactly when another one remains. */
  lemma {:induction false} PageIsFilter(rest: seq<Agent>, tenant: nat, judge: Agent -> Verdict, items: seq<Agent>, limit: nat)
    requires Decided(rest, tenant, judge) && |items| <= limit && limit >= 1
    ensures var all := items + VisibleOf(rest, judge);
            Page(rest, tenant, judge, items, limit) ==
            if |all| <= limit then Ok(AgentPage(all, None)) else Ok(AgentPage(all[..limit], Some(all[limit - 1].id)))
    decreases |rest|
  {
    if rest == [] {
      assert items + VisibleOf(rest, judge) == items;
    } else {
      assert rest[0] in rest;
      assert Decided(rest[1..], tenant, judge) by { assert forall a :: a in rest[1..] ==> a in rest; }
      if judge(rest[0]) == Visible {
        var grown := items + [rest[0]];
        assert items + VisibleOf(rest, judge) == grown + VisibleOf(rest[1..], judge);
        if |grown| > limit {
          assert (grown + VisibleOf(rest[1..], judge))[..limit] == grown[..limit];
        } else {
          PageIsFilter(rest[1..], tenant, judge, grown, limit);
        }
      } else {
        assert VisibleOf(rest, judge) == VisibleOf(rest[1..], judge);
        PageIsFilter(rest[1..], tenant, judge, items, limit);
      }
    }
  }

  /** The nested scan: whatever the scan size, it reads the registry as the sequential page does. */
  method List(agents: seq<Agent>, tenant: nat, judge: Agent -> Verdict, allowed: Verdict, cursor: nat, limit: int, scan: nat)
    returns (r: Result<AgentPage, Failure>)
    requires Registry(agents) && scan >= 1
    ensures r == if limit < 1 || limit > 200 then Err(InvalidArgument)
                 else match allowed
                   case Undecided => Err(Unavailable)
                   case Hidden => Err(Forbidden)
                   case Visible => Page(After(agents, cursor), tenant, judge, [], limit)
  {
    if limit < 1 || limit > 200 { return Err(InvalidArgument); }
    if allowed == Undecided { return Err(Unavailable); }
    if allowed == Hidden { return Err(Forbidden); }
    ghost var whole := Page(After(agents, cursor), tenant, judge, [], limit);
    var items: seq<Agent> := [];
    var after := cursor;
    while |items| <= limit
      invariant |items| <= limit && whole == Page(After(agents, after), tenant, judge, items, limit)
      decreases |After(agents, after)|
    {
      ghost var rest := After(agents, after);
      ghost var start := after;
      var chunk := ListAgents(agents, after, scan);
      if |chunk| == 0 { break; }
      var i := 0;
      while i < |chunk|
        invariant 0 <= i <= |chunk| <= |rest| && |items| <= limit
        invariant after == if i == 0 then start else chunk[i - 1].id
        invariant whole == Page(rest[i..], tenant, judge, items, limit)
      {
        var agent := chunk[i];
        AfterAdvances(agents, start, i);
        if agent.tenant != tenant || (after != 0 && agent.id <= after) { return Err(CrossedBoundary); }
        after := agent.id;
        var visible := judge(agent);
        if visible == Undecided { return Err(Unavailable); }
        if visible == Visible {
          items := items + [agent];
          if |items| > limit { return Ok(AgentPage(items[..limit], Some(items[limit - 1].id))); }
        }
        i := i + 1;
      }
      AfterAdvances(agents, start, |chunk| - 1);
      if |chunk| < scan {
        assert rest[|chunk|..] == [];
        break;
      }
    }
    r := Ok(AgentPage(items, None));
  }

  // ---- Following the cursor --------------------------------------------------------------------

  /** Cutting the registry after its n-th visible agent cuts the visible agents after the n-th. */
  lemma {:induction false} NthVisible(rest: seq<Agent>, judge: Agent -> Verdict, n: nat) returns (m: nat)
    requires n < |VisibleOf(rest, judge)|
    ensures m < |rest| && VisibleOf(rest, judge)[n] == rest[m] && VisibleOf(rest[m + 1..], judge) == VisibleOf(rest, judge)[n + 1..]
    decreases |rest|
  {
    if judge(rest[0]) == Visible && n == 0 {
      m := 0;
    } else {
      var k := NthVisible(rest[1..], judge, if judge(rest[0]) == Visible then n - 1 else n);
      m := k + 1;
      assert rest[1..][k + 1..] == rest[m + 1..];
    }
  }

  /** All pages from a cursor on, following `next`; page k asks for `limits(k)` agents. */
  function Walk(agents: seq<Agent>, tenant: nat, judge: Agent -> Verdict, cursor: nat, limits: nat -> nat, k: nat): Result<seq<Agent>, Failure>
    decreases |After(agents, cursor)|
  {
    var page := Page(After(agents, cursor), tenant, judge, [], limits(k));
    if page.Err? then Err(page.error)
    else if page.value.next.None? then Ok(page.value.items)
    else if |After(agents, page.value.next.value)| >= |After(agents, cursor)| then Err(CrossedBoundary)
    else
      var rest := Walk(agents, tenant, judge, page.value.next.value, limits, k + 1);
      if rest.Err? then rest else Ok(page.value.items + rest.value)
  }

  /** After the limit-th visible agent, exactly the visible agents beyond the limit are left. */
  lemma CursorLeaves(agents: seq<Agent>, judge: Agent -> Verdict, cursor: nat, limit: nat)
    requires Registry(agents) && 1 <= limit <= |VisibleOf(After(agents, cursor), judge)|
    ensures var all := VisibleOf(After(agents, cursor), judge);
            var rest := After(agents, all[limit - 1].id);
            VisibleOf(rest, judge) == all[limit..] && |rest| < |After(agents, cursor)|
  {
    var m := NthVisible(After(agents, cursor), judge, limit - 1);
    AfterAdvances(agents, cursor, m);
  }

  lemma DecidedAfter(agents: seq<Agent>, tenant: nat, judge: Agent -> Verdict, cursor: nat)
    requires Registry(agents) && Decided(agents, tenant, judge)
    ensures Decided(After(agents, cursor), tenant, judge)
  {
    var start := AfterIsSuffix(agents, cursor);
    assert forall a :: a in agents[start..] ==> a in agents;
  }

  lemma PageFrom(rest: seq<Agent>, tenant: nat, judge: Agent -> Verdict, limit: nat)
    requires Decided(rest, tenant, judge) && limit >= 1
    ensures var all := VisibleOf(rest, judge);
            Page(rest, tenant, judge, [], limit) ==
            if |all| <= limit then Ok(AgentPage(all, None)) else Ok(AgentPage(all[..limit], Some(all[limit - 1].id)))
  {
    PageIsFilter(rest, tenant, judge, [], limit);
    assert [] + VisibleOf(rest, judge) == VisibleOf(rest, judge);
  }

  /** What one page returns, and what its next cursor leaves for later. */
  lemma NextPage(agents: seq<Agent>, tenant: nat, judge: Agent -> Verdict, cursor: nat, limit: nat)
    requires Registry(agents) && Decided(agents, tenant, judge) && limit >= 1
    ensures var all := VisibleOf(After(agents, cursor), judge);
            var page := Page(After(agents, cursor), tenant, judge, [], limit);
            if |all| <= limit then page == Ok(AgentPage(all, None))
            else
              && page == Ok(AgentPage(all[..limit], Some(all[limit - 1].id)))
              && VisibleOf(After(agents, all[limit - 1].id), judge) == all[limit..]
              && |After(agents, all[limit - 1].id)| < |After(agents, cursor)|
  {
    DecidedAfter(agents, tenant, judge, cursor);
    PageFrom(After(agents, cursor), tenant, judge, limit);
    if |VisibleOf(After(agents, cursor), judge)| > limit { CursorLeaves(agents, judge, cursor, limit); }
  }

  /** Paging equals filtering: the pages together are every visible agent after the start, once each, in order. */
  lemma {:induction false} PagingEqualsFiltering(agents: seq<Agent>, tenant: nat, judge: Agent -> Verdict, cursor: nat, limits: nat -> nat, k: nat)
    requires Registry(agents) && Decided(agents, tenant, judge) && forall n :: limits(n) >= 1
    ensures Walk(agents, tenant, judge, cursor, limits, k) == Ok(VisibleOf(After(agents, cursor), judge))
    decreases |After(agents, cursor)|
  {
    NextPage(agents, tenant, judge, cursor, limits(k));
    var all := VisibleOf(After(agents, cursor), judge);
    if |all| > limits(k) {
      PagingEqualsFiltering(agents, tenant, judge, all[limits(k) - 1].id, limits, k + 1);
      assert all == all[..limits(k)] + all[limits(k)..];
    }
  }

  lemma {:induction false} VisibleMembers(rest: seq<Agent>, judge: Agent -> Verdict, a: Agent)
    ensures a in VisibleOf(rest, judge) <==> a in rest && judge(a) == Visible
    decreases |rest|
  {
    if rest != [] {
      VisibleMembers(rest[1..], judge, a);
      assert a in rest <==> a == rest[0] || a in rest[1..];
    }
  }

  /** Visible agents come in registry order and are never repeated. */
  lemma {:induction false} VisibleIsOrdered(rest: seq<Agent>, judge: Agent -> Verdict)
    requires Registry(rest)
    ensures Registry(VisibleOf(rest, judge))
    decreases |rest|
  {
    if rest != [] {
      VisibleIsOrdered(rest[1..], judge);
      var tail := VisibleOf(rest[1..], judge);
      forall j | 0 <= j < |tail| ensures rest[0].id < tail[j].id {
        VisibleMembers(rest[1..], judge, tail[j]);
        var i :| 0 <= i < |rest[1..]| && rest[1..][i] == tail[j];
        assert rest[i + 1] == tail[j];
      }
    }
  }
}
