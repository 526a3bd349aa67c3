/**
 Racing calls and invalidations. Every section under the mutex, and every request to the shared
 cache, is one action; calls take them in order but interleave freely. The instance is the only
 writer of the shared cache. Generations are counted exactly and enter keys modulo 2^64.
 */
module CacheGenerations {
  import opened Base
  import opened DecisionCache

  /** An entry together with the call that built it. */
  datatype Stored = Stored(entry: Entry, caller: nat)

  datatype Local = Local(tenant: string, stored: Stored, expiresAt: int)

  /** `input` is the canonical input that the authorization digest stands for. */
  datatype Call = Call(input: Input, digest: string, version: int, globalCount: nat, tenantCount: nat,
                       fetched: Option<Stored>, built: Option<Entry>)

  datatype State = State(globalCount: nat, tenantCounts: map<string, nat>, local: map<Key, Local>,
                         remote: map<Key, Stored>, calls: map<nat, Call>)

  const Init := State(0, map[], map[], map[], map[])

  function TenantCount(s: State, tenant: string): nat {
    if tenant in s.tenantCounts then s.tenantCounts[tenant] else 0
  }

  function KeyOf(c: Call): Key {
    Key(c.digest, c.version, c.globalCount % Two64, c.tenantCount % Two64, c.input)
  }

  datatype Action =
    | Start(id: nat, input: Input, digest: string, version: int)
    | Evaluate(id: nat, outcome: Outcome, expiresAt: int)
    | StoreLocal(id: nat, victim: Key)
    | StoreRemote(id: nat)
    | FetchRemote(id: nat)
    | CopyFetched(id: nat, expiresAt: int, victim: Key)
    | Invalidate(tenant: string)
    | EvictRemote(key: Key)

  /** localSet: a full map gives up some entry first. */
  function LocalSet(local: map<Key, Local>, key: Key, entry: Local, victim: Key): map<Key, Local> {
    (if |local| >= MaxLocalDecisionEntries then local - {victim} else local)[key := entry]
  }

  predicate Enabled(s: State, a: Action) {
    match a
    case Start(id, input, _, _) => id !in s.calls && input.tenant != ""
    case Evaluate(id, _, _) => id in s.calls && s.calls[id].built.None?
    case StoreLocal(id, victim) => id in s.calls && s.calls[id].built.Some? && (|s.local| >= MaxLocalDecisionEntries ==> victim in s.local)
    case StoreRemote(id) => id in s.calls && s.calls[id].built.Some?
    case FetchRemote(id) => id in s.calls && s.calls[id].fetched.None? && KeyOf(s.calls[id]) in s.remote
    case CopyFetched(id, _, victim) => id in s.calls && s.calls[id].fetched.Some? && (|s.local| >= MaxLocalDecisionEntries ==> victim in s.local)
    case Invalidate(_) => true
    case EvictRemote(key) => key in s.remote
  }

  function Step(s: State, a: Action): State {
    if !Enabled(s, a) then s
    else
      match a
      case Start(id, input, digest, version) =>
        s.(calls := s.calls[id := Call(input, digest, version, s.globalCount, TenantCount(s, input.tenant), None, None)])
      case Evaluate(id, o, expiresAt) =>
        s.(calls := s.calls[id := s.calls[id].(built := Some(EntryFor(o, s.calls[id].input, expiresAt)))])
      case StoreLocal(id, victim) =>
        var c := s.calls[id];
        s.(local := LocalSet(s.local, KeyOf(c), Local(c.input.tenant, Stored(c.built.value, id), c.built.value.expiresAt), victim))
      case StoreRemote(id) =>
        s.(remote := s.remote[KeyOf(s.calls[id]) := Stored(s.calls[id].built.value, id)])
      case FetchRemote(id) =>
        s.(calls := s.calls[id := s.calls[id].(fetched := Some(s.remote[KeyOf(s.calls[id])]))])
      case CopyFetched(id, expiresAt, victim) =>
        var c := s.calls[id];
        s.(local := LocalSet(s.local, KeyOf(c), Local(c.input.tenant, c.fetched.value, expiresAt), victim))
      case Invalidate(tenant) =>
        var local := map k | k in s.local && tenant != "" && s.local[k].tenant != tenant :: s.local[k];
        if tenant == "" then s.(globalCount := s.globalCount + 1, local := local)
        else s.(tenantCounts := s.tenantCounts[tenant := TenantCount(s, tenant) + 1], local := local)
      case EvictRemote(key) => s.(remote := s.remote - {key})
  }

  function Run(s: State, actions: seq<Action>): State
    decreases |actions|
  {
    if actions == [] then s else Run(Step(s, actions[0]), actions[1..])
  }

  /** An invalidation leaves exactly the other tenants' local entries, or none at all for the empty tenant. */
  lemma InvalidationClearsLocal(s: State, tenant: string, key: Key)
    ensures var local := Step(s, Invalidate(tenant)).local;
            && (key in local <==> key in s.local && tenant != "" && s.local[key].tenant != tenant)
            && (key in local ==> local[key] == s.local[key])
  {
  }

  /** The entry sits under the key of the call that built it. */
  ghost predicate Placed(s: State, key: Key, st: Stored) {
    st.caller in s.calls && s.calls[st.caller].built == Some(st.entry) && KeyOf(s.calls[st.caller]) == key
  }

  ghost predicate FetchedPlaced(s: State, id: nat) {
    id in s.calls && s.calls[id].fetched.Some? ==> Placed(s, KeyOf(s.calls[id]), s.calls[id].fetched.value)
  }

  ghost predicate Inv(s: State) {
    && |s.local| <= MaxLocalDecisionEntries
    && (forall key :: key in s.local ==> Placed(s, key, s.local[key].stored))
    && (forall key :: key in s.remote ==> Placed(s, key, s.remote[key]))
    && (forall id :: id in s.calls ==> Counted(s, id) && FetchedPlaced(s, id))
  }

  lemma LocalSetSize(local: map<Key, Local>, key: Key, entry: Local, victim: Key)
    requires |local| <= MaxLocalDecisionEntries && (|local| >= MaxLocalDecisionEntries ==> victim in local)
    ensures |LocalSet(local, key, entry, victim)| <= MaxLocalDecisionEntries
  {
  }

  /** What a call is from its start on; the rest it acquires at most once. */
  function Identity(c: Call): Call { c.(fetched := None, built := None) }

  lemma StepKeepsCalls(s: State, a: Action, id: nat)
    requires id in s.calls
    ensures id in Step(s, a).calls && Identity(Step(s, a).calls[id]) == Identity(s.calls[id])
    ensures s.calls[id].built.Some? ==> Step(s, a).calls[id].built == s.calls[id].built
    ensures s.calls[id].fetched.Some? ==> Step(s, a).calls[id].fetched == s.calls[id].fetched
  {
  }

  /** A call never read a generation that has not been reached yet. */
  predicate Counted(s: State, id: nat) {
    id in s.calls ==> s.calls[id].globalCount <= s.globalCount && s.calls[id].tenantCount <= TenantCount(s, s.calls[id].input.tenant)
  }

  lemma StepKeepsCounts(s: State, a: Action, id: nat)
    requires Counted(s, id)
    ensures Counted(Step(s, a), id)
  {
  }

  lemma StepKeepsSize(s: State, a: Action)
    requires |s.local| <= MaxLocalDecisionEntries
    ensures |Step(s, a).local| <= MaxLocalDecisionEntries
  {
    if Enabled(s, a) {
      match a
      case StoreLocal(id, victim) =>
        var c := s.calls[id];
        LocalSetSize(s.local, KeyOf(c), Local(c.input.tenant, Stored(c.built.value, id), c.built.value.expiresAt), victim);
      case CopyFetched(id, expiresAt, victim) =>
        var c := s.calls[id];
        LocalSetSize(s.local, KeyOf(c), Local(c.input.tenant, c.fetched.value, expiresAt), victim);
      case Invalidate(tenant) => SubmapSize(Step(s, a).local, s.local);
      case _ =>
    }
  }

  /** Every entry a step leaves behind was there before, was just built, or was fetched under the same key. */
  lemma StepKeepsPlaced(s: State, a: Action, key: Key)
    requires Inv(s)
    ensures var s' := Step(s, a);
            && (key in s'.local ==> Placed(s, key, s'.local[key].stored))
            && (key in s'.remote ==> Placed(s, key, s'.remote[key]))
  {
    if Enabled(s, a) {
      match a
      case StoreLocal(id, _) => assert Placed(s, KeyOf(s.calls[id]), Stored(s.calls[id].built.value, id));
      case StoreRemote(id) => assert Placed(s, KeyOf(s.calls[id]), Stored(s.calls[id].built.value, id));
      case CopyFetched(id, _, _) => assert FetchedPlaced(s, id);
      case _ =>
    }
  }

  lemma PlacedPersists(s: State, a: Action, key: Key, st: Stored)
    requires Placed(s, key, st)
    ensures Placed(Step(s, a), key, st)
  {
    StepKeepsCalls(s, a, st.caller);
  }

  lemma StepKeepsEntries(s: State, a: Action)
    requires Inv(s)
    ensures var s' := Step(s, a);
            && (forall key :: key in s'.local ==> Placed(s', key, s'.local[key].stored))
            && (forall key :: key in s'.remote ==> Placed(s', key, s'.remote[key]))
  {
    var s' := Step(s, a);
    forall key | key in s'.local ensures Placed(s', key, s'.local[key].stored) {
      StepKeepsPlaced(s, a, key);
      PlacedPersists(s, a, key, s'.local[key].stored);
    }
    forall key | key in s'.remote ensures Placed(s', key, s'.remote[key]) {
      StepKeepsPlaced(s, a, key);
      PlacedPersists(s, a, key, s'.remote[key]);
    }
  }

  lemma StepKeepsFetched(s: State, a: Action, id: nat)
    requires FetchedPlaced(s, id) && forall key :: key in s.remote ==> Placed(s, key, s.remote[key])
    ensures FetchedPlaced(Step(s, a), id)
  {
    if id in Step(s, a).calls && Step(s, a).calls[id].fetched.Some? {
      assert id in s.calls;
      StepKeepsCalls(s, a, id);
      PlacedPersists(s, a, KeyOf(s.calls[id]), Step(s, a).calls[id].fetched.value);
    }
  }

  lemma StepKeepsInv(s: State, a: Action)
    requires Inv(s)
    ensures Inv(Step(s, a))
  {
    StepKeepsSize(s, a);
    StepKeepsEntries(s, a);
    forall id | id in Step(s, a).calls ensures Counted(Step(s, a), id) && FetchedPlaced(Step(s, a), id) {
      assert Counted(s, id) && FetchedPlaced(s, id);
      StepKeepsCounts(s, a, id);
      StepKeepsFetched(s, a, id);
    }
  }

  lemma {:induction false} RunKeepsInv(s: State, actions: seq<Action>)
    requires Inv(s)
    ensures Inv(Run(s, actions))
    decreases |actions|
  {
    if actions != [] {
      StepKeepsInv(s, actions[0]);
      RunKeepsInv(Step(s, actions[0]), actions[1..]);
    }
  }

  /** Later states keep every earlier call as it was, and later calls read later generations. */
  ghost predicate Since(s0: State, s: State) {
    && s0.globalCount <= s.globalCount
    && (forall t: string :: TenantCount(s0, t) <= TenantCount(s, t))
    && (forall id :: id in s0.calls ==> id in s.calls && Identity(s.calls[id]) == Identity(s0.calls[id]))
    && (forall id :: id in s.calls && id !in s0.calls ==>
          s0.globalCount <= s.calls[id].globalCount && TenantCount(s0, s.calls[id].input.tenant) <= s.calls[id].tenantCount)
  }

  lemma StepSinceCall(s0: State, s: State, a: Action, id: nat)
    requires Since(s0, s)
    ensures id in s0.calls ==> id in Step(s, a).calls && Identity(Step(s, a).calls[id]) == Identity(s0.calls[id])
    ensures id in Step(s, a).calls && id !in s0.calls ==>
              s0.globalCount <= Step(s, a).calls[id].globalCount &&
              TenantCount(s0, Step(s, a).calls[id].input.tenant) <= Step(s, a).calls[id].tenantCount
  {
    if id in s.calls { StepKeepsCalls(s, a, id); }
  }

  lemma StepSince(s0: State, s: State, a: Action)
    requires Since(s0, s)
    ensures Since(s0, Step(s, a))
  {
    forall id { StepSinceCall(s0, s, a, id); }
  }

  lemma {:induction false} RunSince(s0: State, s: State, actions: seq<Action>)
    requires Since(s0, s)
    ensures Since(s0, Run(s, actions))
    decreases |actions|
  {
    if actions != [] {
      StepSince(s0, s, actions[0]);
      RunSince(s0, Step(s, actions[0]), actions[1..]);
    }
  }

  /** What a call may serve: what lies under its key, locally or remotely, or what it fetched before. */
  ghost predicate Findable(s: State, id: nat, st: Stored) {
    id in s.calls &&
    var key := KeyOf(s.calls[id]);
    || (key in s.local && st == s.local[key].stored)
    || (key in s.remote && st == s.remote[key])
    || s.calls[id].fetched == Some(st)
  }

  lemma FoundIsPlaced(s: State, id: nat, st: Stored)
    requires Inv(s) && Findable(s, id, st)
    ensures Placed(s, KeyOf(s.calls[id]), st)
  {
    assert FetchedPlaced(s, id);
  }

  /** Whatever a call can find was built by a call of the same generations, modulo 2^64. */
  lemma FoundSharesGeneration(actions: seq<Action>, id: nat, st: Stored)
    requires Findable(Run(Init, actions), id, st)
    ensures var s := Run(Init, actions);
            && st.caller in s.calls && s.calls[st.caller].built == Some(st.entry)
            && s.calls[st.caller].globalCount % Two64 == s.calls[id].globalCount % Two64
            && s.calls[st.caller].tenantCount % Two64 == s.calls[id].tenantCount % Two64
            && s.calls[st.caller].input == s.calls[id].input
  {
    RunKeepsInv(Init, actions);
    FoundIsPlaced(Run(Init, actions), id, st);
  }

  // ---- Exactly which entries a call can be served ----------------------------------------------

  ghost predicate ServedLater(s: State, more: seq<Action>, id: nat, st: Stored) {
    Findable(Run(s, more), id, st)
  }

  lemma RunShort(s: State, a: Action, b: Action)
    ensures Run(s, [a]) == Step(s, a) && Run(s, [a, b]) == Step(Step(s, a), b)
  {
    assert [a][1..] == [] && [a, b][1..] == [b];
    assert Run(Step(s, a), [b]) == Step(Step(s, a), b) by { assert [b][1..] == []; }
  }

  /** One call's entry stored, after an evaluation if it has none yet. */
  lemma StoredThenFound(s: State, a: nat, b: nat) returns (more: seq<Action>, st: Stored)
    requires a in s.calls && b in s.calls && KeyOf(s.calls[a]) == KeyOf(s.calls[b])
    ensures ServedLater(s, more, b, st) && st.caller == a
  {
    var c := s.calls[a];
    var o := Outcome(Decision("", "", false, [], None, None, 0), Metadata("", 0, c.input, ""));
    if c.built.Some? {
      more, st := [StoreRemote(a)], Stored(c.built.value, a);
      RunShort(s, StoreRemote(a), StoreRemote(a));
    } else {
      more, st := [Evaluate(a, o, 0), StoreRemote(a)], Stored(EntryFor(o, c.input, 0), a);
      RunShort(s, Evaluate(a, o, 0), StoreRemote(a));
      StepKeepsCalls(s, Evaluate(a, o, 0), b);
    }
  }

  /**
   Of two calls with the same input under the same policy, either can come to be served the other's
   entry exactly when the generations they read agree modulo 2^64.
   */
  lemma ServedIffGenerationsAgree(actions: seq<Action>, a: nat, b: nat)
    requires var s := Run(Init, actions);
             && a in s.calls && b in s.calls && s.calls[a].input == s.calls[b].input
             && s.calls[a].digest == s.calls[b].digest && s.calls[a].version == s.calls[b].version
    ensures var s := Run(Init, actions);
            (exists more, st :: ServedLater(s, more, b, st) && st.caller == a) <==>
            s.calls[a].globalCount % Two64 == s.calls[b].globalCount % Two64 &&
            s.calls[a].tenantCount % Two64 == s.calls[b].tenantCount % Two64
  {
    var s := Run(Init, actions);
    RunKeepsInv(Init, actions);
    if more, st :| ServedLater(s, more, b, st) && st.caller == a {
      RunKeepsInv(s, more);
      RunSince(s, s, more);
      FoundIsPlaced(Run(s, more), b, st);
      assert Identity(Run(s, more).calls[a]) == Identity(s.calls[a]) && Identity(Run(s, more).calls[b]) == Identity(s.calls[b]);
    } else if KeyOf(s.calls[a]) == KeyOf(s.calls[b]) {
      var more, st := StoredThenFound(s, a, b);
      assert false;
    }
  }

  // ---- Invalidation ----------------------------------------------------------------------------

  /** A call from before an invalidation read generations no later than those it found. */
  lemma EarlierCounts(s1: State, tenant: string, s2: State, id: nat)
    requires Inv(s1) && Since(Step(s1, Invalidate(tenant)), s2) && id in s1.calls
    ensures id in s2.calls
    ensures s2.calls[id].globalCount <= s1.globalCount && s2.calls[id].tenantCount <= TenantCount(s1, s2.calls[id].input.tenant)
  {
    assert Counted(s1, id);
    assert Step(s1, Invalidate(tenant)).calls == s1.calls;
    assert Identity(s2.calls[id]) == Identity(s1.calls[id]);
  }

  /** A call from after it read a later one. */
  lemma LaterCounts(s1: State, tenant: string, s2: State, id: nat)
    requires Since(Step(s1, Invalidate(tenant)), s2) && id in s2.calls && id !in s1.calls
    requires tenant == "" || s2.calls[id].input.tenant == tenant
    ensures if tenant == "" then s1.globalCount < s2.calls[id].globalCount else TenantCount(s1, tenant) < s2.calls[id].tenantCount
  {
    assert Step(s1, Invalidate(tenant)).calls == s1.calls;
  }

  lemma CycleGap(x: nat, y: nat)
    requires x < y && x % Two64 == y % Two64
    ensures y - x >= Two64
  {
  }

  /** How many invalidations of the tenant, or global ones, lie between two calls. */
  function Distance(tenant: string, earlier: Call, later: Call): int {
    if tenant == "" then later.globalCount - earlier.globalCount else later.tenantCount - earlier.tenantCount
  }

  /**
   After an invalidation returns, a call that then reads its generation can be served an entry of a call
   from before it, locally or remotely, only once a whole cycle of 2^64 invalidations lies between them.
   */
  lemma StaleNeedsFullCycle(before: seq<Action>, tenant: string, after: seq<Action>, id: nat, st: Stored)
    requires id !in Run(Init, before).calls
    requires Findable(Run(Step(Run(Init, before), Invalidate(tenant)), after), id, st)
    requires tenant == "" || Run(Step(Run(Init, before), Invalidate(tenant)), after).calls[id].input.tenant == tenant
    ensures var s := Run(Step(Run(Init, before), Invalidate(tenant)), after);
            && st.caller in s.calls
            && (st.caller in Run(Init, before).calls ==> Distance(tenant, s.calls[st.caller], s.calls[id]) >= Two64)
  {
    var s1 := Run(Init, before);
    var s1' := Step(s1, Invalidate(tenant));
    var s2 := Run(s1', after);
    RunKeepsInv(Init, before);
    StepKeepsInv(s1, Invalidate(tenant));
    RunKeepsInv(s1', after);
    RunSince(s1', s1', after);
    FoundIsPlaced(s2, id, st);
    LaterCounts(s1, tenant, s2, id);
    if st.caller in s1.calls {
      EarlierCounts(s1, tenant, s2, st.caller);
      var found, mine := s2.calls[st.caller], s2.calls[id];
      assert found.input == mine.input;
      if tenant == "" { CycleGap(found.globalCount, mine.globalCount); } else { CycleGap(found.tenantCount, mine.tenantCount); }
    }
  }

  /** So while fewer than 2^64 invalidations have happened, nothing from before an invalidation is served. */
  lemma InvalidatedIsNeverServed(before: seq<Action>, tenant: string, after: seq<Action>, id: nat, st: Stored)
    requires id !in Run(Init, before).calls
    requires Findable(Run(Step(Run(Init, before), Invalidate(tenant)), after), id, st)
    requires var s2 := Run(Step(Run(Init, before), Invalidate(tenant)), after);
             && (tenant == "" || s2.calls[id].input.tenant == tenant)
             && s2.globalCount < Two64 && TenantCount(s2, s2.calls[id].input.tenant) < Two64
    ensures st.caller !in Run(Init, before).calls
  {
    StaleNeedsFullCycle(before, tenant, after, id, st);
    RunKeepsInv(Init, before);
    StepKeepsInv(Run(Init, before), Invalidate(tenant));
    RunKeepsInv(Step(Run(Init, before), Invalidate(tenant)), after);
    assert Counted(Run(Step(Run(Init, before), Invalidate(tenant)), after), id);
  }

  // ---- The cycle closes ------------------------------------------------------------------------

  function Invalidations(tenant: string, n: nat): seq<Action>
    decreases n
  {
    if n == 0 then [] else [Invalidate(tenant)] + Invalidations(tenant, n - 1)
  }

  lemma {:induction false} InvalidationsCount(s: State, tenant: string, n: nat)
    requires tenant != ""
    ensures var t := Run(s, Invalidations(tenant, n));
            && t.calls == s.calls && t.remote == s.remote && t.globalCount == s.globalCount
            && TenantCount(t, tenant) == TenantCount(s, tenant) + n
    decreases n
  {
    if n > 0 {
      assert Invalidations(tenant, n)[1..] == Invalidations(tenant, n - 1);
      InvalidationsCount(Step(s, Invalidate(tenant)), tenant, n - 1);
    }
  }

  /** A call is evaluated and stored; its tenant is invalidated; a second call with the same input starts. */
  ghost function Earlier(input: Input, digest: string, version: int, o: Outcome, expiresAt: int): State {
    Step(Step(Step(Init, Start(1, input, digest, version)), Evaluate(1, o, expiresAt)), StoreRemote(1))
  }

  ghost function Afterwards(input: Input, digest: string, version: int, o: Outcome, expiresAt: int, n: nat): State {
    Step(Run(Earlier(input, digest, version, o, expiresAt), Invalidations(input.tenant, n)), Start(2, input, digest, version))
  }

  /** The first call's entry is all there is, under the generations nobody has bumped yet. */
  ghost predicate OnlyStored(s: State, c: Call, st: Stored) {
    s.calls == map[1 := c] && s.remote == map[KeyOf(c) := st] && s.local == map[]
  }

  lemma EarlierStores(input: Input, digest: string, version: int, o: Outcome, expiresAt: int)
    requires input.tenant != ""
    ensures var s := Earlier(input, digest, version, o, expiresAt);
            var e := EntryFor(o, input, expiresAt);
            && OnlyStored(s, Call(input, digest, version, 0, 0, None, Some(e)), Stored(e, 1))
            && s.globalCount == 0 && TenantCount(s, input.tenant) == 0
  {
  }

  lemma SecondFindsIff(s: State, c: Call, st: Stored)
    requires OnlyStored(s, c, st) && c.input.tenant != "" && c.globalCount == 0 && c.tenantCount == 0 && s.globalCount == 0
    ensures Findable(Step(s, Start(2, c.input, c.digest, c.version)), 2, st) <==> TenantCount(s, c.input.tenant) % Two64 == 0
  {
  }

  /** The second call finds the first one's entry exactly when the invalidations between them are whole cycles. */
  lemma StaleIsFoundIff(input: Input, digest: string, version: int, o: Outcome, expiresAt: int, n: nat)
    requires input.tenant != ""
    ensures Findable(Afterwards(input, digest, version, o, expiresAt, n), 2, Stored(EntryFor(o, input, expiresAt), 1)) <==>
            n % Two64 == 0
  {
    var s := Earlier(input, digest, version, o, expiresAt);
    var e := EntryFor(o, input, expiresAt);
    EarlierStores(input, digest, version, o, expiresAt);
    InvalidationsCount(s, input.tenant, n);
    LocalStaysEmpty(s, input.tenant, n);
    SecondFindsIff(Run(s, Invalidations(input.tenant, n)), Call(input, digest, version, 0, 0, None, Some(e)), Stored(e, 1));
  }

  lemma {:induction false} LocalStaysEmpty(s: State, tenant: string, n: nat)
    requires s.local == map[]
    ensures Run(s, Invalidations(tenant, n)).local == map[]
    decreases n
  {
    if n > 0 {
      assert Invalidations(tenant, n)[1..] == Invalidations(tenant, n - 1);
      LocalStaysEmpty(Step(s, Invalidate(tenant)), tenant, n - 1);
    }
  }

  /** The promise without its bound is false: after 2^64 invalidations a stale entry is served. */
  lemma WrappedGenerationServesStale(input: Input, digest: string, version: int, o: Outcome, expiresAt: int, n: nat)
    requires input.tenant != "" && n == Two64
    ensures n > 0 && Findable(Afterwards(input, digest, version, o, expiresAt, n), 2, Stored(EntryFor(o, input, expiresAt), 1))
  {
    StaleIsFoundIff(input, digest, version, o, expiresAt, n);
  }

  // ---- The evaluator's own generations ---------------------------------------------------------

  /** The evaluator keeps every count modulo 2^64, the global one under the empty tenant. */
  ghost predicate Represents(generation: map<string, int>, s: State) {
    forall tenant :: Generation(generation, tenant) == (if tenant == "" then s.globalCount else TenantCount(s, tenant)) % Two64
  }

  lemma NextGeneration(count: nat)
    ensures (count % Two64 + 1) % Two64 == (count + 1) % Two64
  {
  }

  /** What InvalidateTenant does to the generations is what an invalidation does to the counts. */
  lemma InvalidationIsRepresented(generation: map<string, int>, s: State, tenant: string)
    requires Represents(generation, s)
    ensures Represents(generation[tenant := (Generation(generation, tenant) + 1) % Two64], Step(s, Invalidate(tenant)))
  {
    var next := generation[tenant := (Generation(generation, tenant) + 1) % Two64];
    var s' := Step(s, Invalidate(tenant));
    NextGeneration(if tenant == "" then s.globalCount else TenantCount(s, tenant));
    forall other ensures Generation(next, other) == (if other == "" then s'.globalCount else TenantCount(s', other)) % Two64 {
      assert Generation(generation, other) == (if other == "" then s.globalCount else TenantCount(s, other)) % Two64;
    }
  }

  /** The key the evaluator computes for a request is the key of the call that starts with it. */
  lemma KeysAgree(e: CachedEvaluator, s: State, id: nat, input: Input, digest: string, version: int)
    requires Represents(e.generation, s) && id !in s.calls && input.tenant != ""
    ensures e.KeyFor(input, digest, version) == KeyOf(Step(s, Start(id, AuthorizationDigest(input), digest, version)).calls[id])
  {
  }
}
