/**
 The process-local view of the revocation authority, one record per tenant: what has been applied,
 what the authority is known to have reached, whether a gap was seen, and how old the view is.
 */
module Freshness {
  import opened Base

  datatype Epochs = Epochs(security: int, tenantPolicy: int, tenantRevocation: int, agentRevocation: int)

  datatype TenantState = TenantState(applied: int, epochs: Epochs, lastStream: int, lastReconciliation: int,
                                     observed: int, authoritative: int, gap: bool, hasObservation: bool)

  const Unknown := TenantState(0, Epochs(0, 0, 0, 0), 0, 0, 0, 0, false, false)

  datatype Tracker = Tracker(states: map<string, TenantState>, gapEvents: nat)

  /** The empty tenant is the zero identifier; `wall` is None when the wall clock is zero or not UTC. */
  datatype Observation =
    | Track(tenant: string)
    | Head(tenant: string, sequence: int)
    | Gap(tenant: string, sequence: int)
    | Record(tenant: string, sequence: int, epochs: Epochs, stream: bool, wall: Option<int>, elapsed: int)

  datatype Verdict = Applied | Duplicate | Ignored | Invalid | Regression | GapDetected | ClockRegression

  predicate ValidEpochs(e: Epochs) {
    e.security >= 0 && e.tenantPolicy >= 0 && e.tenantRevocation >= 0 && e.agentRevocation >= 0
  }

  predicate NotBelow(next: Epochs, previous: Epochs) {
    && next.security >= previous.security && next.tenantPolicy >= previous.tenantPolicy
    && next.tenantRevocation >= previous.tenantRevocation && next.agentRevocation >= previous.agentRevocation
  }

  predicate Advances(next: Epochs, previous: Epochs) {
    !NotBelow(previous, next)
  }

  function Max(a: int, b: int): int {
    if a > b then a else b
  }

  function Merge(a: Epochs, b: Epochs): Epochs {
    Epochs(Max(a.security, b.security), Max(a.tenantPolicy, b.tenantPolicy),
           Max(a.tenantRevocation, b.tenantRevocation), Max(a.agentRevocation, b.agentRevocation))
  }

  function StateOf(t: Tracker, tenant: string): TenantState {
    if tenant in t.states then t.states[tenant] else Unknown
  }

  /** The checks of record, in the order they are made. */
  function Judge(known: bool, p: TenantState, o: Observation): Verdict
    requires o.Record?
  {
    if o.tenant == "" || o.sequence < 0 || !ValidEpochs(o.epochs) || o.wall.None? then Invalid
    else if o.elapsed < 0 then ClockRegression
    else if !known then Applied
    else if o.elapsed < p.observed then ClockRegression
    else if o.sequence < p.applied || o.epochs.security < p.epochs.security then Regression
    else if !o.stream && !NotBelow(o.epochs, p.epochs) then Regression
    else if o.stream && p.hasObservation && o.sequence == p.applied then
      if Advances(o.epochs, p.epochs) then Regression else Duplicate
    else if o.stream && p.hasObservation && o.sequence > p.applied + 1 then GapDetected
    else Applied
  }

  function ApplyRecord(p: TenantState, o: Observation): TenantState
    requires o.Record? && o.wall.Some?
  {
    var next := p.(applied := o.sequence, hasObservation := true, authoritative := Max(p.authoritative, o.sequence),
                   epochs := Merge(p.epochs, o.epochs), observed := o.elapsed);
    if o.stream then next.(lastStream := o.wall.value) else next.(lastReconciliation := o.wall.value, gap := false)
  }

  predicate HeadRegresses(p: TenantState, sequence: int) {
    sequence < p.authoritative || (p.applied > 0 && sequence < p.applied)
  }

  function VerdictOf(t: Tracker, o: Observation): Verdict {
    var p := StateOf(t, o.tenant);
    match o
    case Track(tenant) => if tenant == "" || tenant in t.states then Ignored else Applied
    case Head(tenant, n) => if tenant == "" || n < 0 then Invalid else if HeadRegresses(p, n) then Regression else Applied
    case Gap(tenant, n) => if tenant == "" || n < 0 then Invalid else if HeadRegresses(p, n) then Regression else GapDetected
    case Record(tenant, _, _, _, _, _) => Judge(tenant in t.states, p, o)
  }

  function Observe(t: Tracker, o: Observation): Tracker {
    var p := StateOf(t, o.tenant);
    var v := VerdictOf(t, o);
    match o
    case Track(tenant) => if v.Applied? then t.(states := t.states[tenant := Unknown]) else t
    case Head(tenant, n) => if v.Applied? then t.(states := t.states[tenant := p.(authoritative := n)]) else t
    case Gap(tenant, n) =>
      if v.GapDetected? then Tracker(t.states[tenant := p.(authoritative := n, gap := true)], t.gapEvents + 1) else t
    case Record(tenant, n, _, _, _, _) =>
      if v.Applied? then t.(states := t.states[tenant := ApplyRecord(p, o)])
      else if v.GapDetected? then
        Tracker(t.states[tenant := p.(authoritative := Max(p.authoritative, n), gap := true)], t.gapEvents + 1)
      else t
  }

  function Run(t: Tracker, os: seq<Observation>): Tracker
    decreases |os|
  {
    if os == [] then t else Run(Observe(t, os[0]), os[1..])
  }

  const Start := Tracker(map[], 0)

  // ---- Over any sequence of observations -------------------------------------------------------

  ghost predicate Sound(s: TenantState) {
    0 <= s.applied <= s.authoritative && ValidEpochs(s.epochs) && s.observed >= 0
  }

  ghost predicate Inv(t: Tracker) {
    forall tenant :: tenant in t.states ==> tenant != "" && Sound(t.states[tenant])
  }

  /** What no observation may undo. */
  ghost predicate Progress(p: TenantState, q: TenantState) {
    && p.applied <= q.applied && p.authoritative <= q.authoritative && NotBelow(q.epochs, p.epochs)
    && p.observed <= q.observed && (p.hasObservation ==> q.hasObservation)
  }

  lemma ObserveProgresses(t: Tracker, o: Observation, tenant: string)
    requires Sound(StateOf(t, tenant))
    ensures Sound(StateOf(Observe(t, o), tenant)) && Progress(StateOf(t, tenant), StateOf(Observe(t, o), tenant))
    ensures tenant != o.tenant ==> StateOf(Observe(t, o), tenant) == StateOf(t, tenant)
  {
  }

  lemma ObserveIsSound(t: Tracker, o: Observation, tenant: string)
    requires Inv(t)
    ensures Inv(Observe(t, o))
    ensures Progress(StateOf(t, tenant), StateOf(Observe(t, o), tenant))
    ensures tenant != o.tenant ==> StateOf(Observe(t, o), tenant) == StateOf(t, tenant)
    ensures t.gapEvents <= Observe(t, o).gapEvents <= t.gapEvents + 1
  {
    assert Sound(StateOf(t, tenant)) && Sound(StateOf(t, o.tenant));
    ObserveProgresses(t, o, tenant);
    ObserveProgresses(t, o, o.tenant);
  }

  /** Applied never passes authoritative; sequences, epochs and observation times never regress. */
  lemma {:induction false} RunIsSound(t: Tracker, os: seq<Observation>, tenant: string)
    requires Inv(t)
    ensures Inv(Run(t, os)) && Sound(StateOf(Run(t, os), tenant))
    ensures Progress(StateOf(t, tenant), StateOf(Run(t, os), tenant))
    decreases |os|
  {
    assert Sound(StateOf(t, tenant));
    if os != [] {
      ObserveIsSound(t, os[0], tenant);
      RunIsSound(Observe(t, os[0]), os[1..], tenant);
    }
  }

  predicate Reconciles(t: Tracker, o: Observation, tenant: string) {
    o.Record? && !o.stream && o.tenant == tenant && VerdictOf(t, o).Applied?
  }

  /** Somewhere in the run, a reconciliation of this tenant is accepted. */
  predicate Reconciled(t: Tracker, os: seq<Observation>, tenant: string)
    decreases |os|
  {
    os != [] && (Reconciles(t, os[0], tenant) || Reconciled(Observe(t, os[0]), os[1..], tenant))
  }

  /** Only an accepted reconciliation clears a gap. */
  lemma {:induction false} GapOutlivesStream(t: Tracker, os: seq<Observation>, tenant: string)
    requires StateOf(t, tenant).gap && !Reconciled(t, os, tenant)
    ensures StateOf(Run(t, os), tenant).gap
    decreases |os|
  {
    if os != [] { GapOutlivesStream(Observe(t, os[0]), os[1..], tenant); }
  }

  /** Receipts of this tenant that were applied, counted. */
  function AppliedReceipts(t: Tracker, os: seq<Observation>, tenant: string): nat
    decreases |os|
  {
    if os == [] then 0
    else
      (if os[0].Record? && os[0].tenant == tenant && VerdictOf(t, os[0]).Applied? then 1 else 0) +
      AppliedReceipts(Observe(t, os[0]), os[1..], tenant)
  }

  /**
   Between reconciliations the stream is applied without a hole: each applied receipt is the very next
   sequence, so their number is exactly how far the applied sequence moved.
   */
  lemma {:induction false} StreamIsContiguous(t: Tracker, os: seq<Observation>, tenant: string)
    requires Inv(t) && StateOf(t, tenant).hasObservation && !Reconciled(t, os, tenant)
    ensures StateOf(Run(t, os), tenant).applied == StateOf(t, tenant).applied + AppliedReceipts(t, os, tenant)
    decreases |os|
  {
    if os != [] {
      ObserveIsSound(t, os[0], tenant);
      assert Sound(StateOf(t, tenant));
      StreamIsContiguous(Observe(t, os[0]), os[1..], tenant);
    }
  }

  /** The age is reset by nothing but an applied record: duplicates, gaps and heads leave it running. */
  lemma {:induction false} OnlyAppliedRecordsRefresh(t: Tracker, os: seq<Observation>, tenant: string)
    requires StateOf(t, tenant).hasObservation && AppliedReceipts(t, os, tenant) == 0
    ensures StateOf(Run(t, os), tenant).observed == StateOf(t, tenant).observed
    ensures StateOf(Run(t, os), tenant).epochs == StateOf(t, tenant).epochs
    ensures StateOf(Run(t, os), tenant).applied == StateOf(t, tenant).applied
    decreases |os|
  {
    if os != [] { OnlyAppliedRecordsRefresh(Observe(t, os[0]), os[1..], tenant); }
  }

  // ---- What an observation does ----------------------------------------------------------------

  datatype Component = Security | TenantPolicy | TenantRevocation | AgentRevocation

  function Of(e: Epochs, c: Component): int {
    match c
    case Security => e.security
    case TenantPolicy => e.tenantPolicy
    case TenantRevocation => e.tenantRevocation
    case AgentRevocation => e.agentRevocation
  }

  /** An applied record is taken over whole: its sequence, its time, and of each epoch the larger of old and new. */
  lemma AppliedIsTakenOver(t: Tracker, o: Observation, c: Component)
    requires o.Record? && VerdictOf(t, o).Applied?
    ensures var p, q := StateOf(t, o.tenant), StateOf(Observe(t, o), o.tenant);
            && q.applied == o.sequence && q.observed == o.elapsed && q.hasObservation
            && Of(q.epochs, c) >= Of(p.epochs, c) && Of(q.epochs, c) >= Of(o.epochs, c)
            && (Of(q.epochs, c) == Of(p.epochs, c) || Of(q.epochs, c) == Of(o.epochs, c))
            && q.authoritative >= p.authoritative && q.authoritative >= o.sequence
            && (q.authoritative == p.authoritative || q.authoritative == o.sequence)
            && q.gap == (p.gap && o.stream)
            && (if o.stream then q.lastStream == o.wall.value && q.lastReconciliation == p.lastReconciliation
                else q.lastReconciliation == o.wall.value && q.lastStream == p.lastStream)
  {
  }

  /** The values of one epoch that applied records of this tenant carried. */
  function Carried(t: Tracker, os: seq<Observation>, tenant: string, c: Component): set<int>
    decreases |os|
  {
    if os == [] then {}
    else
      (if os[0].Record? && os[0].tenant == tenant && VerdictOf(t, os[0]).Applied? then {Of(os[0].epochs, c)} else {}) +
      Carried(Observe(t, os[0]), os[1..], tenant, c)
  }

  /** Over any run each epoch is the largest of where it started and what applied records carried. */
  lemma {:induction false} EpochsAreMaxima(t: Tracker, os: seq<Observation>, tenant: string, c: Component)
    ensures IsMax({Of(StateOf(t, tenant).epochs, c)} + Carried(t, os, tenant, c), Of(StateOf(Run(t, os), tenant).epochs, c))
    decreases |os|
  {
    if os != [] {
      var next := Observe(t, os[0]);
      EpochsAreMaxima(next, os[1..], tenant, c);
      if os[0].Record? && os[0].tenant == tenant && VerdictOf(t, os[0]).Applied? {
        AppliedIsTakenOver(t, os[0], c);
      } else {
        assert StateOf(next, tenant).epochs == StateOf(t, tenant).epochs;
      }
    }
  }

  /** Only a record makes a tenant observed: before that the tracker knows at most a head and a gap. */
  lemma {:induction false} UnobservedIsBlank(os: seq<Observation>, tenant: string)
    requires !StateOf(Run(Start, os), tenant).hasObservation
    ensures StateOf(Run(Start, os), tenant) ==
            Unknown.(authoritative := StateOf(Run(Start, os), tenant).authoritative, gap := StateOf(Run(Start, os), tenant).gap)
    ensures StateOf(Run(Start, os), tenant).authoritative >= 0
  {
    BlankRun(Start, os, tenant);
  }

  predicate Blank(p: TenantState) {
    p.authoritative >= 0 && (!p.hasObservation ==> p == Unknown.(authoritative := p.authoritative, gap := p.gap))
  }

  lemma {:induction false} BlankRun(t: Tracker, os: seq<Observation>, tenant: string)
    requires Blank(StateOf(t, tenant))
    ensures Blank(StateOf(Run(t, os), tenant))
    decreases |os|
  {
    if os != [] {
      BlankRun(Observe(t, os[0]), os[1..], tenant);
    }
  }

  /** In any reachable tracker a tenant's first record is taken at whatever sequence and epochs it comes, if well formed. */
  lemma FirstRecordIsApplied(os: seq<Observation>, o: Observation, t: Tracker)
    requires t == Run(Start, os) && o.Record? && !StateOf(t, o.tenant).hasObservation
    ensures VerdictOf(t, o).Applied? <==>
            o.tenant != "" && o.sequence >= 0 && (forall c :: Of(o.epochs, c) >= 0) && o.wall.Some? && o.elapsed >= 0
  {
    UnobservedIsBlank(os, o.tenant);
    assert (forall c :: Of(o.epochs, c) >= 0) ==>
        Of(o.epochs, Security) >= 0 && Of(o.epochs, TenantPolicy) >= 0 && Of(o.epochs, TenantRevocation) >= 0 && Of(o.epochs, AgentRevocation) >= 0;
  }

  /** An observation is about one tenant; tracking only makes it known, without any state to trust. */
  lemma ObservationIsLocal(t: Tracker, o: Observation, tenant: string)
    ensures tenant != o.tenant ==> StateOf(Observe(t, o), tenant) == StateOf(t, tenant)
    ensures o.Track? ==> Observe(t, o).states.Keys == t.states.Keys + (if o.tenant == "" then {} else {o.tenant})
    ensures o.Track? ==> StateOf(Observe(t, o), tenant) == StateOf(t, tenant) && Observe(t, o).gapEvents == t.gapEvents
  {
  }

  /** Whatever is not applied and detects no gap leaves the tracker alone. */
  lemma RefusedChangesNothing(t: Tracker, o: Observation)
    requires !VerdictOf(t, o).Applied? && !VerdictOf(t, o).GapDetected?
    ensures Observe(t, o) == t
  {
  }

  /** The record is well formed and the tenant has been seen to a sequence before. */
  predicate Follows(t: Tracker, o: Observation) {
    && o.Record? && o.tenant in t.states && StateOf(t, o.tenant).hasObservation
    && o.sequence >= 0 && ValidEpochs(o.epochs) && o.wall.Some? && o.elapsed >= 0 && o.elapsed >= StateOf(t, o.tenant).observed
  }

  /**
   A skipped sequence is never applied: exactly a well-formed stream receipt beyond the next sequence, whose
   security epoch has not fallen, sets the gap, raises the known head and counts one event. Everything
   else about the tenant stays as it was.
   */
  lemma SkippingSetsGap(t: Tracker, o: Observation)
    requires Inv(t) && o.Record? && o.tenant != ""
    ensures VerdictOf(t, o).GapDetected? <==>
            Follows(t, o) && o.stream && o.sequence > StateOf(t, o.tenant).applied + 1 && o.epochs.security >= StateOf(t, o.tenant).epochs.security
    ensures VerdictOf(t, o).GapDetected? ==>
            var p, q := StateOf(t, o.tenant), StateOf(Observe(t, o), o.tenant);
            && q == p.(gap := true, authoritative := q.authoritative)
            && q.authoritative >= p.authoritative && q.authoritative >= o.sequence
            && (q.authoritative == p.authoritative || q.authoritative == o.sequence)
            && Observe(t, o).gapEvents == t.gapEvents + 1
  {
  }

  /** A stream receipt of a known tenant is applied exactly when it is the very next one, and repeated ones change nothing. */
  lemma StreamVerdicts(t: Tracker, o: Observation)
    requires Inv(t) && Follows(t, o) && o.tenant != "" && o.stream && o.epochs.security >= StateOf(t, o.tenant).epochs.security
    ensures var p := StateOf(t, o.tenant);
            && (VerdictOf(t, o).Applied? <==> o.sequence == p.applied + 1)
            && (VerdictOf(t, o).Duplicate? <==> o.sequence == p.applied && NotBelow(p.epochs, o.epochs))
            && (o.sequence <= p.applied ==> Observe(t, o) == t)
  {
  }

  /** A reconciliation is applied exactly when neither its sequence nor any of its epochs is behind what is known. */
  lemma ReconciliationVerdict(t: Tracker, o: Observation)
    requires Inv(t) && Follows(t, o) && o.tenant != "" && !o.stream
    ensures var p := StateOf(t, o.tenant);
            VerdictOf(t, o).Applied? <==> o.sequence >= p.applied && forall c :: Of(o.epochs, c) >= Of(p.epochs, c)
    ensures !VerdictOf(t, o).Applied? ==> Observe(t, o) == t
  {
    var p := StateOf(t, o.tenant);
    if forall c :: Of(o.epochs, c) >= Of(p.epochs, c) {
      assert Of(o.epochs, Security) >= Of(p.epochs, Security) && Of(o.epochs, TenantPolicy) >= Of(p.epochs, TenantPolicy);
      assert Of(o.epochs, TenantRevocation) >= Of(p.epochs, TenantRevocation) && Of(o.epochs, AgentRevocation) >= Of(p.epochs, AgentRevocation);
    }
  }

  /** A head or a gap signal moves the known head exactly when it is not behind; a gap signal also sets the gap. */
  lemma HeadAndGapMoveTheHead(t: Tracker, o: Observation)
    requires Inv(t) && (o.Head? || o.Gap?)
    ensures var p, q := StateOf(t, o.tenant), StateOf(Observe(t, o), o.tenant);
            if o.tenant != "" && o.sequence >= p.authoritative
            then q == p.(authoritative := o.sequence, gap := p.gap || o.Gap?) && o.tenant in Observe(t, o).states &&
                 Observe(t, o).gapEvents == t.gapEvents + if o.Gap? then 1 else 0
            else Observe(t, o) == t
  {
    assert Sound(StateOf(t, o.tenant));
  }

  // ---- Snapshot and metrics --------------------------------------------------------------------

  datatype Snapshot = Snapshot(applied: int, epochs: Epochs, age: int, hasAuthoritativeState: bool, clockHealthy: bool)

  function SnapshotOf(t: Tracker, tenant: string, now: int): Snapshot {
    var s := StateOf(t, tenant);
    if tenant == "" then Snapshot(0, Unknown.epochs, 0, false, false)
    else if tenant !in t.states || !s.hasObservation then Snapshot(0, Unknown.epochs, 0, false, true)
    else if s.gap || s.authoritative > s.applied then Snapshot(s.applied, s.epochs, 0, false, true)
    else if now < s.observed then Snapshot(s.applied, s.epochs, 0, false, false)
    else Snapshot(s.applied, s.epochs, now - s.observed, true, true)
  }

  /**
   A snapshot is authoritative exactly for an observed tenant without gap or lag whose clock has not gone
   back; only then it has an age. The clock is to blame exactly when nothing else is.
   */
  lemma SnapshotSays(t: Tracker, tenant: string, now: int)
    ensures var s, p := SnapshotOf(t, tenant, now), StateOf(t, tenant);
            var caughtUp := tenant != "" && tenant in t.states && p.hasObservation && !p.gap && p.authoritative <= p.applied;
            && (s.hasAuthoritativeState <==> caughtUp && p.observed <= now)
            && s.age == (if caughtUp && p.observed <= now then now - p.observed else 0)
            && (s.clockHealthy <==> tenant != "" && (caughtUp ==> p.observed <= now))
            && (tenant != "" && tenant in t.states && p.hasObservation ==>
                  s.applied == p.applied && forall c :: Of(s.epochs, c) == Of(p.epochs, c))
  {
  }

  datatype Metrics = Metrics(maximumAge: int, maximumLag: int, currentGaps: nat, gapEvents: nat, trackedTenants: nat, healthy: bool)

  ghost predicate Fresh(t: Tracker, tenant: string, now: int, maxAge: int) {
    var s := SnapshotOf(t, tenant, now);
    s.hasAuthoritativeState && s.clockHealthy && s.age <= maxAge
  }

  function Age(s: TenantState, now: int): int {
    if now >= s.observed then now - s.observed else 0
  }

  function Include(m: Metrics, s: TenantState, now: int, maxAge: int): Metrics {
    var lag := s.authoritative - s.applied;
    m.(maximumAge := Max(m.maximumAge, Age(s, now)), maximumLag := Max(m.maximumLag, lag),
       currentGaps := m.currentGaps + (if s.gap then 1 else 0),
       healthy := m.healthy && s.hasObservation && now >= s.observed && Age(s, now) <= maxAge && lag <= 0 && !s.gap)
  }

  ghost predicate IsMax(xs: set<int>, x: int) {
    x in xs && forall y :: y in xs ==> y <= x
  }

  ghost function AgesOf(t: Tracker, tenants: set<string>, now: int): set<int> {
    {0} + set tenant | tenant in tenants :: Age(StateOf(t, tenant), now)
  }

  ghost function LagsOf(t: Tracker, tenants: set<string>): set<int> {
    {0} + set tenant | tenant in tenants :: StateOf(t, tenant).authoritative - StateOf(t, tenant).applied
  }

  ghost function GapsIn(t: Tracker, tenants: set<string>): set<string> {
    set tenant | tenant in tenants && StateOf(t, tenant).gap
  }

  ghost predicate AllFresh(t: Tracker, tenants: set<string>, now: int, maxAge: int) {
    forall tenant :: tenant in tenants ==> Fresh(t, tenant, now, maxAge)
  }

  /** The aggregate is about exactly these tenants: attained maxima, the number of gaps, and joint freshness. */
  ghost predicate Summarizes(t: Tracker, tenants: set<string>, now: int, maxAge: int, m: Metrics) {
    && IsMax(AgesOf(t, tenants, now), m.maximumAge)
    && IsMax(LagsOf(t, tenants), m.maximumLag)
    && m.currentGaps == |GapsIn(t, tenants)|
    && (m.healthy <==> t.states != map[] && AllFresh(t, tenants, now, maxAge))
  }

  lemma SummarizesNone(t: Tracker, now: int, maxAge: int, m: Metrics)
    requires m.maximumAge == 0 && m.maximumLag == 0 && m.currentGaps == 0 && m.healthy == (t.states != map[])
    ensures Summarizes(t, {}, now, maxAge, m)
  {
  }

  lemma FreshIff(t: Tracker, tenant: string, now: int, maxAge: int)
    requires tenant in t.states && tenant != ""
    ensures var s := t.states[tenant];
            Fresh(t, tenant, now, maxAge) <==>
            s.hasObservation && now >= s.observed && Age(s, now) <= maxAge && s.authoritative - s.applied <= 0 && !s.gap
  {
  }

  lemma MaxGrows(xs: set<int>, m: int, x: int)
    requires IsMax(xs, m)
    ensures IsMax(xs + {x}, if x > m then x else m)
  {
  }

  lemma TenantAdds(t: Tracker, tenants: set<string>, tenant: string, now: int, maxAge: int)
    requires tenant in t.states && tenant !in tenants
    ensures AgesOf(t, tenants + {tenant}, now) == AgesOf(t, tenants, now) + {Age(t.states[tenant], now)}
    ensures LagsOf(t, tenants + {tenant}) == LagsOf(t, tenants) + {t.states[tenant].authoritative - t.states[tenant].applied}
    ensures |GapsIn(t, tenants + {tenant})| == |GapsIn(t, tenants)| + if t.states[tenant].gap then 1 else 0
  {
    assert GapsIn(t, tenants + {tenant}) == GapsIn(t, tenants) + (if t.states[tenant].gap then {tenant} else {});
  }

  lemma IncludeSummarizes(t: Tracker, tenants: set<string>, tenant: string, now: int, maxAge: int, m: Metrics)
    requires Summarizes(t, tenants, now, maxAge, m)
    requires tenant in t.states && tenant != "" && tenant !in tenants
    ensures Summarizes(t, tenants + {tenant}, now, maxAge, Include(m, t.states[tenant], now, maxAge))
  {
    var s := t.states[tenant];
    var more := tenants + {tenant};
    TenantAdds(t, tenants, tenant, now, maxAge);
    MaxGrows(AgesOf(t, tenants, now), m.maximumAge, Age(s, now));
    MaxGrows(LagsOf(t, tenants), m.maximumLag, s.authoritative - s.applied);
    FreshIff(t, tenant, now, maxAge);
    assert AllFresh(t, more, now, maxAge) <==> AllFresh(t, tenants, now, maxAge) && Fresh(t, tenant, now, maxAge);
  }

  class RevocationFreshnessTracker {
    var states: map<string, TenantState>
    var gapEvents: nat

    ghost function View(): Tracker
      reads this
    {
      Tracker(states, gapEvents)
    }

    ghost predicate Valid()
      reads this
    {
      Inv(View())
    }

    constructor ()
      ensures Valid() && View() == Start
    {
      states, gapEvents := map[], 0;
    }

    method TrackTenant(tenant: string)
      requires Valid()
      modifies this
      ensures Valid() && View() == Observe(old(View()), Track(tenant))
    {
      ObserveIsSound(View(), Track(tenant), tenant);
      if tenant != "" && tenant !in states {
        states := states[tenant := Unknown];
      }
    }

    method RecordAuthoritativeHead(tenant: string, sequence: int) returns (verdict: Verdict)
      requires Valid()
      modifies this
      ensures Valid() && View() == Observe(old(View()), Head(tenant, sequence))
      ensures verdict == VerdictOf(old(View()), Head(tenant, sequence))
    {
      ObserveIsSound(View(), Head(tenant, sequence), tenant);
      if tenant == "" || sequence < 0 { return Invalid; }
      var state := if tenant in states then states[tenant] else Unknown;
      if sequence < state.authoritative || (state.applied > 0 && sequence < state.applied) { return Regression; }
      states := states[tenant := state.(authoritative := sequence)];
      verdict := Applied;
    }

    method RecordGap(tenant: string, sequence: int) returns (verdict: Verdict)
      requires Valid()
      modifies this
      ensures Valid() && View() == Observe(old(View()), Gap(tenant, sequence))
      ensures verdict == VerdictOf(old(View()), Gap(tenant, sequence))
    {
      ObserveIsSound(View(), Gap(tenant, sequence), tenant);
      if tenant == "" || sequence < 0 { return Invalid; }
      var state := if tenant in states then states[tenant] else Unknown;
      if sequence < state.authoritative || (state.applied > 0 && sequence < state.applied) { return Regression; }
      states := states[tenant := state.(authoritative := sequence, gap := true)];
      gapEvents := gapEvents + 1;
      verdict := GapDetected;
    }

    /** A stream receipt or a reconciliation; `notify` says whether the cache invalidators run. */
    method RecordObservation(tenant: string, sequence: int, epochs: Epochs, stream: bool, wall: Option<int>, elapsed: int)
      returns (verdict: Verdict, notify: bool)
      requires Valid()
      modifies this
      ensures Valid() && View() == Observe(old(View()), Record(tenant, sequence, epochs, stream, wall, elapsed))
      ensures verdict == VerdictOf(old(View()), Record(tenant, sequence, epochs, stream, wall, elapsed))
      ensures notify == verdict.Applied?
    {
      ObserveIsSound(View(), Record(tenant, sequence, epochs, stream, wall, elapsed), tenant);
      notify := false;
      if tenant == "" || sequence < 0 || !ValidEpochs(epochs) || wall.None? { return Invalid, false; }
      if elapsed < 0 { return ClockRegression, false; }
      var previous := Unknown;
      if tenant in states {
        previous := states[tenant];
        if elapsed < previous.observed { return ClockRegression, false; }
        if sequence < previous.applied || epochs.security < previous.epochs.security { return Regression, false; }
        if !stream && !NotBelow(epochs, previous.epochs) { return Regression, false; }
        if stream && previous.hasObservation && sequence == previous.applied {
          return if Advances(epochs, previous.epochs) then Regression else Duplicate, false;
        }
        if stream && previous.hasObservation && sequence > previous.applied + 1 {
          if sequence > previous.authoritative { previous := previous.(authoritative := sequence); }
          states := states[tenant := previous.(gap := true)];
          gapEvents := gapEvents + 1;
          return GapDetected, false;
        }
      }
      previous := previous.(applied := sequence, hasObservation := true);
      if sequence > previous.authoritative { previous := previous.(authoritative := sequence); }
      previous := previous.(epochs := Merge(previous.epochs, epochs), observed := elapsed);
      if stream {
        previous := previous.(lastStream := wall.value);
      } else {
        previous := previous.(lastReconciliation := wall.value, gap := false);
      }
      states := states[tenant := previous];
      return Applied, true;
    }

    /** What the tracker vouches for at this instant. */
    method TakeSnapshot(tenant: string, now: int) returns (s: Snapshot)
      ensures s == SnapshotOf(View(), tenant, now)
    {
      s := Snapshot(0, Unknown.epochs, 0, false, true);
      if tenant == "" { return s.(clockHealthy := false); }
      if tenant !in states || !states[tenant].hasObservation { return; }
      var state := states[tenant];
      s := s.(applied := state.applied, epochs := state.epochs);
      if state.gap || state.authoritative > state.applied { return; }
      if now < state.observed { return s.(clockHealthy := false); }
      s := s.(age := now - state.observed, hasAuthoritativeState := true);
    }

    /** One pass over the tenants, in any order. */
    method ReadMetrics(maxAge: int, now: int) returns (m: Metrics)
      requires Valid()
      ensures maxAge <= 0 ==> !m.healthy
      ensures maxAge > 0 ==> Summarizes(View(), states.Keys, now, maxAge, m) && m.trackedTenants == |states| && m.gapEvents == gapEvents
      ensures m.healthy <==> maxAge > 0 && states != map[] && forall tenant :: tenant in states ==> Fresh(View(), tenant, now, maxAge)
    {
      if maxAge <= 0 { return Metrics(0, 0, 0, 0, 0, false); }
      m := SummarizeTenants(Tracker(states, gapEvents), maxAge, now);
    }

    /** The accumulation over the map, in whatever order its keys come. */
    static method SummarizeTenants(t: Tracker, maxAge: int, now: int) returns (m: Metrics)
      requires Inv(t)
      ensures Summarizes(t, t.states.Keys, now, maxAge, m) && m.trackedTenants == |t.states| && m.gapEvents == t.gapEvents
    {
      m := Metrics(0, 0, 0, t.gapEvents, |t.states|, t.states != map[]);
      var todo := t.states.Keys;
      SummarizesNone(t, now, maxAge, m);
      assert t.states.Keys - todo == {};
      while todo != {}
        invariant todo <= t.states.Keys
        invariant m.trackedTenants == |t.states| && m.gapEvents == t.gapEvents
        invariant Summarizes(t, t.states.Keys - todo, now, maxAge, m)
        decreases |todo|
      {
        var tenant :| tenant in todo;
        ghost var done := t.states.Keys - todo;
        IncludeSummarizes(t, done, tenant, now, maxAge, m);
        m := IncludeTenant(m, t.states[tenant], maxAge, now);
        todo := todo - {tenant};
        assert t.states.Keys - todo == done + {tenant};
      }
      assert t.states.Keys - todo == t.states.Keys;
    }

    static method IncludeTenant(before: Metrics, state: TenantState, maxAge: int, now: int) returns (m: Metrics)
      ensures m == Include(before, state, now, maxAge)
    {
      m := before;
      var clockHealthy := now >= state.observed;
      var age := if clockHealthy then now - state.observed else 0;
      if age > m.maximumAge { m := m.(maximumAge := age); }
      var lag := state.authoritative - state.applied;
      if lag > m.maximumLag { m := m.(maximumLag := lag); }
      if state.gap { m := m.(currentGaps := m.currentGaps + 1); }
      if !state.hasObservation || !clockHealthy || age > maxAge || lag > 0 || state.gap { m := m.(healthy := false); }
    }
  }
}
