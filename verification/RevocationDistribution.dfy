/**
 Distribution of revocations to gateways: a log read by cursor under a time-based retention cutoff,
 reconciliation by delta or snapshot, and checkpoints that must not move backwards.
 */
module RevocationDistribution {
  import opened Base

  /** `tenant` is None for global entries; `committedAt` is supplied by whoever wrote the entry. */
  datatype Entry = Entry(sequence: int, tenant: Option<nat>, committedAt: int, change: string)

  predicate Sees(tenant: nat, e: Entry) { e.tenant == None || e.tenant == Some(tenant) }

  /** Sequences are drawn from one increasing counter. */
  ghost predicate Ordered(log: seq<Entry>) {
    (forall i :: 0 <= i < |log| ==> log[i].sequence >= 1) &&
    (forall i, j :: 0 <= i < j < |log| ==> log[i].sequence < log[j].sequence)
  }

  /** Among the entries a tenant sees, commit times do not go back as sequences go up. */
  ghost predicate CommitOrdered(log: seq<Entry>, tenant: nat) {
    forall i, j :: 0 <= i < j < |log| && Sees(tenant, log[i]) && Sees(tenant, log[j]) ==> log[i].committedAt <= log[j].committedAt
  }

  // ---- The two statements of RevocationChanges -------------------------------------------------

  function Earliest(log: seq<Entry>, tenant: nat, cutoff: int): Option<int>
    decreases |log|
  {
    if log == [] then None
    else
      var last := log[|log| - 1];
      var before := Earliest(log[..|log| - 1], tenant, cutoff);
      if !Sees(tenant, last) || last.committedAt < cutoff then before
      else if before.None? || last.sequence < before.value then Some(last.sequence)
      else before
  }

  predicate Retained(e: Entry, tenant: nat, cutoff: int) { Sees(tenant, e) && e.committedAt >= cutoff }

  predicate Expired(e: Entry, tenant: nat, cutoff: int) { Sees(tenant, e) && e.committedAt < cutoff }

  predicate HasExpired(log: seq<Entry>, tenant: nat, cutoff: int) {
    exists i :: 0 <= i < |log| && Expired(log[i], tenant, cutoff)
  }

  predicate Gone(log: seq<Entry>, tenant: nat, cutoff: int, after: int) {
    var earliest := Earliest(log, tenant, cutoff);
    HasExpired(log, tenant, cutoff) && (earliest.None? || after < earliest.value - 1)
  }

  /** Visible entries above the cursor, in order; with a cutoff, only those committed since. */
  function Select(log: seq<Entry>, tenant: nat, after: int, cutoff: Option<int>): seq<Entry>
    decreases |log|
  {
    if log == [] then []
    else
      var last := log[|log| - 1];
      Select(log[..|log| - 1], tenant, after, cutoff) +
        if Sees(tenant, last) && last.sequence > after && (cutoff.Some? ==> last.committedAt >= cutoff.value) then [last] else []
  }

  /** Global entries and the tenant's own are read, above the cursor and not older than the cutoff; nothing of other tenants is. */
  lemma {:induction false} SelectIffVisible(log: seq<Entry>, tenant: nat, after: int, cutoff: Option<int>, e: Entry)
    ensures e in Select(log, tenant, after, cutoff) <==>
            e in log && (e.tenant == None || e.tenant == Some(tenant)) && e.sequence > after && (cutoff.Some? ==> e.committedAt >= cutoff.value)
    decreases |log|
  {
    if log != [] {
      SelectIffVisible(log[..|log| - 1], tenant, after, cutoff, e);
      assert e in log <==> e in log[..|log| - 1] || e == log[|log| - 1];
    }
  }

  /** Entries are read in strictly ascending sequence, so each once. */
  lemma {:induction false} SelectIsOrdered(log: seq<Entry>, tenant: nat, after: int, cutoff: Option<int>)
    requires Ordered(log)
    ensures Ordered(Select(log, tenant, after, cutoff))
    decreases |log|
  {
    if log != [] {
      var front := log[..|log| - 1];
      var s := Select(front, tenant, after, cutoff);
      SelectIsOrdered(front, tenant, after, cutoff);
      forall i | 0 <= i < |s| ensures s[i].sequence < log[|log| - 1].sequence {
        SelectIffVisible(front, tenant, after, cutoff, s[i]);
        var j :| 0 <= j < |front| && front[j] == s[i];
        assert log[j] == front[j];
      }
    }
  }

  function Take(s: seq<Entry>, limit: nat): seq<Entry> {
    if |s| <= limit then s else s[..limit]
  }

  lemma {:induction false} EarliestIsMin(log: seq<Entry>, tenant: nat, cutoff: int)
    ensures var m := Earliest(log, tenant, cutoff);
            && (m.None? ==> forall i :: 0 <= i < |log| ==> !Retained(log[i], tenant, cutoff))
            && (m.Some? ==> exists i :: 0 <= i < |log| && Retained(log[i], tenant, cutoff) && log[i].sequence == m.value)
            && (m.Some? ==> forall i :: 0 <= i < |log| && Retained(log[i], tenant, cutoff) ==> m.value <= log[i].sequence)
    decreases |log|
  {
    if log != [] {
      var n := |log| - 1;
      var before := log[..n];
      EarliestIsMin(before, tenant, cutoff);
      var m := Earliest(log, tenant, cutoff);
      if m.Some? {
        if m == Earliest(before, tenant, cutoff) {
          var i :| 0 <= i < |before| && Retained(before[i], tenant, cutoff) && before[i].sequence == m.value;
          assert log[i] == before[i];
        } else {
          assert Retained(log[n], tenant, cutoff);
        }
      }
      forall i | 0 <= i < |log| && Retained(log[i], tenant, cutoff) ensures m.Some? && m.value <= log[i].sequence {
        if i < n { assert before[i] == log[i]; }
      }
    }
  }

  /** No wanted entry is too old. */
  ghost predicate AllRetained(log: seq<Entry>, tenant: nat, after: int, cutoff: int) {
    forall i :: 0 <= i < |log| && log[i].sequence > after ==> !Expired(log[i], tenant, cutoff)
  }

  lemma AllRetainedStep(log: seq<Entry>, tenant: nat, after: int, cutoff: int)
    requires log != []
    ensures var n := |log| - 1;
            AllRetained(log, tenant, after, cutoff) <==>
            AllRetained(log[..n], tenant, after, cutoff) && (log[n].sequence > after ==> !Expired(log[n], tenant, cutoff))
  {
  }

  lemma SameLast(a: seq<Entry>, b: seq<Entry>, x: Entry)
    ensures a + [x] == b + [x] <==> a == b
  {
    assert a == (a + [x])[..|a + [x]| - 1] && b == (b + [x])[..|b + [x]| - 1];
  }

  /** The cutoff removes nothing exactly when every wanted entry was committed since. */
  lemma {:induction false} CutoffIsHarmlessIff(log: seq<Entry>, tenant: nat, after: int, cutoff: int)
    ensures |Select(log, tenant, after, Some(cutoff))| <= |Select(log, tenant, after, None)|
    ensures Select(log, tenant, after, Some(cutoff)) == Select(log, tenant, after, None) <==> AllRetained(log, tenant, after, cutoff)
    decreases |log|
  {
    if log != [] {
      var n := |log| - 1;
      CutoffIsHarmlessIff(log[..n], tenant, after, cutoff);
      AllRetainedStep(log, tenant, after, cutoff);
      var a, b := Select(log[..n], tenant, after, Some(cutoff)), Select(log[..n], tenant, after, None);
      var x := log[n];
      if !Sees(tenant, x) || x.sequence <= after {
        assert Select(log, tenant, after, Some(cutoff)) == a && Select(log, tenant, after, None) == b;
      } else if x.committedAt < cutoff {
        assert |Select(log, tenant, after, Some(cutoff))| == |a| && |Select(log, tenant, after, None)| == |b| + 1;
      } else {
        SameLast(a, b, x);
      }
    }
  }

  /** The read neither reports the cursor gone nor loses a visible entry above it. */
  ghost predicate Lossless(log: seq<Entry>, tenant: nat, after: int, cutoff: int) {
    Gone(log, tenant, cutoff, after) || Select(log, tenant, after, Some(cutoff)) == Select(log, tenant, after, None)
  }

  lemma OrderedIsLossless(log: seq<Entry>, tenant: nat, after: int, cutoff: int)
    requires Ordered(log) && CommitOrdered(log, tenant)
    ensures Lossless(log, tenant, after, cutoff)
  {
    EarliestIsMin(log, tenant, cutoff);
    CutoffIsHarmlessIff(log, tenant, after, cutoff);
    if i :| 0 <= i < |log| && log[i].sequence > after && Expired(log[i], tenant, cutoff) {
      var m := Earliest(log, tenant, cutoff);
      if m.Some? {
        var j :| 0 <= j < |log| && Retained(log[j], tenant, cutoff) && log[j].sequence == m.value;
        assert i < j;
      }
    }
  }

  lemma DisorderLosesEntry(log: seq<Entry>, tenant: nat, i: int, j: int)
    requires Ordered(log) && 0 <= i < j < |log| && Sees(tenant, log[i]) && Sees(tenant, log[j])
    requires log[i].committedAt > log[j].committedAt
    ensures Earliest(log, tenant, log[i].committedAt).Some?
    ensures !Lossless(log, tenant, Earliest(log, tenant, log[i].committedAt).value - 1, log[i].committedAt)
  {
    var cutoff := log[i].committedAt;
    EarliestIsMin(log, tenant, cutoff);
    assert Retained(log[i], tenant, cutoff) && Expired(log[j], tenant, cutoff);
    var after := Earliest(log, tenant, cutoff).value - 1;
    CutoffIsHarmlessIff(log, tenant, after, cutoff);
  }

  /** Retention loses no entry, for any cursor and cutoff, exactly when visible commit times follow the sequence. */
  lemma LosslessIffCommitOrdered(log: seq<Entry>, tenant: nat)
    requires Ordered(log)
    ensures (forall after, cutoff :: after >= 0 ==> Lossless(log, tenant, after, cutoff)) <==> CommitOrdered(log, tenant)
  {
    if CommitOrdered(log, tenant) {
      forall after, cutoff | after >= 0 ensures Lossless(log, tenant, after, cutoff) { OrderedIsLossless(log, tenant, after, cutoff); }
    } else {
      var i, j :| 0 <= i < j < |log| && Sees(tenant, log[i]) && Sees(tenant, log[j]) && log[i].committedAt > log[j].committedAt;
      DisorderLosesEntry(log, tenant, i, j);
      EarliestIsMin(log, tenant, log[i].committedAt);
      var after := Earliest(log, tenant, log[i].committedAt).value - 1;
      assert after >= 0 && !Lossless(log, tenant, after, log[i].committedAt);
    }
  }

  /** The same with entries arriving between the boundary statement and the row statement. */
  lemma InterleavedIsLossless(log: seq<Entry>, more: seq<Entry>, tenant: nat, after: int, cutoff: int)
    requires Ordered(log + more) && CommitOrdered(log, tenant) && !Gone(log, tenant, cutoff, after)
    requires forall e :: e in more ==> e.committedAt >= cutoff
    ensures Select(log + more, tenant, after, Some(cutoff)) == Select(log + more, tenant, after, None)
  {
    var all := log + more;
    assert Ordered(log) by { assert forall i :: 0 <= i < |log| ==> all[i] == log[i]; }
    OrderedIsLossless(log, tenant, after, cutoff);
    CutoffIsHarmlessIff(log, tenant, after, cutoff);
    CutoffIsHarmlessIff(all, tenant, after, cutoff);
    forall i | 0 <= i < |all| && all[i].sequence > after ensures !Expired(all[i], tenant, cutoff) {
      if i < |log| { assert all[i] == log[i]; } else { assert all[i] == more[i - |log|]; }
    }
  }

  /** A visible entry above the cursor is selected, whatever came later. */
  lemma {:induction false} SelectIsComplete(log: seq<Entry>, tenant: nat, after: int, i: int)
    requires 0 <= i < |log| && Sees(tenant, log[i]) && log[i].sequence > after
    ensures log[i] in Select(log, tenant, after, None)
    decreases |log|
  {
    if i < |log| - 1 {
      assert log[..|log| - 1][i] == log[i];
      SelectIsComplete(log[..|log| - 1], tenant, after, i);
    }
  }

  // ---- Checkpoints -----------------------------------------------------------------------------

  datatype Epochs = Epochs(security: int, tenantPolicy: int, tenantRevocation: int)

  datatype Checkpoint = Checkpoint(sequence: int, epochs: Epochs, streamAt: Option<int>, reconciledAt: Option<int>, updatedAt: int)

  predicate AtMost(e: Epochs, f: Epochs) {
    e.security <= f.security && e.tenantPolicy <= f.tenantPolicy && e.tenantRevocation <= f.tenantRevocation
  }

  predicate ValidCheckpoint(c: Checkpoint) {
    c.sequence >= 0 && AtMost(Epochs(0, 0, 0), c.epochs) && c.updatedAt != 0
  }

  function Coalesce(a: Option<int>, b: Option<int>): Option<int> { if a.Some? then a else b }

  /** The guarded upsert; None is the conflict of a checkpoint that would regress. */
  function Save(stored: Option<Checkpoint>, c: Checkpoint): Option<Checkpoint> {
    if !ValidCheckpoint(c) then None
    else if stored.None? then Some(c)
    else if stored.value.sequence <= c.sequence && AtMost(stored.value.epochs, c.epochs)
    then Some(c.(streamAt := Coalesce(c.streamAt, stored.value.streamAt), reconciledAt := Coalesce(c.reconciledAt, stored.value.reconciledAt)))
    else None
  }

  /** Exactly a well-formed checkpoint that goes back in nothing is stored, a repeat included; unset times are carried over. */
  lemma SavedIff(stored: Option<Checkpoint>, c: Checkpoint)
    ensures Save(stored, c).Some? <==>
            && c.sequence >= 0 && c.epochs.security >= 0 && c.epochs.tenantPolicy >= 0 && c.epochs.tenantRevocation >= 0 && c.updatedAt != 0
            && (stored.Some? ==>
                  && c.sequence >= stored.value.sequence && c.epochs.security >= stored.value.epochs.security
                  && c.epochs.tenantPolicy >= stored.value.epochs.tenantPolicy && c.epochs.tenantRevocation >= stored.value.epochs.tenantRevocation)
    ensures Save(stored, c).Some? ==>
              var next := Save(stored, c).value;
              && next == c.(streamAt := next.streamAt, reconciledAt := next.reconciledAt)
              && (if c.streamAt.Some? || stored.None? then next.streamAt == c.streamAt else next.streamAt == stored.value.streamAt)
              && (if c.reconciledAt.Some? || stored.None? then next.reconciledAt == c.reconciledAt
                  else next.reconciledAt == stored.value.reconciledAt)
  {
  }

  function SaveAll(stored: Option<Checkpoint>, saves: seq<Checkpoint>): Option<Checkpoint>
    decreases |saves|
  {
    if saves == [] then stored
    else
      var next := Save(stored, saves[0]);
      SaveAll(if next.Some? then next else stored, saves[1..])
  }

  /** Over any saves by any sessions no component goes back and no recorded time is erased. */
  lemma {:induction false} CheckpointsNeverRegress(stored: Option<Checkpoint>, saves: seq<Checkpoint>)
    requires stored.Some?
    ensures var c := SaveAll(stored, saves);
            && c.Some? && stored.value.sequence <= c.value.sequence && AtMost(stored.value.epochs, c.value.epochs)
            && (stored.value.streamAt.Some? ==> c.value.streamAt.Some?) && (stored.value.reconciledAt.Some? ==> c.value.reconciledAt.Some?)
    decreases |saves|
  {
    if saves != [] {
      var next := Save(stored, saves[0]);
      CheckpointsNeverRegress(if next.Some? then next else stored, saves[1..]);
    }
  }

  // ---- The repository and reconciliation -------------------------------------------------------

  const MaxDelta := 10000

  datatype Mode = Delta | Snapshot

  datatype Reconciliation = Reconciliation(mode: Mode, authoritative: int, epochs: Epochs, changes: seq<Entry>, snapshot: seq<string>)

  datatype Failure = InvalidQuery | CursorGone | AheadOfAuthority | CheckpointConflict

  function Head(log: seq<Entry>, tenant: nat): int
    decreases |log|
  {
    if log == [] then 0
    else
      var last := log[|log| - 1];
      var before := Head(log[..|log| - 1], tenant);
      if Sees(tenant, last) && last.sequence > before then last.sequence else before
  }

  lemma {:induction false} HeadIsMax(log: seq<Entry>, tenant: nat)
    requires Ordered(log)
    ensures Head(log, tenant) >= 0 && forall i :: 0 <= i < |log| && Sees(tenant, log[i]) ==> log[i].sequence <= Head(log, tenant)
    ensures Head(log, tenant) > 0 ==> exists i :: 0 <= i < |log| && Sees(tenant, log[i]) && log[i].sequence == Head(log, tenant)
    decreases |log|
  {
    if log != [] {
      var before := log[..|log| - 1];
      HeadIsMax(before, tenant);
      forall i | 0 <= i < |log| && Sees(tenant, log[i]) ensures log[i].sequence <= Head(log, tenant) {
        if i < |log| - 1 { assert before[i] == log[i]; }
      }
      if Head(log, tenant) > 0 && Head(log, tenant) == Head(before, tenant) {
        var i :| 0 <= i < |before| && Sees(tenant, before[i]) && before[i].sequence == Head(before, tenant);
        assert log[i] == before[i];
      }
    }
  }

  /** Scans the rows of the second statement into a slice. */
  method ScanChanges(log: seq<Entry>, tenant: nat, after: int, cutoff: int, limit: nat) returns (changes: seq<Entry>)
    ensures changes == Take(Select(log, tenant, after, Some(cutoff)), limit)
  {
    changes := [];
    for i := 0 to |log|
      invariant changes == Take(Select(log[..i], tenant, after, Some(cutoff)), limit)
    {
      assert log[..i + 1][..i] == log[..i];
      var e := log[i];
      if Sees(tenant, e) && e.sequence > after && e.committedAt >= cutoff && |changes| < limit {
        changes := changes + [e];
      }
    }
    assert log[..|log|] == log;
  }

  function StoredFor(checkpoints: map<(nat, nat), Checkpoint>, tenant: nat, gateway: nat): Option<Checkpoint> {
    if (tenant, gateway) in checkpoints then Some(checkpoints[(tenant, gateway)]) else None
  }

  /** The gateway claims to have seen what the authority has not issued. */
  predicate Ahead(held: Epochs, last: int, head: int, epochs: Epochs) {
    || last > head || held.security > epochs.security
    || held.tenantPolicy > epochs.tenantPolicy || held.tenantRevocation > epochs.tenantRevocation
  }

  class Repositories {
    var log: seq<Entry>
    var security: int
    var tenantEpochs: map<nat, (int, int)>
    var active: seq<string>
    var checkpoints: map<(nat, nat), Checkpoint>

    ghost predicate Valid()
      reads this
    {
      Ordered(log)
    }

    /** A tenant without an epoch row counts as zero. */
    function EpochsOf(tenant: nat): Epochs
      reads this
    {
      if tenant in tenantEpochs then Epochs(security, tenantEpochs[tenant].0, tenantEpochs[tenant].1) else Epochs(security, 0, 0)
    }

    /** `between` are the entries other sessions append between the two statements. */
    method RevocationChanges(tenant: nat, after: int, limit: int, cutoff: int, between: seq<Entry>)
      returns (r: Result<seq<Entry>, Failure>)
      requires Valid() && Ordered(log + between)
      modifies `log
      ensures Valid() && log == old(log) + between
      ensures r == Err(InvalidQuery) <==> tenant == 0 || after < 0 || limit < 1 || limit > 10001
      ensures r == Err(CursorGone) <==> r != Err(InvalidQuery) && Gone(old(log), tenant, cutoff, after)
      ensures r.Ok? <==> r != Err(InvalidQuery) && r != Err(CursorGone)
      ensures r.Ok? ==> r.value == Take(Select(log, tenant, after, Some(cutoff)), limit)
      ensures r.Ok? && CommitOrdered(old(log), tenant) && (forall e :: e in between ==> e.committedAt >= cutoff) ==>
                r.value == Take(Select(log, tenant, after, None), limit)
    {
      var start := log;
      log := log + between;
      if tenant == 0 || after < 0 || limit < 1 || limit > 10001 { return Err(InvalidQuery); }
      if Gone(start, tenant, cutoff, after) { return Err(CursorGone); }
      var changes := ScanChanges(log, tenant, after, cutoff, limit);
      if CommitOrdered(start, tenant) && forall e :: e in between ==> e.committedAt >= cutoff {
        InterleavedIsLossless(start, between, tenant, after, cutoff);
      }
      r := Ok(changes);
    }

    method SaveGatewayCheckpoint(tenant: nat, gateway: nat, c: Checkpoint) returns (ok: bool)
      modifies `checkpoints
      ensures var stored := StoredFor(old(checkpoints), tenant, gateway);
              && (ok <==> tenant != 0 && gateway != 0 && Save(stored, c).Some?)
              && checkpoints == if ok then old(checkpoints)[(tenant, gateway) := Save(stored, c).value] else old(checkpoints)
    {
      var key := (tenant, gateway);
      if tenant == 0 || gateway == 0 || c.sequence < 0 || c.updatedAt == 0 { return false; }
      if c.epochs.security < 0 || c.epochs.tenantPolicy < 0 || c.epochs.tenantRevocation < 0 { return false; }
      var row := c;
      if key in checkpoints {
        var stored := checkpoints[key];
        if stored.sequence > c.sequence || stored.epochs.security > c.epochs.security { return false; }
        if stored.epochs.tenantPolicy > c.epochs.tenantPolicy || stored.epochs.tenantRevocation > c.epochs.tenantRevocation { return false; }
        if c.streamAt.None? { row := row.(streamAt := stored.streamAt); }
        if c.reconciledAt.None? { row := row.(reconciledAt := stored.reconciledAt); }
      }
      checkpoints := checkpoints[key := row];
      ok := true;
    }

    /** The delta above the cursor, or the snapshot if that cannot be had or is too long. */
    method ReadContent(tenant: nat, last: int, cutoff: int, second: seq<Entry>, out: Reconciliation) returns (r: Result<Reconciliation, Failure>)
      requires Valid() && Ordered(log + second) && last >= 0 && out.changes == [] && out.snapshot == []
      modifies `log
      ensures Valid() && log == old(log) + second
      ensures r.Err? <==> tenant == 0
      ensures r.Err? ==> r.error == InvalidQuery
      ensures r.Ok? ==> r.value.authoritative == out.authoritative && r.value.epochs == out.epochs
      ensures r.Ok? && r.value.mode == Delta ==> |r.value.changes| <= MaxDelta && !Gone(old(log), tenant, cutoff, last)
      ensures r.Ok? && r.value.mode == Delta && CommitOrdered(old(log), tenant) && (forall e :: e in second ==> e.committedAt >= cutoff) ==>
                r.value.changes == Select(log, tenant, last, None)
      ensures r.Ok? && r.value.mode == Snapshot ==>
                && r.value.snapshot == active && r.value.changes == []
                && (Gone(old(log), tenant, cutoff, last) || |Select(log, tenant, last, Some(cutoff))| > MaxDelta)
    {
      var changes := RevocationChanges(tenant, last, MaxDelta + 1, cutoff, second);
      if changes == Err(CursorGone) || (changes.Ok? && |changes.value| > MaxDelta) {
        r := Ok(out.(mode := Snapshot, snapshot := active));
      } else if changes.Err? {
        r := Err(changes.error);
      } else {
        r := Ok(out.(mode := Delta, changes := changes.value));
      }
    }

    /**
     Snapshot, then delta, then checkpoint. `first` and `second` are what other sessions append before
     and during the delta read. A delta is never cut short: it holds every visible entry above the cursor.
     */
    method Reconcile(tenant: nat, gateway: nat, last: int, held: Epochs, now: int, retention: int, first: seq<Entry>, second: seq<Entry>)
      returns (r: Result<Reconciliation, Failure>)
      requires Valid() && Ordered(log + first) && Ordered(log + first + second)
      modifies this
      ensures Valid() && security == old(security) && tenantEpochs == old(tenantEpochs) && active == old(active)
      ensures r.Ok? ==>
                && r.value.authoritative == Head(old(log), tenant) && r.value.epochs == EpochsOf(tenant)
                && last <= r.value.authoritative && AtMost(held, r.value.epochs)
                && (tenant, gateway) in checkpoints
                && checkpoints[(tenant, gateway)].sequence == r.value.authoritative && checkpoints[(tenant, gateway)].epochs == r.value.epochs
                && log == old(log) + first + second
      ensures r.Ok? && r.value.mode == Delta ==> |r.value.changes| <= MaxDelta && !Gone(old(log) + first, tenant, now - retention, last)
      ensures r.Ok? && r.value.mode == Delta && CommitOrdered(old(log) + first, tenant) &&
              (forall e :: e in second ==> e.committedAt >= now - retention) ==>
                r.value.changes == Select(log, tenant, last, None)
      ensures r.Ok? && r.value.mode == Snapshot ==> r.value.snapshot == active && r.value.changes == []
      ensures r.Ok? && r.value.mode == Snapshot ==>
                Gone(old(log) + first, tenant, now - retention, last) || |Select(log, tenant, last, Some(now - retention))| > MaxDelta
      ensures r.Err? ==> checkpoints == old(checkpoints)
      ensures tenant != 0 ==> (r == Err(InvalidQuery) <==> last < 0)
      ensures tenant != 0 ==> (r == Err(AheadOfAuthority) <==> last >= 0 && Ahead(held, last, Head(old(log), tenant), old(EpochsOf(tenant))))
      ensures tenant != 0 && gateway != 0 && r == Err(CheckpointConflict) ==>
                Save(StoredFor(old(checkpoints), tenant, gateway), Checkpoint(Head(old(log), tenant), old(EpochsOf(tenant)), None, Some(now), now)) == None
      ensures r.Ok? ==>
                Save(StoredFor(old(checkpoints), tenant, gateway), Checkpoint(r.value.authoritative, r.value.epochs, None, Some(now), now)) ==
                Some(checkpoints[(tenant, gateway)])
      ensures r.Err? ==> r.error in {InvalidQuery, AheadOfAuthority, CheckpointConflict}
    {
      if last < 0 { return Err(InvalidQuery); }
      var head := Head(log, tenant);
      var out := Reconciliation(Delta, head, EpochsOf(tenant), [], []);
      if last > head || !AtMost(held, out.epochs) { return Err(AheadOfAuthority); }
      log := log + first;
      var content := ReadContent(tenant, last, now - retention, second, out);
      if content.Err? { return content; }
      var saved := SaveGatewayCheckpoint(tenant, gateway, Checkpoint(head, out.epochs, None, Some(now), now));
      r := if saved then content else Err(CheckpointConflict);
    }
  }

  /** So a gateway that applies a complete delta holds every visible entry up to the authoritative sequence. */
  lemma DeltaReachesAuthority(log: seq<Entry>, more: seq<Entry>, tenant: nat, last: int, i: int)
    requires Ordered(log + more) && 0 <= i < |log| && Sees(tenant, log[i]) && last < log[i].sequence
    ensures log[i].sequence <= Head(log, tenant) && log[i] in Select(log + more, tenant, last, None)
  {
    assert Ordered(log) by { assert forall k :: 0 <= k < |log| ==> (log + more)[k] == log[k]; }
    HeadIsMax(log, tenant);
    assert (log + more)[i] == log[i];
    SelectIsComplete(log + more, tenant, last, i);
  }
}
