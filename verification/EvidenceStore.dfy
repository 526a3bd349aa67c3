/**
 The store and the exporter that drive the protocol. Other exporters act between any two of their
 statements: `Database.schedule` is the arbitrary list of what they do, and `trace` records the
 interleaving that resulted, so every property of runs holds of every use of this store.
 */
module EvidenceStore {
  import opened Base
  import opened EvidenceProtocol

  class Database {
    var world: World
    var schedule: seq<seq<Action>>
    ghost var trace: seq<Action>
    /** A generated identifier is new to whoever asks for it. */
    const newId: set<nat> -> nat

    ghost predicate Valid()
      reads this
    {
      world == Run(Init, trace) && forall used: set<nat> :: newId(used) !in used
    }

    constructor (newId: set<nat> -> nat, schedule: seq<seq<Action>>)
      requires forall used: set<nat> :: newId(used) !in used
      ensures Valid() && world == Init && trace == [] && this.schedule == schedule
    {
      this.newId := newId;
      this.schedule := schedule;
      world := Init;
      trace := [];
    }

    /** One of our own statements. */
    method Apply(a: Action)
      requires Valid()
      modifies this
      ensures Valid() && world == Step(old(world), a)
      ensures trace == old(trace) + [a] && schedule == old(schedule)
    {
      RunAppend(Init, trace, [a]);
      assert Run(world, [a]) == Run(Step(world, a), []);
      world := Step(world, a);
      trace := trace + [a];
    }

    /** Whatever the other exporters do before our next statement; `mine` are statements we have begun ourselves. */
    method Interfere(mine: set<nat>)
      requires Valid()
      modifies this
      ensures forall sink, stmt :: stmt in mine && stmt in ChannelOf(old(world), sink).inFlight ==>
                stmt in ChannelOf(world, sink).inFlight && ChannelOf(world, sink).inFlight[stmt] == ChannelOf(old(world), sink).inFlight[stmt]
      ensures Valid() && old(trace) <= trace && old(world.used) <= world.used
      ensures old(schedule) == [] ==> world == old(world) && schedule == []
      ensures forall sink :: ChannelOf(old(world), sink).handed <= ChannelOf(world, sink).handed
      ensures forall sink :: ChannelOf(old(world), sink).accepted <= ChannelOf(world, sink).accepted
    {
      if schedule != [] {
        var others := Foreign(schedule[0], mine);
        RunAppend(Init, trace, others);
        HistoryIsStable(world, others, "");
        forall sink
          ensures ChannelOf(world, sink).handed <= ChannelOf(Run(world, others), sink).handed
          ensures ChannelOf(world, sink).accepted <= ChannelOf(Run(world, others), sink).accepted
        {
          HistoryIsStable(world, others, sink);
        }
        forall sink, stmt | stmt in mine && stmt in ChannelOf(world, sink).inFlight
          ensures stmt in ChannelOf(Run(world, others), sink).inFlight
          ensures ChannelOf(Run(world, others), sink).inFlight[stmt] == ChannelOf(world, sink).inFlight[stmt]
        {
          assert forall i :: 0 <= i < |others| ==> !Touches(others[i], mine);
          StatementsArePrivate(world, others, sink, stmt);
        }
        world := Run(world, others);
        trace := trace + others;
        schedule := schedule[1..];
      }
    }
  }

  const PageSize: nat := 64

  /** The refill query: the oldest events without a receipt, in order, at most a page of them. */
  ghost predicate PendingPage(w: World, sink: string, ids: seq<EventId>) {
    var receipts := ChannelOf(w, sink).receipts;
    && |ids| <= PageSize
    && (forall i :: 0 <= i < |ids| ==> Eligible(w.outbox, receipts, ids[i]))
    && (forall i, j :: 0 <= i < j < |ids| ==> Before(w.outbox, ids[i], ids[j]))
    && (forall e :: Eligible(w.outbox, receipts, e) && e !in ids ==>
          |ids| == PageSize && forall i :: 0 <= i < |ids| ==> Before(w.outbox, ids[i], e))
  }

  lemma {:induction false} Earliest(outbox: map<EventId, Message>, todo: set<EventId>) returns (e: EventId)
    requires todo <= outbox.Keys && todo != {}
    ensures e in todo && forall f :: f in todo && f != e ==> Before(outbox, e, f)
    decreases |todo|
  {
    var x :| x in todo;
    var rest := todo - {x};
    if rest == {} {
      assert todo == {x};
      e := x;
    } else {
      var least := Earliest(outbox, rest);
      e := if Before(outbox, x, least) then x else least;
      forall f | f in todo && f != e ensures Before(outbox, e, f) {
        assert f in rest && f != least ==> Before(outbox, least, f);
      }
    }
  }

  /** The rows of the refill query, oldest first. */
  method OldestPending(w: World, sink: string) returns (ids: seq<EventId>)
    ensures PendingPage(w, sink, ids)
  {
    var outbox, receipts := w.outbox, ChannelOf(w, sink).receipts;
    var todo := set e | e in outbox && Eligible(outbox, receipts, e);
    ids := [];
    while todo != {} && |ids| < PageSize
      invariant |ids| <= PageSize
      invariant todo <= outbox.Keys
      invariant forall e :: e in todo ==> Eligible(outbox, receipts, e) && e !in ids
      invariant forall e :: Eligible(outbox, receipts, e) ==> e in todo || e in ids
      invariant forall i :: 0 <= i < |ids| ==> Eligible(outbox, receipts, ids[i])
      invariant forall i, j :: 0 <= i < j < |ids| ==> Before(outbox, ids[i], ids[j])
      invariant forall i, e :: 0 <= i < |ids| && e in todo ==> Before(outbox, ids[i], e)
      decreases |todo|
    {
      ghost var least := Earliest(outbox, todo);
      var e :| e in todo && forall f :: f in todo && f != e ==> Before(outbox, e, f);
      ids := ids + [e];
      todo := todo - {e};
    }
  }

  /** A claim is available: no live lease, and some event still lacks a receipt. */
  ghost predicate Claimable(w: World, sink: string, now: Time) {
    var c := ChannelOf(w, sink);
    && (c.row.Some? ==> LeaseFree(c.row.value.claim, now))
    && exists e :: Eligible(w.outbox, c.receipts, e)
  }

  /** No hint list finds a claim that is not there, and a fresh page finds any that is. */
  lemma HintsAreAdvisory(w: World, sink: string, hints: seq<EventId>, now: Time)
    requires Inv(w)
    ensures CandidateOf(w, sink, hints, now).Some? ==> Claimable(w, sink, now)
    ensures ChannelOf(w, sink).row.Some? && PendingPage(w, sink, hints) && Claimable(w, sink, now) ==>
              CandidateOf(w, sink, hints, now).Some?
  {
  }

  /** With no other exporter in between, the compare-and-set finds what the read saw. */
  lemma ReadThenCommit(w: World, sink: string, stmt: nat, hints: seq<EventId>, now: Time)
    requires CandidateOf(w, sink, hints, now).Some? && stmt !in ChannelOf(w, sink).inFlight
    ensures var w' := Step(w, ReadCandidate(sink, stmt, hints, now));
            && w'.outbox == w.outbox && w'.used == w.used
            && CasHolds(ChannelOf(w', sink), stmt)
            && ChannelOf(w', sink).inFlight[stmt] == CandidateOf(w, sink, hints, now).value
  {
  }

  lemma CommitGrantsOwnership(w: World, sink: string, stmt: nat, token: Token, lease: nat)
    requires Inv(w) && CasHolds(ChannelOf(w, sink), stmt) && token !in w.used
    ensures var claim := ClaimFor(sink, ChannelOf(w, sink), stmt, token);
            var w' := Step(w, CommitClaim(sink, stmt, token, lease));
            && claim.Some? && claim.value.token == token
            && claim.value.delivery.sink == sink
            && claim.value.delivery.event == ChannelOf(w, sink).inFlight[stmt].event
            && claim.value in ChannelOf(w', sink).handed
            && OwnsRow(ChannelOf(w', sink), claim.value)
            && ChannelOf(w', sink).row.value.claim.value.until == At(ChannelOf(w, sink).inFlight[stmt].now + lease)
            && w'.outbox == w.outbox && w.used <= w'.used && stmt !in ChannelOf(w', sink).inFlight
  {
  }

  function Without(ids: seq<EventId>, event: EventId): (rest: seq<EventId>)
    ensures event !in ids ==> rest == ids
    ensures event in ids ==> |rest| == |ids| - 1 && multiset(rest) == multiset(ids) - multiset{event}
  {
    if ids == [] then []
    else if ids[0] == event then
      assert ids == [event] + ids[1..];
      ids[1..]
    else
      assert ids == [ids[0]] + ids[1..];
      [ids[0]] + Without(ids[1..], event)
  }

  predicate Distinct(ids: seq<EventId>) {
    forall i, j :: 0 <= i < j < |ids| ==> ids[i] != ids[j]
  }

  lemma {:induction false} WithoutIsGone(ids: seq<EventId>, event: EventId)
    requires Distinct(ids)
    ensures event !in Without(ids, event) && Distinct(Without(ids, event))
    ensures forall e :: e in Without(ids, event) ==> e in ids
    decreases |ids|
  {
    if ids != [] {
      WithoutIsGone(ids[1..], event);
      assert ids[0] !in ids[1..];
    }
  }

  class EvidenceDeliveryStore {
    const db: Database
    const lease: nat
    var pendingSink: string
    var pendingIDs: seq<EventId>

    constructor (db: Database, lease: nat)
      ensures this.db == db && this.lease == lease && pendingSink == "" && pendingIDs == []
    {
      this.db := db;
      this.lease := lease;
      pendingSink, pendingIDs := "", [];
    }

    /** Creates the checkpoint row if it is missing, then reads a page of hints. */
    method RefillPending(sink: string) returns (ok: bool)
      requires db.Valid()
      modifies this`pendingIDs, db
      ensures db.Valid() && old(db.trace) <= db.trace && old(db.world.used) <= db.world.used
      ensures ok == ValidReference(sink, 256)
      ensures ok ==> PendingPage(db.world, sink, pendingIDs)
      ensures !ok ==> pendingIDs == old(pendingIDs)
      ensures old(db.schedule) == [] ==> db.world == Step(old(db.world), EnsureRow(sink)) && db.schedule == []
    {
      db.Interfere({});
      db.Apply(EnsureRow(sink));
      ok := ValidReference(sink, 256);
      if ok {
        db.Interfere({});
        pendingIDs := OldestPending(db.world, sink);
      }
    }

    /** The compare-and-set half of the claim statement, under a token of its own. */
    method CommitRead(sink: string, stmt: nat) returns (claim: Option<Claimed>)
      requires db.Valid() && stmt in ChannelOf(db.world, sink).inFlight
      modifies db
      ensures db.Valid() && old(db.trace) <= db.trace && old(db.world.used) <= db.world.used && db.schedule == old(db.schedule)
      ensures claim.Some? <==> CasHolds(ChannelOf(old(db.world), sink), stmt)
      ensures claim.Some? ==>
                && claim.value in ChannelOf(db.world, sink).handed && claim.value.delivery.sink == sink
                && claim.value.delivery.event == ChannelOf(old(db.world), sink).inFlight[stmt].event
                && OwnsRow(ChannelOf(db.world, sink), claim.value)
                && ChannelOf(db.world, sink).row.value.claim.value.until == At(ChannelOf(old(db.world), sink).inFlight[stmt].now + lease)
                && claim.value.token !in old(db.world.used)
    {
      claim := None;
      var token := db.newId(db.world.used);
      if CasHolds(ChannelOf(db.world, sink), stmt) {
        RunKeepsInv(Init, db.trace);
        CommitGrantsOwnership(db.world, sink, stmt, token, lease);
        claim := ClaimFor(sink, ChannelOf(db.world, sink), stmt, token);
      }
      db.Apply(CommitClaim(sink, stmt, token, lease));
    }

    /** The claim statement: the candidate read, then the compare-and-set on the row. */
    method ClaimCandidate(sink: string, now: Time) returns (claim: Option<Claimed>)
      requires db.Valid()
      modifies db
      ensures db.Valid() && old(db.trace) <= db.trace && old(db.world.used) <= db.world.used
      ensures claim.Some? ==>
                && claim.value in ChannelOf(db.world, sink).handed && claim.value.delivery.sink == sink
                && OwnsRow(ChannelOf(db.world, sink), claim.value)
                && ChannelOf(db.world, sink).row.value.claim.value.until == At(now + lease)
                && claim.value.token !in old(db.world.used)
      ensures old(db.schedule) == [] ==>
                && db.schedule == []
                && (claim.Some? <==> CandidateOf(old(db.world), sink, pendingIDs, now).Some?)
                && (claim.Some? ==> claim.value.delivery.event == CandidateOf(old(db.world), sink, pendingIDs, now).value.event)
                && (claim.None? ==> db.world == old(db.world))
    {
      claim := None;
      db.Interfere({});
      if CandidateOf(db.world, sink, pendingIDs, now).Some? {
        var stmt := db.newId(ChannelOf(db.world, sink).inFlight.Keys);
        ReadThenCommit(db.world, sink, stmt, pendingIDs, now);
        db.Apply(ReadCandidate(sink, stmt, pendingIDs, now));
        db.Interfere({stmt});
        claim := CommitRead(sink, stmt);
      }
    }

    /** One pass of the claim loop: refill if there are no hints, then try them. */
    method Attempt(sink: string, now: Time) returns (ok: bool, next: Option<Claimed>)
      requires db.Valid()
      modifies this`pendingIDs, db
      ensures db.Valid() && old(db.trace) <= db.trace && old(db.world.used) <= db.world.used
      ensures !ok ==> !ValidReference(sink, 256) && next == None
      ensures next.Some? ==>
                && next.value in ChannelOf(db.world, sink).handed && next.value.delivery.sink == sink
                && OwnsRow(ChannelOf(db.world, sink), next.value)
                && ChannelOf(db.world, sink).row.value.claim.value.until == At(now + lease)
                && next.value.token !in old(db.world.used)
      ensures Distinct(old(pendingIDs)) ==> Distinct(pendingIDs)
      ensures !ValidReference(sink, 256) && old(pendingIDs) == [] ==> !ok
      ensures old(db.schedule) == [] && ok ==> db.schedule == []
      ensures old(db.schedule) == [] && ok && next.Some? ==> Claimable(old(db.world), sink, now)
      ensures old(db.schedule) == [] && ok && next.None? ==>
                && (old(pendingIDs) == [] || pendingIDs == [] ==> !Claimable(old(db.world), sink, now))
                && (Claimable(db.world, sink, now) <==> Claimable(old(db.world), sink, now))
    {
      ghost var w0 := db.world;
      RunKeepsInv(Init, db.trace);
      EnsureRowKeepsClaimable(w0, sink, now);
      ok, next := true, None;
      ghost var refill := pendingIDs == [];
      if pendingIDs == [] {
        ok := RefillPending(sink);
      }
      if ok {
        ghost var w1 := db.world;
        RunKeepsInv(Init, db.trace);
        HintsAreAdvisory(w1, sink, pendingIDs, now);
        next := ClaimCandidate(sink, now);
      }
    }

    /** Serves a claim from the hints, refilling them at most once more before giving up. */
    method Claim(sink: string, now: Time) returns (claim: Result<Option<Claimed>, string>)
      requires db.Valid()
      modifies this, db
      ensures db.Valid() && old(db.trace) <= db.trace && pendingSink == sink
      ensures claim.Ok? && claim.value.Some? ==>
                && claim.value.value in ChannelOf(db.world, sink).handed
                && claim.value.value.delivery.sink == sink
                && OwnsRow(ChannelOf(db.world, sink), claim.value.value)
                && ChannelOf(db.world, sink).row.value.claim.value.until == At(now + lease)
                && claim.value.value.token !in old(db.world.used)
      ensures Distinct(old(pendingIDs)) ==> Distinct(pendingIDs)
      ensures claim.Ok? && claim.value.Some? && Distinct(old(pendingIDs)) ==> claim.value.value.delivery.event !in pendingIDs
      ensures claim.Err? ==> !ValidReference(sink, 256)
      ensures !ValidReference(sink, 256) && (old(pendingSink) != sink || old(pendingIDs) == []) ==> claim.Err?
      ensures old(db.schedule) == [] && claim.Ok? ==> (claim.value.Some? <==> Claimable(old(db.world), sink, now)) && db.schedule == []
    {
      if pendingSink != sink {
        pendingSink, pendingIDs := sink, [];
      }
      var attempt := 0;
      while attempt < 2
        invariant 0 <= attempt <= 2
        invariant db.Valid() && old(db.trace) <= db.trace && pendingSink == sink
        invariant old(db.world.used) <= db.world.used
        invariant attempt > 0 ==> pendingIDs == []
        invariant Distinct(old(pendingIDs)) ==> Distinct(pendingIDs)
        invariant !ValidReference(sink, 256) && (old(pendingSink) != sink || old(pendingIDs) == []) ==> pendingIDs == [] && attempt < 2
        invariant old(db.schedule) == [] ==> db.schedule == []
        invariant old(db.schedule) == [] ==> (Claimable(db.world, sink, now) <==> Claimable(old(db.world), sink, now))
        invariant old(db.schedule) == [] && attempt == 2 ==> !Claimable(old(db.world), sink, now)
      {
        var ok, next := Attempt(sink, now);
        if !ok { return Err("initialize evidence checkpoint"); }
        if next.Some? {
          if Distinct(pendingIDs) { WithoutIsGone(pendingIDs, next.value.delivery.event); }
          pendingIDs := Without(pendingIDs, next.value.delivery.event);
          return Ok(next);
        }
        if pendingIDs == [] {
          return Ok(None);
        }
        pendingIDs := [];
        attempt := attempt + 1;
      }
      claim := Ok(None);
    }

    /** Commits a receipt; a caller presents a claim it was handed and the sink has acknowledged. */
    method Complete(k: Claimed, receipt: Receipt) returns (ok: bool)
      requires db.Valid()
      requires k in ChannelOf(db.world, k.delivery.sink).handed && k.delivery in ChannelOf(db.world, k.delivery.sink).accepted
      modifies db
      ensures db.Valid() && old(db.trace) <= db.trace
      ensures ok ==> var c := ChannelOf(db.world, k.delivery.sink);
                     && c.row == Some(Checkpoint(k.delivery.sequence, Some(k.delivery.hash), None))
                     && |c.receipts| == k.delivery.sequence > 0
                     && c.receipts[k.delivery.sequence - 1] ==
                        ReceiptRow(k.delivery.event, k.delivery.sequence, k.delivery.previous, k.delivery.hash)
      ensures old(db.schedule) == [] ==> ok == CompleteSucceeds(old(db.world), k, receipt)
      ensures old(db.schedule) == [] && !ok ==> db.world == old(db.world)
    {
      db.Interfere({});
      ok := CompleteSucceeds(db.world, k, receipt);
      RunKeepsInv(Init, db.trace);
      ghost var c := ChannelOf(db.world, k.delivery.sink);
      assert ChannelInv(db.world, k.delivery.sink, c);
      db.Apply(EvidenceProtocol.Complete(k, receipt));
    }

    /** Gives up ownership but keeps the pending event for whoever claims next. */
    method Release(k: Claimed) returns (ok: bool)
      requires db.Valid()
      requires k in ChannelOf(db.world, k.delivery.sink).handed
      modifies db
      ensures db.Valid() && old(db.trace) <= db.trace
      ensures ok ==> var c := ChannelOf(db.world, k.delivery.sink);
                     && c.row.Some? && c.row.value.claim.Some?
                     && c.row.value.claim.value.event == k.delivery.event
                     && c.row.value.claim.value.until == NegInfinity
                     && !Holds(db.world, k.delivery.sink, k.token)
    {
      db.Interfere({});
      ok := OwnsRow(ChannelOf(db.world, k.delivery.sink), k);
      var token := db.newId(db.world.used);
      RunKeepsInv(Init, db.trace);
      assert ChannelInv(db.world, k.delivery.sink, ChannelOf(db.world, k.delivery.sink));
      db.Apply(EvidenceProtocol.Release(k, token));
    }

    method SendToSink(k: Claimed)
      requires db.Valid() && k in ChannelOf(db.world, k.delivery.sink).handed
      modifies db
      ensures db.Valid() && old(db.trace) <= db.trace
      ensures k in ChannelOf(db.world, k.delivery.sink).handed && k.delivery in ChannelOf(db.world, k.delivery.sink).accepted
    {
      RunKeepsInv(Init, db.trace);
      DeliveredIsAccepted(db.world, k);
      db.Apply(Deliver(k));
    }

    /** Delivers the claim, then settles it with the sink's answer or gives it up. */
    method Finish(k: Claimed, reached: bool, answer: Option<Receipt>) returns (ok: bool)
      requires db.Valid() && k in ChannelOf(db.world, k.delivery.sink).handed
      requires answer.Some? ==> reached
      modifies db
      ensures db.Valid() && old(db.trace) <= db.trace
      ensures ok ==>
                && answer.Some?
                && var c := ChannelOf(db.world, k.delivery.sink);
                && c.row.Some? && c.row.value.claim == None && c.receipts != []
                && c.row.value.lastHash == Some(answer.value.hash)
                && c.receipts[|c.receipts| - 1].event == answer.value.event
    {
      if reached { SendToSink(k); }
      if answer.None? || !ValidReceiptFor(answer.value, k.delivery) {
        var released := Release(k);
        return false;
      }
      ok := Complete(k, answer.value);
    }

    /**
     Exports at most one event. The sink's answer may be lost although it accepted the delivery:
     `reached` says whether the delivery arrived, `answer` what came back.
     */
    method ExportOne(sink: string, now: Time, reached: bool, answer: Option<Receipt>) returns (progressed: bool, failed: bool)
      requires db.Valid()
      requires answer.Some? ==> reached
      modifies this, db
      ensures db.Valid() && old(db.trace) <= db.trace
      ensures !ValidReference(sink, 256) && (old(pendingSink) != sink || old(pendingIDs) == []) ==> !progressed && failed
      ensures ValidReference(sink, 256) && !progressed ==> !failed
      ensures ValidReference(sink, 256) && old(db.schedule) == [] ==> (progressed <==> Claimable(old(db.world), sink, now))
      ensures progressed && !failed ==>
                && answer.Some?
                && var c := ChannelOf(db.world, sink);
                && c.row.Some? && c.row.value.claim == None && c.receipts != []
                && c.row.value.lastHash == Some(answer.value.hash)
                && c.receipts[|c.receipts| - 1].event == answer.value.event
    {
      var claim := Claim(sink, now);
      if claim.Err? { return false, true; }
      if claim.value.None? { return false, false; }
      var ok := Finish(claim.value.value, reached, answer);
      return true, !ok;
    }
  }

  lemma EnsureRowKeepsClaimable(w: World, sink: string, now: Time)
    ensures Claimable(Step(w, EnsureRow(sink)), sink, now) <==> Claimable(w, sink, now)
    ensures ValidReference(sink, 256) ==> ChannelOf(Step(w, EnsureRow(sink)), sink).row.Some?
  {
  }

  /** After a delivery arrives, first or repeated, the sink holds exactly that delivery. */
  lemma DeliveredIsAccepted(w: World, k: Claimed)
    requires Inv(w) && k in ChannelOf(w, k.delivery.sink).handed
    ensures var c := ChannelOf(Step(w, Deliver(k)), k.delivery.sink); k in c.handed && k.delivery in c.accepted
  {
  }

  /** A pending event is offered at some time: when nothing is claimed, or once its own claim's lease has run out. */
  lemma PendingIsOffered(w: World, sink: string, event: EventId) returns (now: Time)
    requires ChannelOf(w, sink).row.Some? && Eligible(w.outbox, ChannelOf(w, sink).receipts, event)
    requires var claim := ChannelOf(w, sink).row.value.claim; claim.Some? ==> claim.value.event == event
    ensures CandidateOf(w, sink, [event], now).Some? && CandidateOf(w, sink, [event], now).value.event == event
  {
    var claim := ChannelOf(w, sink).row.value.claim;
    now := if claim.Some? && claim.value.until.At? then claim.value.until.time else 0;
    assert event in [event];
  }

  /** Reading and claiming a pending event at that time makes the exporter its owner. */
  lemma ClaimCanProceed(w: World, sink: string, event: EventId, stmt: nat, token: Token, lease: nat, now: Time, read: World, claimed: World)
    returns (k: Claimed)
    requires Inv(w) && stmt !in ChannelOf(w, sink).inFlight && token !in w.used
    requires CandidateOf(w, sink, [event], now).Some? && CandidateOf(w, sink, [event], now).value.event == event
    requires read == Step(w, ReadCandidate(sink, stmt, [event], now)) && claimed == Step(read, CommitClaim(sink, stmt, token, lease))
    ensures Inv(claimed) && k.delivery.sink == sink && k.delivery.event == event && k in ChannelOf(claimed, sink).handed
    ensures OwnsRow(ChannelOf(claimed, sink), k)
    ensures ChannelOf(claimed, sink).receipts == ChannelOf(w, sink).receipts && claimed.outbox == w.outbox
  {
    ReadThenCommit(w, sink, stmt, [event], now);
    StepKeepsInv(w, ReadCandidate(sink, stmt, [event], now));
    CommitGrantsOwnership(read, sink, stmt, token, lease);
    StepKeepsInv(read, CommitClaim(sink, stmt, token, lease));
    k := ClaimFor(sink, ChannelOf(read, sink), stmt, token).value;
  }

  /** Delivering changes nothing but what the sink holds. */
  lemma DeliveryKeepsOwner(w: World, k: Claimed, delivered: World)
    requires Inv(w) && k in ChannelOf(w, k.delivery.sink).handed && delivered == Step(w, Deliver(k))
    ensures var c := ChannelOf(w, k.delivery.sink);
            ChannelOf(delivered, k.delivery.sink) == c.(accepted := ChannelOf(delivered, k.delivery.sink).accepted)
    ensures k.delivery in ChannelOf(delivered, k.delivery.sink).accepted && delivered.outbox == w.outbox
  {
    DeliveredIsAccepted(w, k);
  }

  /** Read, claim and deliver, starting from a pending event: the sink holds the delivery and the exporter owns the row. */
  lemma DeliveryCanProceed(w: World, sink: string, event: EventId, stmt: nat, token: Token)
    returns (actions: seq<Action>, k: Claimed)
    requires Inv(w) && ChannelOf(w, sink).row.Some? && stmt !in ChannelOf(w, sink).inFlight && token !in w.used
    requires Eligible(w.outbox, ChannelOf(w, sink).receipts, event)
    requires var claim := ChannelOf(w, sink).row.value.claim; claim.Some? ==> claim.value.event == event
    ensures k.delivery.sink == sink && k.delivery.event == event
    ensures k in ChannelOf(Run(w, actions), sink).handed && k.delivery in ChannelOf(Run(w, actions), sink).accepted
    ensures OwnsRow(ChannelOf(Run(w, actions), sink), k)
    ensures ChannelOf(Run(w, actions), sink).receipts == ChannelOf(w, sink).receipts && Run(w, actions).outbox == w.outbox
  {
    var now := PendingIsOffered(w, sink, event);
    var read, commit := ReadCandidate(sink, stmt, [event], now), CommitClaim(sink, stmt, token, 1);
    var w1 := Step(w, read);
    var w2 := Step(w1, commit);
    k := ClaimCanProceed(w, sink, event, stmt, token, 1, now, w1, w2);
    DeliveryKeepsOwner(w2, k, Step(w2, Deliver(k)));
    actions := [read, commit, Deliver(k)];
    RunThree(w, read, commit, Deliver(k));
  }

  lemma RunThree(w: World, a: Action, b: Action, c: Action)
    ensures Run(w, [a, b, c]) == Step(Step(Step(w, a), b), c)
  {
    assert [a, b, c][1..] == [b, c] && [b, c][1..] == [c] && [c][1..] == [];
    assert Run(w, [a, b, c]) == Run(Step(w, a), [b, c]) == Run(Step(Step(w, a), b), [c]);
    assert Run(Step(Step(w, a), b), [c]) == Run(Step(Step(Step(w, a), b), c), []);
  }

  /**
   The protocol cannot get stuck: from every reachable state, crashes and lost answers included, a pending
   event that no other one is claimed ahead of can still be exported, and becomes the next receipt.
   */
  lemma ExportCanProceed(before: seq<Action>, sink: string, event: EventId, stmt: nat, token: Token, w: World)
    returns (actions: seq<Action>)
    requires w == Run(Init, before) && ChannelOf(w, sink).row.Some? && stmt !in ChannelOf(w, sink).inFlight && token !in w.used
    requires Eligible(w.outbox, ChannelOf(w, sink).receipts, event)
    requires var claim := ChannelOf(w, sink).row.value.claim; claim.Some? ==> claim.value.event == event
    ensures var receipts, more := ChannelOf(w, sink).receipts, ChannelOf(Run(w, actions), sink).receipts;
            receipts < more && |more| == |receipts| + 1 && more[|receipts|].event == event
  {
    RunKeepsInv(Init, before);
    var steps, k := DeliveryCanProceed(w, sink, event, stmt, token);
    var d := k.delivery;
    var receipt := Receipt(DeliveryVersion, d.sink, d.sequence, d.event, d.hash, "receipt", Some(d.hash), Some(w.outbox[event].occurredAt));
    RunAppend(Init, before, steps);
    var w3 := Run(w, steps);
    OwnerCompletesIff(before + steps, k, receipt, w3);
    actions := steps + [Complete(k, receipt)];
    RunAppend(w, steps, [Complete(k, receipt)]);
    assert Run(w, actions) == Step(w3, Complete(k, receipt));
  }

  /** In particular every newly published event, by every sink that has nothing claimed. */
  lemma PublishedIsExportable(before: seq<Action>, sink: string, event: EventId, message: Message, stmt: nat, token: Token, w: World)
    returns (actions: seq<Action>)
    requires w == Run(Init, before) && event !in w.outbox && stmt !in ChannelOf(w, sink).inFlight && token !in w.used
    requires ChannelOf(w, sink).row.Some? && ChannelOf(w, sink).row.value.claim.None?
    ensures var receipts, more := ChannelOf(w, sink).receipts, ChannelOf(Run(Step(w, Publish(event, message)), actions), sink).receipts;
            receipts < more && |more| == |receipts| + 1 && more[|receipts|].event == event
  {
    RunKeepsInv(Init, before);
    RunAppend(Init, before, [Publish(event, message)]);
    var published := Step(w, Publish(event, message));
    assert Run(w, [Publish(event, message)]) == published;
    var receipts := ChannelOf(w, sink).receipts;
    forall i | 0 <= i < |receipts| ensures receipts[i].event != event {
      assert LinkAt(sink, w.outbox, receipts, i);
    }
    actions := ExportCanProceed(before + [Publish(event, message)], sink, event, stmt, token, published);
  }

  /** End to end: while one store's claim is running, another store on the same database is told there is nothing to do. */
  method ClaimDuringLease(first: EvidenceDeliveryStore, second: EvidenceDeliveryStore, sink: string, now: Time, later: Time)
    returns (held: Result<Option<Claimed>, string>, refused: Result<Option<Claimed>, string>)
    requires first != second && first.db == second.db && first.db.Valid() && first.db.schedule == []
    requires later < now + first.lease
    modifies first, second, first.db
    ensures held.Ok? && held.value.Some? ==> refused == Ok(None)
  {
    held := first.Claim(sink, now);
    RunKeepsInv(Init, first.db.trace);
    assert held.Ok? && held.value.Some? ==> ValidReference(sink, 256) by {
      if held.Ok? && held.value.Some? { assert ChannelInv(first.db.world, sink, ChannelOf(first.db.world, sink)); }
    }
    refused := second.Claim(sink, later);
  }
}
