/**
 The delivery of evidence to one or more independent sinks: any number of exporters share, per
 sink, one checkpoint row and one append-only receipt table. Every SQL statement is an atomic
 action, except the claim statement, which is split into the snapshot read of its candidate and
 the compare-and-set that follows: other exporters may act between the two.
 */
module EvidenceProtocol {
  import opened Base

  type EventId = nat
  type Token = nat
  type Time = int

  const DeliveryVersion: string := "thinkpixelag.evidence-delivery/v1"

  datatype Message = Message(occurredAt: Time, payload: string)

  /** SHA-256 over the canonical encoding, as an injective constructor of the encoded fields. */
  datatype Hash = Digest(version: string, sink: string, sequence: nat, event: EventId,
                         previous: Option<Hash>, payload: string)

  datatype Delivery = Delivery(version: string, sink: string, sequence: nat, event: EventId,
                               previous: Option<Hash>, hash: Hash, payload: string)

  /** `checkpoint` is None when the text is not a digest, `acceptedAt` when it is zero or not UTC. */
  datatype Receipt = Receipt(version: string, sink: string, sequence: nat, event: EventId, hash: Hash,
                             receiptId: string, checkpoint: Option<Hash>, acceptedAt: Option<Time>)

  datatype Claimed = Claimed(delivery: Delivery, token: Token)

  datatype Until = NegInfinity | At(time: Time)

  /** claim_token, claimed_event_id and claimed_until are all NULL or all set. */
  datatype Claim = Claim(token: Token, event: EventId, until: Until)

  datatype Checkpoint = Checkpoint(lastSequence: nat, lastHash: Option<Hash>, claim: Option<Claim>)

  datatype ReceiptRow = ReceiptRow(event: EventId, sequence: nat, previous: Option<Hash>, hash: Hash)

  /** What the candidate subquery of a claim statement saw. */
  datatype Candidate = Candidate(event: EventId, payload: string, lastSequence: nat,
                                 claim: Option<Claim>, now: Time)

  /**
   One sink: its checkpoint row and receipts, the candidates read by claim statements that have not
   yet written, every claim ever handed to an exporter, and what the sink itself has accepted.
   */
  datatype Channel = Channel(row: Option<Checkpoint>, receipts: seq<ReceiptRow>,
                             inFlight: map<nat, Candidate>, handed: set<Claimed>, accepted: seq<Delivery>)

  datatype World = World(outbox: map<EventId, Message>, published: set<EventId>, used: set<Token>,
                         channels: map<string, Channel>)

  const EmptyChannel := Channel(None, [], map[], {}, [])
  const Init := World(map[], {}, {}, map[])

  function ChannelOf(w: World, sink: string): Channel {
    if sink in w.channels then w.channels[sink] else EmptyChannel
  }

  // ---- Deliveries and receipts -----------------------------------------------------------------

  predicate ValidReference(s: string, max: nat) {
    0 < |s| <= max
  }

  function NewDelivery(sink: string, sequence: nat, previous: Option<Hash>, event: EventId, payload: string)
    : (d: Option<Delivery>)
  {
    if !ValidReference(sink, 256) || sequence == 0 || (sequence == 1) != previous.None? then None
    else Some(Delivery(DeliveryVersion, sink, sequence, event, previous,
                       Digest(DeliveryVersion, sink, sequence, event, previous, payload), payload))
  }

  predicate ValidDelivery(d: Delivery) {
    var rebuilt := NewDelivery(d.sink, d.sequence, d.previous, d.event, d.payload);
    rebuilt.Some? && rebuilt.value.version == d.version && rebuilt.value.hash == d.hash
  }

  predicate ValidReceiptFor(r: Receipt, d: Delivery) {
    && ValidDelivery(d)
    && r.version == DeliveryVersion && r.sink == d.sink && r.sequence == d.sequence
    && r.event == d.event && r.hash == d.hash
    && ValidReference(r.receiptId, 512) && r.checkpoint.Some? && r.acceptedAt.Some?
  }

  /** A valid receipt pins down the whole delivery it was issued for, predecessor included. */
  lemma ReceiptBindsDelivery(r: Receipt, d: Delivery, other: Delivery)
    requires ValidReceiptFor(r, d) && ValidReceiptFor(r, other)
    ensures d == other
  {
  }

  // ---- Candidate selection ---------------------------------------------------------------------

  predicate HasReceipt(receipts: seq<ReceiptRow>, event: EventId) {
    exists i :: 0 <= i < |receipts| && receipts[i].event == event
  }

  predicate Eligible(outbox: map<EventId, Message>, receipts: seq<ReceiptRow>, event: EventId) {
    event in outbox && !HasReceipt(receipts, event)
  }

  /** ORDER BY occurred_at, id. */
  predicate Before(outbox: map<EventId, Message>, a: EventId, b: EventId)
    requires a in outbox && b in outbox
  {
    outbox[a].occurredAt < outbox[b].occurredAt || (outbox[a].occurredAt == outbox[b].occurredAt && a < b)
  }

  /** The first eligible event among the hints, whatever the hints are. */
  function Pick(outbox: map<EventId, Message>, receipts: seq<ReceiptRow>, hints: seq<EventId>): (p: Option<EventId>)
    ensures p.Some? ==> p.value in hints && Eligible(outbox, receipts, p.value)
    ensures p.Some? ==> forall h :: h in hints && Eligible(outbox, receipts, h) ==> !Before(outbox, h, p.value)
    ensures p.None? ==> forall h :: h in hints ==> !Eligible(outbox, receipts, h)
  {
    if hints == [] then None
    else
      var rest := Pick(outbox, receipts, hints[1..]);
      assert forall h :: h in hints ==> h == hints[0] || h in hints[1..];
      if !Eligible(outbox, receipts, hints[0]) then rest
      else if rest.None? || Before(outbox, hints[0], rest.value) then Some(hints[0])
      else rest
  }

  predicate LeaseFree(claim: Option<Claim>, now: Time) {
    claim.None? || claim.value.until.NegInfinity? || claim.value.until.time <= now
  }

  /** The candidate subquery: a retained event excludes every hint. */
  function CandidateOf(w: World, sink: string, hints: seq<EventId>, now: Time): Option<Candidate> {
    var c := ChannelOf(w, sink);
    if c.row.None? || !LeaseFree(c.row.value.claim, now) then None
    else
      var claim := c.row.value.claim;
      var choice := Pick(w.outbox, c.receipts, if claim.Some? then [claim.value.event] else hints);
      if choice.None? then None
      else Some(Candidate(choice.value, w.outbox[choice.value].payload, c.row.value.lastSequence, claim, now))
  }

  // ---- Actions ---------------------------------------------------------------------------------

  datatype Action =
    | Publish(event: EventId, message: Message)
    | EnsureRow(sink: string)
    | ReadCandidate(sink: string, stmt: nat, hints: seq<EventId>, now: Time)
    | CommitClaim(sink: string, stmt: nat, token: Token, lease: nat)
    | Deliver(claimed: Claimed)
    | Complete(claimed: Claimed, receipt: Receipt)
    | Release(claimed: Claimed, token: Token)

  function SinkOf(a: Action): Option<string> {
    match a
    case Publish(_, _) => None
    case EnsureRow(s) => Some(s)
    case ReadCandidate(s, _, _, _) => Some(s)
    case CommitClaim(s, _, _, _) => Some(s)
    case Deliver(c) => Some(c.delivery.sink)
    case Complete(c, _) => Some(c.delivery.sink)
    case Release(c, _) => Some(c.delivery.sink)
  }

  /** The compare-and-set of the claim statement finds the row as the candidate read saw it. */
  predicate CasHolds(c: Channel, stmt: nat) {
    && stmt in c.inFlight && c.row.Some?
    && c.row.value.lastSequence == c.inFlight[stmt].lastSequence
    && c.row.value.claim == c.inFlight[stmt].claim
  }

  function ClaimFor(sink: string, c: Channel, stmt: nat, token: Token): Option<Claimed>
    requires CasHolds(c, stmt)
  {
    var r := c.inFlight[stmt];
    var d := NewDelivery(sink, c.row.value.lastSequence + 1, c.row.value.lastHash, r.event, r.payload);
    if d.None? then None else Some(Claimed(d.value, token))
  }

  function StepCommit(sink: string, c: Channel, stmt: nat, token: Token, lease: nat): Channel
    requires stmt in c.inFlight
  {
    var rest := c.(inFlight := c.inFlight - {stmt});
    if !CasHolds(c, stmt) then rest
    else
      var r := c.inFlight[stmt];
      var claimed := ClaimFor(sink, c, stmt, token);
      rest.(row := Some(c.row.value.(claim := Some(Claim(token, r.event, At(r.now + lease))))),
            handed := c.handed + (if claimed.Some? then {claimed.value} else {}))
  }

  /** A sink that deduplicates by event ID; it answers a repeat with the receipt it already issued. */
  function StepDeliver(c: Channel, d: Delivery): Channel {
    if exists i :: 0 <= i < |c.accepted| && c.accepted[i].event == d.event then c
    else c.(accepted := c.accepted + [d])
  }

  predicate OwnsRow(c: Channel, claimed: Claimed) {
    && c.row.Some? && c.row.value.claim.Some?
    && c.row.value.claim.value.token == claimed.token
    && c.row.value.claim.value.event == claimed.delivery.event
  }

  /** The receipt insert, the publication mark and the checkpoint update commit together or not at all. */
  predicate CompleteSucceeds(w: World, claimed: Claimed, receipt: Receipt) {
    var d := claimed.delivery;
    var c := ChannelOf(w, d.sink);
    && ValidReceiptFor(receipt, d)
    && OwnsRow(c, claimed)
    && c.row.value.lastSequence + 1 == d.sequence
    && !HasReceipt(c.receipts, d.event)
    && (forall i :: 0 <= i < |c.receipts| ==> c.receipts[i].sequence != d.sequence)
    && (d.event in w.published || (d.event in w.outbox && w.outbox[d.event].occurredAt <= receipt.acceptedAt.value))
  }

  function StepComplete(c: Channel, d: Delivery): Channel {
    c.(row := Some(Checkpoint(d.sequence, Some(d.hash), None)),
       receipts := c.receipts + [ReceiptRow(d.event, d.sequence, d.previous, d.hash)])
  }

  function StepRelease(c: Channel, token: Token): Channel
    requires c.row.Some? && c.row.value.claim.Some?
  {
    c.(row := Some(c.row.value.(claim := Some(c.row.value.claim.value.(token := token, until := NegInfinity)))))
  }

  /**
   Exporters only present claims they were handed, complete only what the sink acknowledged, and draw
   fresh tokens; they may do so at any time and any number of times, so a crash is an exporter that
   never acts again and a stale owner is one that acts late.
   */
  predicate Enabled(w: World, a: Action) {
    match a
    case Publish(e, _) => e !in w.outbox
    case EnsureRow(s) => ValidReference(s, 256)
    case ReadCandidate(s, stmt, hints, now) =>
      stmt !in ChannelOf(w, s).inFlight && CandidateOf(w, s, hints, now).Some?
    case CommitClaim(s, stmt, token, _) => stmt in ChannelOf(w, s).inFlight && token !in w.used
    case Deliver(c) => c in ChannelOf(w, c.delivery.sink).handed
    case Complete(c, receipt) =>
      c in ChannelOf(w, c.delivery.sink).handed && c.delivery in ChannelOf(w, c.delivery.sink).accepted &&
      CompleteSucceeds(w, c, receipt)
    case Release(c, token) =>
      c in ChannelOf(w, c.delivery.sink).handed && token !in w.used && OwnsRow(ChannelOf(w, c.delivery.sink), c)
  }

  function StepChannel(w: World, a: Action): Channel
    requires Enabled(w, a) && !a.Publish?
  {
    var c := ChannelOf(w, SinkOf(a).value);
    match a
    case EnsureRow(_) => if c.row.Some? then c else c.(row := Some(Checkpoint(0, None, None)))
    case ReadCandidate(s, stmt, hints, now) => c.(inFlight := c.inFlight[stmt := CandidateOf(w, s, hints, now).value])
    case CommitClaim(s, stmt, token, lease) => StepCommit(s, c, stmt, token, lease)
    case Deliver(k) => StepDeliver(c, k.delivery)
    case Complete(k, _) => StepComplete(c, k.delivery)
    case Release(_, token) => StepRelease(c, token)
  }

  function Step(w: World, a: Action): World {
    if !Enabled(w, a) then w
    else if a.Publish? then w.(outbox := w.outbox[a.event := a.message])
    else
      w.(channels := w.channels[SinkOf(a).value := StepChannel(w, a)],
         published := w.published + (if a.Complete? then {a.claimed.delivery.event} else {}),
         used := w.used + (if a.CommitClaim? || a.Release? then {a.token} else {}))
  }

  function Run(w: World, actions: seq<Action>): World
    decreases |actions|
  {
    if actions == [] then w else Run(Step(w, actions[0]), actions[1..])
  }

  lemma {:induction false} RunAppend(w: World, xs: seq<Action>, ys: seq<Action>)
    ensures Run(w, xs + ys) == Run(Run(w, xs), ys)
    decreases |xs|
  {
    if xs == [] {
      assert xs + ys == ys;
    } else {
      assert (xs + ys)[1..] == xs[1..] + ys;
      RunAppend(Step(w, xs[0]), xs[1..], ys);
    }
  }

  // ---- The invariant ---------------------------------------------------------------------------

  function HashBefore(receipts: seq<ReceiptRow>, i: nat): Option<Hash>
    requires i <= |receipts|
  {
    if i == 0 then None else Some(receipts[i - 1].hash)
  }

  function DeliveryOf(sink: string, outbox: map<EventId, Message>, sequence: nat, previous: Option<Hash>, event: EventId)
    : Delivery
    requires event in outbox
  {
    var payload := outbox[event].payload;
    Delivery(DeliveryVersion, sink, sequence, event, previous,
             Digest(DeliveryVersion, sink, sequence, event, previous, payload), payload)
  }

  /** The only delivery that can exist for a sequence number: receipted, or the retained pending event. */
  function Expected(sink: string, outbox: map<EventId, Message>, c: Channel, n: nat): Option<Delivery> {
    if 1 <= n <= |c.receipts| && c.receipts[n - 1].event in outbox then
      Some(DeliveryOf(sink, outbox, n, HashBefore(c.receipts, n - 1), c.receipts[n - 1].event))
    else if n == |c.receipts| + 1 && c.row.Some? && c.row.value.claim.Some? && c.row.value.claim.value.event in outbox then
      Some(DeliveryOf(sink, outbox, n, HashBefore(c.receipts, |c.receipts|), c.row.value.claim.value.event))
    else None
  }

  predicate LinkAt(sink: string, outbox: map<EventId, Message>, receipts: seq<ReceiptRow>, i: nat)
    requires i < |receipts|
  {
    && receipts[i].event in outbox
    && receipts[i].sequence == i + 1
    && receipts[i].previous == HashBefore(receipts, i)
    && receipts[i].hash == DeliveryOf(sink, outbox, i + 1, HashBefore(receipts, i), receipts[i].event).hash
  }

  /** Receipts are sequences 1..n of distinct events, each carrying its predecessor's hash. */
  ghost predicate Chained(sink: string, outbox: map<EventId, Message>, receipts: seq<ReceiptRow>) {
    && (forall i: nat {:trigger LinkAt(sink, outbox, receipts, i)} :: i < |receipts| ==> LinkAt(sink, outbox, receipts, i))
    && (forall i, j :: 0 <= i < j < |receipts| ==> receipts[i].event != receipts[j].event)
  }

  ghost predicate RowInv(w: World, c: Channel) {
    && (c.row.None? ==> c.receipts == [])
    && (c.row.Some? ==>
          && c.row.value.lastSequence == |c.receipts|
          && c.row.value.lastHash == HashBefore(c.receipts, |c.receipts|)
          && (c.row.value.claim.Some? ==>
                && c.row.value.claim.value.token in w.used
                && Eligible(w.outbox, c.receipts, c.row.value.claim.value.event)))
  }

  ghost predicate ReadInv(w: World, c: Channel, r: Candidate) {
    && r.event in w.outbox && r.payload == w.outbox[r.event].payload
    && (r.claim.Some? ==> r.event == r.claim.value.event)
    && r.lastSequence <= |c.receipts|
    && (r.lastSequence == |c.receipts| ==> !HasReceipt(c.receipts, r.event))
  }

  ghost predicate ChannelInv(w: World, sink: string, c: Channel) {
    && (c.row.Some? ==> ValidReference(sink, 256))
    && Chained(sink, w.outbox, c.receipts)
    && RowInv(w, c)
    && (forall stmt :: stmt in c.inFlight ==> ReadInv(w, c, c.inFlight[stmt]))
    && (forall h :: h in c.handed ==>
          h.token in w.used && Expected(sink, w.outbox, c, h.delivery.sequence) == Some(h.delivery))
    && (forall h, k :: h in c.handed && k in c.handed && h.token == k.token ==> h == k)
    && |c.receipts| <= |c.accepted| <= |c.receipts| + 1
    && (forall i :: 0 <= i < |c.accepted| ==> Expected(sink, w.outbox, c, i + 1) == Some(c.accepted[i]))
  }

  ghost predicate Inv(w: World) {
    forall sink :: sink in w.channels ==> ChannelInv(w, sink, w.channels[sink])
  }

  /** Publishing and drawing tokens never disturbs a channel that did not act. */
  lemma ChannelInvMonotone(w: World, w': World, sink: string, c: Channel)
    requires ChannelInv(w, sink, c)
    requires w.used <= w'.used
    requires forall e :: e in w.outbox ==> e in w'.outbox && w'.outbox[e] == w.outbox[e]
    ensures ChannelInv(w', sink, c)
  {
    forall i: nat | i < |c.receipts| ensures LinkAt(sink, w'.outbox, c.receipts, i) {
      assert LinkAt(sink, w.outbox, c.receipts, i);
    }
    forall stmt | stmt in c.inFlight ensures ReadInv(w', c, c.inFlight[stmt]) {
      assert ReadInv(w, c, c.inFlight[stmt]);
    }
    forall n: nat | Expected(sink, w.outbox, c, n).Some?
      ensures Expected(sink, w'.outbox, c, n) == Expected(sink, w.outbox, c, n)
    {
    }
  }

  /** Distinct sequence numbers carry distinct events. */
  lemma ExpectedInjective(w: World, sink: string, c: Channel, m: nat, n: nat)
    requires ChannelInv(w, sink, c)
    requires Expected(sink, w.outbox, c, m).Some? && Expected(sink, w.outbox, c, n).Some?
    requires Expected(sink, w.outbox, c, m).value.event == Expected(sink, w.outbox, c, n).value.event
    ensures m == n
  {
  }

  /** Acting on the row never changes a delivery that some exporter or the sink may already hold. */
  lemma CommitExpected(w: World, sink: string, c: Channel, stmt: nat, token: Token, lease: nat, n: nat)
    requires ChannelInv(w, sink, c) && stmt in c.inFlight
    requires Expected(sink, w.outbox, c, n).Some?
    ensures Expected(sink, w.outbox, StepCommit(sink, c, stmt, token, lease), n) == Expected(sink, w.outbox, c, n)
  {
  }

  /** The delivery a claim hands out is the expected one for the next sequence number. */
  lemma CommitHandsExpected(w: World, sink: string, c: Channel, stmt: nat, token: Token, lease: nat)
    requires ChannelInv(w, sink, c) && CasHolds(c, stmt)
    ensures ClaimFor(sink, c, stmt, token).Some?
    ensures var d := ClaimFor(sink, c, stmt, token).value.delivery;
            Expected(sink, w.outbox, StepCommit(sink, c, stmt, token, lease), d.sequence) == Some(d)
  {
  }

  lemma CommitKeeps(w: World, w': World, sink: string, stmt: nat, token: Token, lease: nat)
    requires ChannelInv(w, sink, ChannelOf(w, sink))
    requires stmt in ChannelOf(w, sink).inFlight && token !in w.used
    requires w'.used == w.used + {token} && w'.outbox == w.outbox
    ensures ChannelInv(w', sink, StepCommit(sink, ChannelOf(w, sink), stmt, token, lease))
  {
    var c := ChannelOf(w, sink);
    var c' := StepCommit(sink, c, stmt, token, lease);
    assert RowInv(w', c') by { assert ReadInv(w, c, c.inFlight[stmt]); }
    forall s | s in c'.inFlight ensures ReadInv(w', c', c'.inFlight[s]) {
      assert ReadInv(w, c, c.inFlight[s]);
    }
    forall h | h in c'.handed
      ensures h.token in w'.used && Expected(sink, w'.outbox, c', h.delivery.sequence) == Some(h.delivery)
    {
      if h in c.handed {
        CommitExpected(w, sink, c, stmt, token, lease, h.delivery.sequence);
      } else {
        CommitHandsExpected(w, sink, c, stmt, token, lease);
      }
    }
    forall i | 0 <= i < |c'.accepted| ensures Expected(sink, w'.outbox, c', i + 1) == Some(c'.accepted[i]) {
      assert Expected(sink, w.outbox, c, i + 1) == Some(c.accepted[i]);
      CommitExpected(w, sink, c, stmt, token, lease, i + 1);
    }
  }

  lemma DeliverKeeps(w: World, sink: string, k: Claimed)
    requires ChannelInv(w, sink, ChannelOf(w, sink))
    requires k in ChannelOf(w, sink).handed
    ensures ChannelInv(w, sink, StepDeliver(ChannelOf(w, sink), k.delivery))
  {
    var c := ChannelOf(w, sink);
    var c' := StepDeliver(c, k.delivery);
    var n := k.delivery.sequence;
    assert Expected(sink, w.outbox, c, n) == Some(k.delivery);
    forall m: nat ensures Expected(sink, w.outbox, c', m) == Expected(sink, w.outbox, c, m) {}
    if 1 <= n <= |c.accepted| {
      assert Expected(sink, w.outbox, c, (n - 1) + 1) == Some(c.accepted[n - 1]);
    }
    forall s | s in c'.inFlight ensures ReadInv(w, c', c'.inFlight[s]) {
      assert ReadInv(w, c, c.inFlight[s]);
    }
    forall i | 0 <= i < |c'.accepted| ensures Expected(sink, w.outbox, c', i + 1) == Some(c'.accepted[i]) {
      if i < |c.accepted| { assert Expected(sink, w.outbox, c, i + 1) == Some(c.accepted[i]); }
    }
  }

  lemma CompleteExpected(w: World, sink: string, c: Channel, k: Claimed, n: nat)
    requires ChannelInv(w, sink, c) && k in c.handed
    requires c.row.Some? && c.row.value.lastSequence + 1 == k.delivery.sequence
    requires Expected(sink, w.outbox, c, n).Some?
    ensures Expected(sink, w.outbox, StepComplete(c, k.delivery), n) == Expected(sink, w.outbox, c, n)
  {
  }

  lemma CompleteChains(w: World, sink: string, c: Channel, k: Claimed)
    requires ChannelInv(w, sink, c) && k in c.handed && OwnsRow(c, k)
    requires c.row.value.lastSequence + 1 == k.delivery.sequence
    ensures Chained(sink, w.outbox, StepComplete(c, k.delivery).receipts)
    ensures RowInv(w, StepComplete(c, k.delivery))
  {
    assert Expected(sink, w.outbox, c, k.delivery.sequence) == Some(k.delivery);
    assert !HasReceipt(c.receipts, k.delivery.event);
    var rs := StepComplete(c, k.delivery).receipts;
    forall i: nat | i < |rs| ensures LinkAt(sink, w.outbox, rs, i) {
      if i < |c.receipts| { assert LinkAt(sink, w.outbox, c.receipts, i); }
    }
  }

  lemma CompleteKeeps(w: World, w': World, sink: string, k: Claimed, receipt: Receipt)
    requires ChannelInv(w, sink, ChannelOf(w, sink)) && sink == k.delivery.sink
    requires k in ChannelOf(w, sink).handed && k.delivery in ChannelOf(w, sink).accepted
    requires CompleteSucceeds(w, k, receipt)
    requires w'.used == w.used && w'.outbox == w.outbox
    ensures ChannelInv(w', sink, StepComplete(ChannelOf(w, sink), k.delivery))
  {
    var c := ChannelOf(w, sink);
    var c' := StepComplete(c, k.delivery);
    CompleteChains(w, sink, c, k);
    forall s | s in c'.inFlight ensures ReadInv(w', c', c'.inFlight[s]) {
      assert ReadInv(w, c, c.inFlight[s]);
    }
    forall h | h in c'.handed ensures Expected(sink, w'.outbox, c', h.delivery.sequence) == Some(h.delivery) {
      CompleteExpected(w, sink, c, k, h.delivery.sequence);
    }
    forall i | 0 <= i < |c'.accepted| ensures Expected(sink, w'.outbox, c', i + 1) == Some(c'.accepted[i]) {
      assert Expected(sink, w.outbox, c, i + 1) == Some(c.accepted[i]);
      CompleteExpected(w, sink, c, k, i + 1);
    }
    assert |c.accepted| == |c.receipts| + 1 by {
      var i :| 0 <= i < |c.accepted| && c.accepted[i] == k.delivery;
      assert Expected(sink, w.outbox, c, i + 1) == Some(c.accepted[i]);
    }
  }

  lemma ReleaseKeeps(w: World, w': World, sink: string, k: Claimed, token: Token)
    requires ChannelInv(w, sink, ChannelOf(w, sink))
    requires OwnsRow(ChannelOf(w, sink), k)
    requires w'.used == w.used + {token} && w'.outbox == w.outbox
    ensures ChannelInv(w', sink, StepRelease(ChannelOf(w, sink), token))
  {
  }

  /** A missing row is created empty, when there is no receipt and no claim it could contradict. */
  lemma EnsureKeeps(w: World, sink: string)
    requires ChannelInv(w, sink, ChannelOf(w, sink)) && ChannelOf(w, sink).row.None? && ValidReference(sink, 256)
    ensures ChannelInv(w, sink, ChannelOf(w, sink).(row := Some(Checkpoint(0, None, None))))
  {
    var c := ChannelOf(w, sink);
    var c' := c.(row := Some(Checkpoint(0, None, None)));
    forall n: nat ensures Expected(sink, w.outbox, c', n) == Expected(sink, w.outbox, c, n) {}
    forall s | s in c'.inFlight ensures ReadInv(w, c', c'.inFlight[s]) { assert ReadInv(w, c, c.inFlight[s]); }
  }

  lemma ReadKeeps(w: World, sink: string, stmt: nat, r: Candidate)
    requires ChannelInv(w, sink, ChannelOf(w, sink)) && ReadInv(w, ChannelOf(w, sink), r)
    ensures ChannelInv(w, sink, ChannelOf(w, sink).(inFlight := ChannelOf(w, sink).inFlight[stmt := r]))
  {
    var c := ChannelOf(w, sink);
    var c' := c.(inFlight := c.inFlight[stmt := r]);
    forall n: nat ensures Expected(sink, w.outbox, c', n) == Expected(sink, w.outbox, c, n) {}
    forall s | s in c'.inFlight ensures ReadInv(w, c', c'.inFlight[s]) {
      if s != stmt { assert ReadInv(w, c, c.inFlight[s]); }
    }
  }

  lemma CandidateIsSound(w: World, sink: string, hints: seq<EventId>, now: Time)
    requires ChannelInv(w, sink, ChannelOf(w, sink)) && CandidateOf(w, sink, hints, now).Some?
    ensures ReadInv(w, ChannelOf(w, sink), CandidateOf(w, sink, hints, now).value)
  {
  }

  lemma StepKeepsChannel(w: World, a: Action)
    requires Inv(w) && Enabled(w, a) && !a.Publish?
    ensures ChannelInv(Step(w, a), SinkOf(a).value, StepChannel(w, a))
  {
    var sink := SinkOf(a).value;
    var w' := Step(w, a);
    assert ChannelInv(w, sink, ChannelOf(w, sink));
    match a
    case EnsureRow(_) =>
      if ChannelOf(w, sink).row.None? {
        EnsureKeeps(w, sink);
        ChannelInvMonotone(w, w', sink, StepChannel(w, a));
      } else {
        ChannelInvMonotone(w, w', sink, ChannelOf(w, sink));
      }
    case ReadCandidate(_, stmt, hints, now) =>
      CandidateIsSound(w, sink, hints, now);
      ReadKeeps(w, sink, stmt, CandidateOf(w, sink, hints, now).value);
      ChannelInvMonotone(w, w', sink, StepChannel(w, a));
    case CommitClaim(_, stmt, token, lease) => CommitKeeps(w, w', sink, stmt, token, lease);
    case Deliver(k) =>
      DeliverKeeps(w, sink, k);
      ChannelInvMonotone(w, w', sink, StepChannel(w, a));
    case Complete(k, receipt) => CompleteKeeps(w, w', sink, k, receipt);
    case Release(k, token) => ReleaseKeeps(w, w', sink, k, token);
  }

  lemma StepKeepsInv(w: World, a: Action)
    requires Inv(w)
    ensures Inv(Step(w, a))
  {
    if Enabled(w, a) {
      var w' := Step(w, a);
      if !a.Publish? { StepKeepsChannel(w, a); }
      forall sink | sink in w'.channels && Some(sink) != SinkOf(a)
        ensures ChannelInv(w', sink, w'.channels[sink])
      {
        ChannelInvMonotone(w, w', sink, w.channels[sink]);
      }
    }
  }

  lemma {:induction false} RunKeepsInv(w: World, actions: seq<Action>)
    requires Inv(w)
    ensures Inv(Run(w, actions))
    decreases |actions|
  {
    if actions != [] {
      StepKeepsInv(w, actions[0]);
      RunKeepsInv(Step(w, actions[0]), actions[1..]);
    }
  }

  // ---- What every run guarantees ---------------------------------------------------------------

  /** Whatever the interleaving and the hints, a sink's receipts are one hash chain ending at its checkpoint. */
  lemma ReceiptsFormOneChain(actions: seq<Action>, sink: string)
    ensures var w := Run(Init, actions);
            var c := ChannelOf(w, sink);
            && (forall i :: 0 <= i < |c.receipts| ==> c.receipts[i].sequence == i + 1 && c.receipts[i].event in w.outbox)
            && (forall i, j :: 0 <= i < j < |c.receipts| ==> c.receipts[i].event != c.receipts[j].event)
            && (forall i :: 0 < i < |c.receipts| ==> c.receipts[i].previous == Some(c.receipts[i - 1].hash))
            && (c.receipts != [] ==> c.receipts[0].previous == None)
            && (forall i :: 0 <= i < |c.receipts| ==>
                  c.receipts[i].hash == Digest(DeliveryVersion, sink, i + 1, c.receipts[i].event,
                                               c.receipts[i].previous, w.outbox[c.receipts[i].event].payload))
            && (c.row.Some? ==> c.row.value.lastSequence == |c.receipts| &&
                                c.row.value.lastHash == HashBefore(c.receipts, |c.receipts|))
            && (c.row.None? ==> c.receipts == [])
  {
    RunKeepsInv(Init, actions);
    var w := Run(Init, actions);
    var c := ChannelOf(w, sink);
    assert ChannelInv(w, sink, c);
    forall i: nat | i < |c.receipts|
      ensures c.receipts[i].event in w.outbox && c.receipts[i].sequence == i + 1
      ensures c.receipts[i].previous == HashBefore(c.receipts, i)
      ensures c.receipts[i].hash == Digest(DeliveryVersion, sink, i + 1, c.receipts[i].event,
                                           c.receipts[i].previous, w.outbox[c.receipts[i].event].payload)
    {
      assert LinkAt(sink, w.outbox, c.receipts, i);
    }
  }

  /** Every delivery ever handed out for a sequence number is the same one, and no event has two numbers. */
  lemma DeliveriesAreReplayIdentical(actions: seq<Action>, sink: string, a: Claimed, b: Claimed)
    requires a in ChannelOf(Run(Init, actions), sink).handed && b in ChannelOf(Run(Init, actions), sink).handed
    ensures a.delivery.sequence == b.delivery.sequence <==> a.delivery == b.delivery
    ensures a.delivery.event == b.delivery.event <==> a.delivery == b.delivery
    ensures ValidDelivery(a.delivery) && a.delivery.sink == sink
  {
    RunKeepsInv(Init, actions);
    var w := Run(Init, actions);
    var c := ChannelOf(w, sink);
    assert ChannelInv(w, sink, c);
    if a.delivery.event == b.delivery.event {
      ExpectedInjective(w, sink, c, a.delivery.sequence, b.delivery.sequence);
    }
    assert c.row.Some?;
  }

  /** A sink deduplicating by event ID has accepted 1..k in order, k being last_sequence or one more. */
  lemma SinkAcceptsPrefix(actions: seq<Action>, sink: string)
    ensures var c := ChannelOf(Run(Init, actions), sink);
            && |c.receipts| <= |c.accepted| <= |c.receipts| + 1
            && (forall i :: 0 <= i < |c.accepted| ==> c.accepted[i].sequence == i + 1)
            && (forall i :: 0 <= i < |c.receipts| ==>
                  c.accepted[i].event == c.receipts[i].event && c.accepted[i].hash == c.receipts[i].hash &&
                  c.accepted[i].previous == c.receipts[i].previous)
            && (forall h :: h in c.handed ==> h.delivery.sequence <= |c.receipts| + 1)
  {
    RunKeepsInv(Init, actions);
    var w := Run(Init, actions);
    var c := ChannelOf(w, sink);
    assert ChannelInv(w, sink, c);
    forall i: nat | i < |c.accepted|
      ensures c.accepted[i].sequence == i + 1
      ensures i < |c.receipts| ==> c.accepted[i].event == c.receipts[i].event &&
                                   c.accepted[i].hash == c.receipts[i].hash && c.accepted[i].previous == c.receipts[i].previous
    {
      assert Expected(sink, w.outbox, c, i + 1) == Some(c.accepted[i]);
      if i < |c.receipts| { assert LinkAt(sink, w.outbox, c.receipts, i); }
    }
  }

  /** Receipts are append-only and claims stay bound: later states only extend what was recorded. */
  lemma {:induction false} HistoryIsStable(w: World, actions: seq<Action>, sink: string)
    ensures ChannelOf(w, sink).receipts <= ChannelOf(Run(w, actions), sink).receipts
    ensures ChannelOf(w, sink).accepted <= ChannelOf(Run(w, actions), sink).accepted
    ensures ChannelOf(w, sink).handed <= ChannelOf(Run(w, actions), sink).handed
    ensures w.used <= Run(w, actions).used
    decreases |actions|
  {
    if actions != [] { HistoryIsStable(Step(w, actions[0]), actions[1..], sink); }
  }

  predicate Holds(w: World, sink: string, token: Token) {
    var c := ChannelOf(w, sink);
    c.row.Some? && c.row.value.claim.Some? && c.row.value.claim.value.token == token
  }

  /** Fencing: a token that has been drawn and no longer holds the row never holds it again. */
  lemma {:induction false} LostTokenStaysLost(w: World, actions: seq<Action>, sink: string, token: Token)
    requires token in w.used && !Holds(w, sink, token)
    ensures !Holds(Run(w, actions), sink, token)
    decreases |actions|
  {
    if actions != [] { LostTokenStaysLost(Step(w, actions[0]), actions[1..], sink, token); }
  }

  /** A stale owner changes nothing: neither its receipt nor its release reaches the database. */
  lemma StaleOwnerIsFenced(w: World, actions: seq<Action>, k: Claimed, receipt: Receipt, token: Token)
    requires k.token in w.used && !Holds(w, k.delivery.sink, k.token)
    ensures var w' := Run(w, actions); Step(w', Complete(k, receipt)) == w' && Step(w', Release(k, token)) == w'
  {
    LostTokenStaysLost(w, actions, k.delivery.sink, k.token);
  }

  /** In every reachable state at most one of all the claims ever handed out can still be settled. */
  lemma AtMostOneOwner(actions: seq<Action>, a: Claimed, b: Claimed)
    requires a.delivery.sink == b.delivery.sink
    requires a in ChannelOf(Run(Init, actions), a.delivery.sink).handed
    requires b in ChannelOf(Run(Init, actions), a.delivery.sink).handed
    requires OwnsRow(ChannelOf(Run(Init, actions), a.delivery.sink), a)
    requires OwnsRow(ChannelOf(Run(Init, actions), a.delivery.sink), b)
    ensures a == b
  {
    RunKeepsInv(Init, actions);
    var w := Run(Init, actions);
    assert ChannelInv(w, a.delivery.sink, ChannelOf(w, a.delivery.sink));
  }

  /** The sink's own receipt for a delivery: it repeats the delivery's identity and hash. */
  predicate Acknowledges(r: Receipt, d: Delivery) {
    && 0 < |r.receiptId| <= 512 && r.checkpoint.Some? && r.acceptedAt.Some?
    && r == Receipt(DeliveryVersion, d.sink, d.sequence, d.event, d.hash, r.receiptId, r.checkpoint, r.acceptedAt)
  }

  /**
   In every reachable state the owner settles with exactly the sink's receipts: sequence, duplicates and
   the delivery's own integrity never stand in its way.
   */
  lemma OwnerCompletesIff(actions: seq<Action>, k: Claimed, receipt: Receipt, w: World)
    requires w == Run(Init, actions) && k in ChannelOf(w, k.delivery.sink).handed
    ensures CompleteSucceeds(w, k, receipt) <==>
            && var row := ChannelOf(w, k.delivery.sink).row;
            && row.Some? && row.value.claim.Some? && row.value.claim.value.token == k.token
            && row.value.claim.value.event == k.delivery.event && Acknowledges(receipt, k.delivery)
            && (k.delivery.event in w.published ||
                (k.delivery.event in w.outbox && w.outbox[k.delivery.event].occurredAt <= receipt.acceptedAt.value))
  {
    RunKeepsInv(Init, actions);
    var c := ChannelOf(w, k.delivery.sink);
    assert ChannelInv(w, k.delivery.sink, c);
    if OwnsRow(c, k) {
      assert k.delivery.sequence == |c.receipts| + 1;
      forall i | 0 <= i < |c.receipts| ensures c.receipts[i].sequence != k.delivery.sequence {
        assert LinkAt(k.delivery.sink, w.outbox, c.receipts, i);
      }
      assert ValidDelivery(k.delivery) && !HasReceipt(c.receipts, k.delivery.event);
    }
  }

  /** A claimed event is the only one offered, from the end of its lease on, whatever the hints are. */
  lemma ClaimedIsOffered(w: World, sink: string, hints: seq<EventId>, now: Time, claim: Claim)
    requires Inv(w) && ChannelOf(w, sink).row.Some? && ChannelOf(w, sink).row.value.claim == Some(claim)
    ensures CandidateOf(w, sink, hints, now).Some? <==> claim.until.NegInfinity? || claim.until.time <= now
    ensures CandidateOf(w, sink, hints, now).Some? ==> CandidateOf(w, sink, hints, now).value.event == claim.event
  {
    assert ChannelInv(w, sink, ChannelOf(w, sink));
    assert claim.event in [claim.event] && Eligible(w.outbox, ChannelOf(w, sink).receipts, claim.event);
  }

  /** A released event stays next in line: it is what every later candidate read finds, at once and by any exporter. */
  lemma ReleasedIsRetained(before: seq<Action>, k: Claimed, token: Token, hints: seq<EventId>, now: Time, w: World, released: World)
    requires w == Run(Init, before) && Enabled(w, Release(k, token)) && released == Step(w, Release(k, token))
    ensures !OwnsRow(ChannelOf(released, k.delivery.sink), k)
    ensures CandidateOf(released, k.delivery.sink, hints, now).Some?
    ensures CandidateOf(released, k.delivery.sink, hints, now).value.event == k.delivery.event
    ensures ChannelOf(released, k.delivery.sink).receipts == ChannelOf(w, k.delivery.sink).receipts
  {
    RunKeepsInv(Init, before);
    StepKeepsInv(w, Release(k, token));
    assert k.token in w.used by { assert ChannelInv(w, k.delivery.sink, ChannelOf(w, k.delivery.sink)); }
    ClaimedIsOffered(released, k.delivery.sink, hints, now, Claim(token, k.delivery.event, NegInfinity));
  }

  lemma CommitWrites(w: World, sink: string, stmt: nat, token: Token, lease: nat, claimed: World)
    requires CasHolds(ChannelOf(w, sink), stmt) && token !in w.used && claimed == Step(w, CommitClaim(sink, stmt, token, lease))
    ensures var r := ChannelOf(w, sink).inFlight[stmt];
            ChannelOf(claimed, sink).row == Some(ChannelOf(w, sink).row.value.(claim := Some(Claim(token, r.event, At(r.now + lease)))))
  {
  }

  /** A claimed event is offered again exactly from the end of its lease on, whatever the hints are. */
  lemma LeaseRunsOut(before: seq<Action>, sink: string, stmt: nat, token: Token, lease: nat, hints: seq<EventId>, now: Time,
                     w: World, claimed: World)
    requires w == Run(Init, before) && CasHolds(ChannelOf(w, sink), stmt) && token !in w.used
    requires claimed == Step(w, CommitClaim(sink, stmt, token, lease))
    ensures CandidateOf(claimed, sink, hints, now).Some? <==> now >= ChannelOf(w, sink).inFlight[stmt].now + lease
    ensures var again := CandidateOf(claimed, sink, hints, now);
            again.Some? ==> again.value.event == ChannelOf(w, sink).inFlight[stmt].event
  {
    assert Inv(claimed) by {
      RunKeepsInv(Init, before);
      StepKeepsInv(w, CommitClaim(sink, stmt, token, lease));
    }
    CommitWrites(w, sink, stmt, token, lease, claimed);
    var r := ChannelOf(w, sink).inFlight[stmt];
    ClaimedIsOffered(claimed, sink, hints, now, Claim(token, r.event, At(r.now + lease)));
  }

  /** A claim is handed out only over a lease that had run out when its statement read the row. */
  ghost predicate ReadsFreeLease(w: World) {
    forall sink, stmt :: sink in w.channels && stmt in w.channels[sink].inFlight ==>
      LeaseFree(w.channels[sink].inFlight[stmt].claim, w.channels[sink].inFlight[stmt].now)
  }

  lemma {:induction false} LeasesAreExclusive(actions: seq<Action>, sink: string, stmt: nat)
    ensures ReadsFreeLease(Run(Init, actions))
    ensures var c := ChannelOf(Run(Init, actions), sink);
            CasHolds(c, stmt) ==> LeaseFree(c.row.value.claim, c.inFlight[stmt].now)
  {
    RunReadsFreeLease(Init, actions);
  }

  lemma {:induction false} RunReadsFreeLease(w: World, actions: seq<Action>)
    requires ReadsFreeLease(w)
    ensures ReadsFreeLease(Run(w, actions))
    decreases |actions|
  {
    if actions != [] {
      RunReadsFreeLease(Step(w, actions[0]), actions[1..]);
    }
  }

  // ---- How long a claim lasts ------------------------------------------------------------------

  predicate Settles(a: Action, sink: string) {
    (a.Complete? || a.Release?) && a.claimed.delivery.sink == sink
  }

  /** The row is claimed, and stays claimed until at least this time unless someone settles it. */
  predicate HeldUntil(w: World, sink: string, t: Time) {
    var c := ChannelOf(w, sink);
    c.row.Some? && c.row.value.claim.Some? && c.row.value.claim.value.until.At? && c.row.value.claim.value.until.time >= t
  }

  lemma StepKeepsHeld(w: World, a: Action, sink: string, t: Time)
    requires ReadsFreeLease(w) && HeldUntil(w, sink, t) && !Settles(a, sink)
    ensures HeldUntil(Step(w, a), sink, t)
  {
  }

  lemma {:induction false} RunKeepsHeld(w: World, actions: seq<Action>, sink: string, t: Time)
    requires ReadsFreeLease(w) && HeldUntil(w, sink, t)
    requires forall i :: 0 <= i < |actions| ==> !Settles(actions[i], sink)
    ensures ReadsFreeLease(Run(w, actions)) && HeldUntil(Run(w, actions), sink, t)
    decreases |actions|
  {
    if actions != [] {
      StepKeepsHeld(w, actions[0], sink, t);
      RunKeepsHeld(Step(w, actions[0]), actions[1..], sink, t);
    }
  }

  lemma CommitHolds(w: World, sink: string, stmt: nat, token: Token, lease: nat)
    requires ReadsFreeLease(w) && CasHolds(ChannelOf(w, sink), stmt) && token !in w.used
    ensures ReadsFreeLease(Step(w, CommitClaim(sink, stmt, token, lease)))
    ensures HeldUntil(Step(w, CommitClaim(sink, stmt, token, lease)), sink, ChannelOf(w, sink).inFlight[stmt].now + lease)
  {
  }

  lemma CommitWaits(w: World, sink: string, stmt: nat, t: Time)
    requires ReadsFreeLease(w) && HeldUntil(w, sink, t) && CasHolds(ChannelOf(w, sink), stmt)
    ensures ChannelOf(w, sink).inFlight[stmt].now >= t
  {
  }

  lemma HeldRunWaits(w: World, actions: seq<Action>, sink: string, stmt: nat, t: Time)
    requires ReadsFreeLease(w) && HeldUntil(w, sink, t)
    requires forall i :: 0 <= i < |actions| ==> !Settles(actions[i], sink)
    requires CasHolds(ChannelOf(Run(w, actions), sink), stmt)
    ensures ChannelOf(Run(w, actions), sink).inFlight[stmt].now >= t
  {
    RunKeepsHeld(w, actions, sink, t);
    CommitWaits(Run(w, actions), sink, stmt, t);
  }

  /**
   A claim taken on a read at time t for a lease of L is exclusive until t + L: unless the sink's claim is
   settled in between, whatever is claimed for that sink later was read at t + L or after.
   */
  lemma ClaimsAreALeaseApart(before: seq<Action>, sink: string, first: nat, token: Token, lease: nat, between: seq<Action>, second: nat,
                             w: World, claimed: World)
    requires w == Run(Init, before) && CasHolds(ChannelOf(w, sink), first) && token !in w.used
    requires claimed == Step(w, CommitClaim(sink, first, token, lease))
    requires forall i :: 0 <= i < |between| ==> !Settles(between[i], sink)
    requires CasHolds(ChannelOf(Run(claimed, between), sink), second)
    ensures ChannelOf(Run(claimed, between), sink).inFlight[second].now >= ChannelOf(w, sink).inFlight[first].now + lease
  {
    RunReadsFreeLease(Init, before);
    CommitHolds(w, sink, first, token, lease);
    HeldRunWaits(claimed, between, sink, second, ChannelOf(w, sink).inFlight[first].now + lease);
  }

  predicate ReadsAt(a: Action, sink: string, stmt: nat, now: Time) {
    a.ReadCandidate? && a.sink == sink && a.stmt == stmt && a.now == now
  }

  /** The time of a read is the time its statement was given. */
  lemma {:induction false} ReadTimesAreGiven(w: World, actions: seq<Action>, sink: string, stmt: nat)
    requires stmt in ChannelOf(Run(w, actions), sink).inFlight
    ensures var r := ChannelOf(Run(w, actions), sink).inFlight[stmt];
            || (stmt in ChannelOf(w, sink).inFlight && ChannelOf(w, sink).inFlight[stmt] == r)
            || exists i :: 0 <= i < |actions| && ReadsAt(actions[i], sink, stmt, r.now)
    decreases |actions|
  {
    if actions != [] {
      var next := Step(w, actions[0]);
      ReadTimesAreGiven(next, actions[1..], sink, stmt);
      var r := ChannelOf(Run(w, actions), sink).inFlight[stmt];
      if i :| 0 <= i < |actions[1..]| && ReadsAt(actions[1..][i], sink, stmt, r.now) {
        assert ReadsAt(actions[i + 1], sink, stmt, r.now);
      } else if !(stmt in ChannelOf(w, sink).inFlight && ChannelOf(w, sink).inFlight[stmt] == r) {
        assert ReadsAt(actions[0], sink, stmt, r.now);
      }
    }
  }

  // ---- Statements are private ------------------------------------------------------------------

  predicate Touches(a: Action, mine: set<nat>) {
    (a.ReadCandidate? || a.CommitClaim?) && a.stmt in mine
  }

  /** What other sessions do: everything scheduled except acting inside one of our own statements. */
  function Foreign(actions: seq<Action>, mine: set<nat>): (r: seq<Action>)
    ensures forall i :: 0 <= i < |r| ==> !Touches(r[i], mine)
  {
    if actions == [] then [] else (if Touches(actions[0], mine) then [] else [actions[0]]) + Foreign(actions[1..], mine)
  }

  lemma {:induction false} StatementsArePrivate(w: World, actions: seq<Action>, sink: string, stmt: nat)
    requires stmt in ChannelOf(w, sink).inFlight && forall i :: 0 <= i < |actions| ==> !Touches(actions[i], {stmt})
    ensures stmt in ChannelOf(Run(w, actions), sink).inFlight
    ensures ChannelOf(Run(w, actions), sink).inFlight[stmt] == ChannelOf(w, sink).inFlight[stmt]
    decreases |actions|
  {
    if actions != [] {
      assert !Touches(actions[0], {stmt});
      assert forall i :: 0 <= i < |actions| - 1 ==> actions[1..][i] == actions[i + 1];
      StatementsArePrivate(Step(w, actions[0]), actions[1..], sink, stmt);
    }
  }
}
