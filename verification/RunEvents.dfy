/**
 The event stream of one run: a bounded retention window read by cursor, through statements that are
 not one transaction. Other sessions may append and trim between any two of them.
 */
module RunEvents {
  import opened Base

  /** `wellFormed` is whether the stored row passes the event's own validation. */
  datatype Event = Event(sequence: nat, data: string, wellFormed: bool)

  /** Everything ever appended, and how much of it has been removed from the front. */
  datatype Log = Log(all: seq<Event>, trimmed: nat)

  ghost predicate ValidLog(l: Log) {
    && (forall i :: 0 <= i < |l.all| ==> l.all[i].sequence == i + 1)
    && (l.all == [] ==> l.trimmed == 0) && (l.all != [] ==> l.trimmed < |l.all|)
  }

  datatype Action = Append(data: string, wellFormed: bool) | Trim(count: nat)

  /** An append takes the next sequence; a trim keeps at least the newest event. */
  function Step(l: Log, a: Action): Log {
    match a
    case Append(data, wellFormed) => l.(all := l.all + [Event(|l.all| + 1, data, wellFormed)])
    case Trim(count) => if l.trimmed + count < |l.all| then l.(trimmed := l.trimmed + count) else l
  }

  function Run(l: Log, actions: seq<Action>): Log
    decreases |actions|
  {
    if actions == [] then l else Run(Step(l, actions[0]), actions[1..])
  }

  ghost predicate Later(l: Log, m: Log) {
    l.all <= m.all && l.trimmed <= m.trimmed
  }

  lemma {:induction false} RunIsLater(l: Log, actions: seq<Action>)
    requires ValidLog(l)
    ensures ValidLog(Run(l, actions)) && Later(l, Run(l, actions))
    decreases |actions|
  {
    if actions != [] { RunIsLater(Step(l, actions[0]), actions[1..]); }
  }

  // ---- The two statements ----------------------------------------------------------------------

  function Oldest(l: Log): int { if l.all == [] then 0 else l.trimmed + 1 }

  function Latest(l: Log): int { |l.all| }

  function Max(a: int, b: int): int { if a < b then b else a }

  function Min(a: int, b: int): int { if a < b then a else b }

  /** The first `limit` rows with a sequence above `after`, in order. */
  function Select(l: Log, after: nat, limit: nat): seq<Event> {
    var from := Max(after, l.trimmed);
    if from >= |l.all| then [] else l.all[from..Min(from + limit, |l.all|)]
  }

  /** Those are exactly the smallest sequences above the cursor. */
  lemma SelectIsLeast(l: Log, after: nat, limit: nat, e: Event)
    requires ValidLog(l) && e in l.all[l.trimmed..] && e.sequence > after && limit > 0
    ensures e in Select(l, after, limit) <==> e.sequence <= Max(after, l.trimmed) + limit
    ensures |Select(l, after, limit)| <= limit
  {
  }

  /** A reader that has read everything is given exactly the next event once it is appended. */
  lemma AppendedIsNext(l: Log, data: string, wellFormed: bool, limit: nat)
    requires ValidLog(l) && limit > 0
    ensures Select(l, Latest(l), limit) == []
    ensures Select(Step(l, Append(data, wellFormed)), Latest(l), limit) == [Event(Latest(l) + 1, data, wellFormed)]
  {
  }

  function Floor(oldest: int, latest: int, retain: int): nat {
    Max(Max(latest - retain, 0), oldest - 1)
  }

  // ---- What a batch may be ---------------------------------------------------------------------

  datatype Failure = Invalid | NotFound | CursorGone | Ordering

  /** The batch continues the cursor without a hole and stops only at the limit or at the end. */
  ghost predicate Continues(l: Log, start: nat, limit: nat, batch: seq<Event>) {
    batch == if start >= |l.all| then [] else l.all[start..Min(start + limit, |l.all|)]
  }

  /** Exactly when no event after the cursor had been removed by the time the rows were read. */
  lemma SelectContinuesIff(l: Log, start: nat, limit: nat)
    requires ValidLog(l) && limit > 0
    ensures Continues(l, start, limit, Select(l, start, limit)) <==> l.trimmed <= start
  {
    if l.trimmed > start {
      assert Select(l, start, limit)[0] == l.all[l.trimmed];
      assert l.all[start].sequence != l.all[l.trimmed].sequence;
    }
  }

  // ---- One call --------------------------------------------------------------------------------

  /** The log at the window statement, and at the statement whose rows are returned. */
  datatype Call = Call(window: Log, rows: Log, limit: nat)

  ghost predicate ValidCall(c: Call, all: seq<Event>) {
    ValidLog(c.window) && ValidLog(c.rows) && Later(c.window, c.rows) && c.rows.all <= all && c.limit > 0
  }

  function FloorOf(c: Call, retain: int): nat { Floor(Oldest(c.window), Latest(c.window), retain) }

  function StartOf(c: Call, cursor: nat, retain: int): nat { Max(cursor, FloorOf(c, retain)) }

  /** What the caller gets: cursor 0 starts at the floor, any other cursor below it is gone. */
  function Answer(c: Call, cursor: nat, retain: int): Result<seq<Event>, Failure> {
    if 0 < cursor < FloorOf(c, retain) then Err(CursorGone)
    else
      var batch := Select(c.rows, StartOf(c, cursor, retain), c.limit);
      if forall e :: e in batch ==> e.wellFormed then Ok(batch) else Err(Ordering)
  }

  /** A cursor is reported gone exactly when it had been overtaken, by a trim or by the retention count. */
  lemma GoneIffOvertaken(c: Call, cursor: nat, retain: int)
    requires ValidLog(c.window) && retain >= 1
    ensures Answer(c, cursor, retain) == Err(CursorGone) <==>
            0 < cursor && (cursor < c.window.trimmed || cursor < |c.window.all| - retain)
  {
  }

  /** `part` is what follows the cursor in the whole history. */
  ghost predicate Follows(all: seq<Event>, cursor: nat, part: seq<Event>) {
    cursor + |part| <= |all| && part == all[cursor..cursor + |part|]
  }

  function NextCursor(cursor: nat, batch: seq<Event>): nat {
    if batch == [] then cursor else batch[|batch| - 1].sequence
  }

  lemma SelectFollowsIff(l: Log, all: seq<Event>, start: nat, limit: nat)
    requires ValidLog(l) && l.all <= all && start <= |all| && limit > 0
    ensures Follows(all, start, Select(l, start, limit)) <==> l.trimmed <= start
  {
    var batch := Select(l, start, limit);
    if l.trimmed > start {
      assert batch[0] == l.all[l.trimmed];
      assert l.all[start].sequence == start + 1;
      assert batch[0] != all[start];
    }
  }

  /** An answered batch continues its start exactly when no trim had passed it; an empty one leaves the cursor alone. */
  lemma AnswerFollowsIff(c: Call, cursor: nat, retain: int, all: seq<Event>)
    requires ValidCall(c, all) && cursor <= |all| && retain >= 1 && Answer(c, cursor, retain).Ok?
    ensures var start, batch := StartOf(c, cursor, retain), Answer(c, cursor, retain).value;
            && start <= |all| && (cursor > 0 || batch == [] ==> start == cursor)
            && (Follows(all, start, batch) <==> c.rows.trimmed <= start)
            && (Follows(all, start, batch) ==> NextCursor(start, batch) == start + |batch|)
  {
    var start, batch := StartOf(c, cursor, retain), Answer(c, cursor, retain).value;
    SelectFollowsIff(c.rows, all, start, c.limit);
    if Follows(all, start, batch) && batch != [] {
      assert batch[|batch| - 1] == c.rows.all[start + |batch| - 1];
    }
  }

  /** Without a cursor the stream begins right after the larger of what was trimmed and what retention dropped. */
  lemma StartsAtOldestRetained(c: Call, retain: int, all: seq<Event>)
    requires ValidCall(c, all) && retain >= 1 && c.rows.trimmed <= StartOf(c, 0, retain)
    requires Answer(c, 0, retain).Ok? && Answer(c, 0, retain).value != []
    ensures Answer(c, 0, retain).value[0].sequence == Max(c.window.trimmed, |c.window.all| - retain) + 1
  {
    assert Answer(c, 0, retain).value[0] == c.rows.all[StartOf(c, 0, retain)];
  }

  /** A trim between the two statements leaves a hole, and the call returns it as a good batch. */
  lemma TrimLeavesHole()
    ensures exists c: Call, all: seq<Event> ::
              && ValidCall(c, all) && Answer(c, 1, 10).Ok?
              && !Follows(all, 1, Answer(c, 1, 10).value)
  {
    var log := Log([Event(1, "", true), Event(2, "", true), Event(3, "", true)], 0);
    var c := Call(log, Step(log, Trim(2)), 10);
    assert Select(c.rows, 1, 10) == [Event(3, "", true)];
    assert ValidCall(c, log.all) && Answer(c, 1, 10) == Ok([Event(3, "", true)]);
    AnswerFollowsIff(c, 1, 10, log.all);
  }

  // ---- Following the cursor --------------------------------------------------------------------

  /** A reader that follows its cursor from call to call, up to the first call that reports a failure. */
  function Follow(calls: seq<Call>, cursor: nat, retain: int): seq<Event>
    decreases |calls|
  {
    if calls == [] || Answer(calls[0], cursor, retain).Err? then []
    else
      var batch := Answer(calls[0], cursor, retain).value;
      batch + Follow(calls[1..], NextCursor(cursor, batch), retain)
  }

  /** Where its events begin: after the cursor, or, for cursor 0, at the floor of the first call that had any. */
  function Origin(calls: seq<Call>, cursor: nat, retain: int): nat
    decreases |calls|
  {
    if cursor > 0 || calls == [] || Answer(calls[0], cursor, retain).Err? then cursor
    else if Answer(calls[0], cursor, retain).value == [] then Origin(calls[1..], cursor, retain)
    else StartOf(calls[0], cursor, retain)
  }

  /** No answered call lost rows above its start to a trim between its statements. */
  predicate Undisturbed(calls: seq<Call>, cursor: nat, retain: int)
    decreases |calls|
  {
    calls != [] && Answer(calls[0], cursor, retain).Ok? ==>
      && calls[0].rows.trimmed <= StartOf(calls[0], cursor, retain)
      && Undisturbed(calls[1..], NextCursor(cursor, Answer(calls[0], cursor, retain).value), retain)
  }

  ghost predicate ValidCalls(calls: seq<Call>, all: seq<Event>) {
    forall i :: 0 <= i < |calls| ==> ValidCall(calls[i], all)
  }

  lemma FollowsJoinIff(all: seq<Event>, start: nat, batch: seq<Event>, rest: seq<Event>)
    ensures Follows(all, start, batch + rest) <==> Follows(all, start, batch) && Follows(all, start + |batch|, rest)
  {
    var both := batch + rest;
    assert batch == both[..|batch|] && rest == both[|batch|..];
    if Follows(all, start, both) {
      assert both[..|batch|] == all[start..start + |batch|];
      assert both[|batch|..] == all[start + |batch|..start + |both|];
    }
  }

  lemma PartsJoinIff(all: seq<Event>, start: nat, batch: seq<Event>, whole: bool, rest: seq<Event>, origin: nat, tailOrigin: nat)
    requires Follows(all, start, batch) <==> whole
    requires if batch == [] then whole && origin == tailOrigin else origin == start && (whole ==> tailOrigin == start + |batch|)
    ensures Follows(all, origin, batch + rest) <==> whole && Follows(all, tailOrigin, rest)
  {
    if batch == [] { assert batch + rest == rest; } else { FollowsJoinIff(all, start, batch, rest); }
  }

  /** What one call contributes: an empty batch nothing, any other a first part that must itself be gap-free. */
  lemma FollowStep(calls: seq<Call>, cursor: nat, retain: int, all: seq<Event>)
    requires ValidCalls(calls, all) && cursor <= |all| && retain >= 1
    requires calls != [] && Answer(calls[0], cursor, retain).Ok?
    ensures var batch := Answer(calls[0], cursor, retain).value;
            var next := NextCursor(cursor, batch);
            var rest := Follow(calls[1..], next, retain);
            var whole := calls[0].rows.trimmed <= StartOf(calls[0], cursor, retain);
            && (whole ==> next <= |all|)
            && (Follows(all, Origin(calls, cursor, retain), Follow(calls, cursor, retain)) <==>
                  whole && Follows(all, Origin(calls[1..], next, retain), rest))
  {
    var start, batch := StartOf(calls[0], cursor, retain), Answer(calls[0], cursor, retain).value;
    var next := NextCursor(cursor, batch);
    assert ValidCall(calls[0], all);
    AnswerFollowsIff(calls[0], cursor, retain, all);
    PartsJoinIff(all, start, batch, calls[0].rows.trimmed <= start, Follow(calls[1..], next, retain),
                 Origin(calls, cursor, retain), Origin(calls[1..], next, retain));
  }

  /**
   Gap-free resumption, exactly: the events of all answered calls together are the consecutive ones
   after the origin if and only if no trim slipped between an answered call's statements.
   */
  lemma {:induction false} FollowIsGapFreeIff(calls: seq<Call>, cursor: nat, retain: int, all: seq<Event>)
    requires ValidCalls(calls, all) && cursor <= |all| && retain >= 1
    ensures Follows(all, Origin(calls, cursor, retain), Follow(calls, cursor, retain)) <==> Undisturbed(calls, cursor, retain)
    decreases |calls|
  {
    if calls != [] && Answer(calls[0], cursor, retain).Ok? {
      FollowStep(calls, cursor, retain, all);
      if calls[0].rows.trimmed <= StartOf(calls[0], cursor, retain) {
        FollowIsGapFreeIff(calls[1..], NextCursor(cursor, Answer(calls[0], cursor, retain).value), retain, all);
      }
    }
  }

  ghost predicate NoTrimInside(calls: seq<Call>) {
    forall i :: 0 <= i < |calls| ==> calls[i].rows.trimmed == calls[i].window.trimmed
  }

  /** In particular whenever no call is trimmed between its statements, however much is trimmed between calls. */
  lemma {:induction false} ResumptionIsGapFree(calls: seq<Call>, cursor: nat, retain: int, all: seq<Event>)
    requires ValidCalls(calls, all) && cursor <= |all| && retain >= 1 && NoTrimInside(calls)
    ensures Undisturbed(calls, cursor, retain)
    ensures Follows(all, Origin(calls, cursor, retain), Follow(calls, cursor, retain))
    decreases |calls|
  {
    if calls != [] && Answer(calls[0], cursor, retain).Ok? {
      assert ValidCall(calls[0], all);
      FollowStep(calls, cursor, retain, all);
      ResumptionIsGapFree(calls[1..], NextCursor(cursor, Answer(calls[0], cursor, retain).value), retain, all);
    }
    FollowIsGapFreeIff(calls, cursor, retain, all);
  }

  /** The selected rows count up from the cursor or from the first row still there. */
  lemma SelectCountsUp(l: Log, after: nat, limit: nat)
    requires ValidLog(l)
    ensures forall i :: 0 <= i < |Select(l, after, limit)| ==> Select(l, after, limit)[i].sequence == Max(after, l.trimmed) + i + 1
    ensures forall e :: e in Select(l, after, limit) ==> e in l.all
  {
  }

  /** The ordering loop: on rows a valid log returns, it refuses exactly malformed events. */
  method CheckRows(rows: seq<Event>, start: int, ghost base: int) returns (ok: bool)
    requires start <= base && forall i :: 0 <= i < |rows| ==> rows[i].sequence == base + i + 1
    ensures ok <==> forall e :: e in rows ==> e.wellFormed
  {
    var previous := start;
    for i := 0 to |rows|
      invariant previous == if i == 0 then start else base + i
      invariant forall k :: 0 <= k < i ==> rows[k].wellFormed
    {
      if !rows[i].wellFormed || rows[i].sequence <= previous { return false; }
      previous := rows[i].sequence;
    }
    ok := true;
  }

  /** A batch is returned whole or refused; it continues the cursor exactly when the rows still did. */
  method Deliver(ghost l: Log, start: nat, limit: nat, rows: seq<Event>) returns (r: Result<seq<Event>, Failure>)
    requires ValidLog(l) && limit > 0 && rows == Select(l, start, limit)
    ensures r == if forall e :: e in rows ==> e.wellFormed then Ok(rows) else Err(Ordering)
    ensures Continues(l, start, limit, rows) <==> l.trimmed <= start
  {
    SelectContinuesIff(l, start, limit);
    SelectCountsUp(l, start, limit);
    var ordered := CheckRows(rows, start, Max(start, l.trimmed));
    r := if ordered then Ok(rows) else Err(Ordering);
  }

  method RetentionFloor(oldest: int, latest: int, retain: int) returns (floor: nat)
    ensures floor == Floor(oldest, latest, retain)
  {
    floor := 0;
    if latest - retain > 0 { floor := latest - retain; }
    var physical := oldest - 1;
    if physical > floor { floor := physical; }
  }

  class RunEventStream {
    const retain: int
    var known: bool
    var log: Log

    ghost predicate Valid()
      reads this
    {
      ValidLog(log) && retain >= 1
    }

    constructor (retain: int)
      requires retain >= 1
      ensures Valid() && this.retain == retain && !known && log == Log([], 0)
    {
      this.retain := retain;
      known := false;
      log := Log([], 0);
    }

    /** `between` happens between the window statement and the row statement, `again` before a second read. */
    method Events(after: int, limit: int, between: seq<Action>, again: seq<Action>) returns (r: Result<seq<Event>, Failure>)
      requires Valid()
      modifies `log
      ensures Valid() && Later(old(log), log)
      ensures log == if after < 0 || limit < 1 || limit > 256 || !known then old(log)
                     else if after == 0 && Floor(Oldest(old(log)), Latest(old(log)), retain) > 0 then Run(Run(old(log), between), again)
                     else Run(old(log), between)
      ensures r == Err(Invalid) <==> after < 0 || limit < 1 || limit > 256
      ensures r == Err(NotFound) <==> after >= 0 && 1 <= limit <= 256 && !known
      ensures after >= 0 && 1 <= limit <= 256 && known ==>
                var floor := Floor(Oldest(old(log)), Latest(old(log)), retain);
                var start := Max(after, floor);
                && (r == Err(CursorGone) <==> 0 < after < floor)
                && (r == Err(Ordering) <==> !(0 < after < floor) && exists e :: e in Select(log, start, limit) && !e.wellFormed)
                && r == Answer(Call(old(log), log, limit), after, retain)
                && (r.Ok? ==> r.value == Select(log, start, limit) && (Continues(log, start, limit, r.value) <==> log.trimmed <= start))
    {
      if after < 0 || limit < 1 || limit > 256 { return Err(Invalid); }
      if !known { return Err(NotFound); }
      var oldest, latest := Oldest(log), Latest(log);
      RunIsLater(log, between);
      log := Run(log, between);
      var rows := Select(log, after, limit);
      var floor := RetentionFloor(oldest, latest, retain);
      if after == 0 && floor > 0 {
        RunIsLater(log, again);
        log := Run(log, again);
        rows := Select(log, floor, limit);
      } else if after < floor {
        return Err(CursorGone);
      }
      var previous := after;
      if previous < floor { previous := floor; }
      r := Deliver(log, previous, limit, rows);
    }
  }
}
