/**
 Resource extensions: operators add to the consumable grants and the deadline of a live run. Items are
 append-only, balances are credited in the same transaction, and a key identifies its content.
 */
module ExtensionLedger {
  import opened Base
  import opened Lexicographic
  import L = RunLifecycle

  datatype Addition = Addition(name: string, unit: string, coefficient: int, scale: int)

  datatype Extension = Extension(id: nat, run: nat, actor: nat, decision: nat, key: string, reason: string, approval: string,
                                 additions: seq<Addition>, deadlineSeconds: int, createdAt: int)

  // ---- Canonical requests ----------------------------------------------------------------------

  ghost predicate Sorted(s: seq<Addition>) {
    forall i, j :: 0 <= i < j < |s| ==> Less(s[i].name, s[j].name)
  }

  predicate UniqueNames(s: seq<Addition>) {
    forall i, j :: 0 <= i < j < |s| ==> s[i].name != s[j].name
  }

  function Insert(a: Addition, s: seq<Addition>): seq<Addition> {
    if s == [] || Less(a.name, s[0].name) then [a] + s else [s[0]] + Insert(a, s[1..])
  }

  function SortByName(s: seq<Addition>): seq<Addition> {
    if s == [] then [] else Insert(s[0], SortByName(s[1..]))
  }

  lemma {:induction false} InsertAdds(a: Addition, s: seq<Addition>)
    ensures multiset(Insert(a, s)) == multiset(s) + multiset{a}
    ensures forall x :: x in Insert(a, s) ==> x == a || x in s
  {
    if s != [] && !Less(a.name, s[0].name) {
      InsertAdds(a, s[1..]);
      assert s == [s[0]] + s[1..];
    }
  }

  lemma SortedCons(first: Addition, rest: seq<Addition>)
    requires Sorted(rest) && forall x :: x in rest ==> Less(first.name, x.name)
    ensures Sorted([first] + rest)
  {
  }

  lemma {:induction false} InsertIsSorted(a: Addition, s: seq<Addition>)
    requires Sorted(s) && forall x :: x in s ==> x.name != a.name
    ensures Sorted(Insert(a, s))
  {
    if s == [] {
    } else if Less(a.name, s[0].name) {
      forall x | x in s ensures Less(a.name, x.name) {
        var j :| 0 <= j < |s| && s[j] == x;
        if j > 0 { LessTransitive(a.name, s[0].name, x.name); }
      }
      SortedCons(a, s);
    } else {
      InsertIsSorted(a, s[1..]);
      InsertAdds(a, s[1..]);
      assert s[0] in s;
      LessTotal(a.name, s[0].name);
      SortedCons(s[0], Insert(a, s[1..]));
    }
  }

  lemma {:induction false} SortByNameIsSorted(s: seq<Addition>)
    requires UniqueNames(s)
    ensures Sorted(SortByName(s)) && multiset(SortByName(s)) == multiset(s)
  {
    if s != [] {
      var rest := SortByName(s[1..]);
      SortByNameIsSorted(s[1..]);
      assert s == [s[0]] + s[1..];
      forall x | x in rest ensures x.name != s[0].name {
        assert x in multiset(rest);
        assert x in s[1..];
        var j :| 0 <= j < |s[1..]| && s[1..][j] == x;
      }
      InsertIsSorted(s[0], rest);
      InsertAdds(s[0], rest);
    }
  }

  function Names(s: seq<Addition>): seq<string> {
    seq(|s|, i requires 0 <= i < |s| => s[i].name)
  }

  lemma SameElements(s: seq<Addition>, t: seq<Addition>)
    requires multiset(s) == multiset(t)
    ensures forall x :: x in s <==> x in t
  {
    forall x ensures x in s <==> x in t {
      assert x in s <==> x in multiset(s);
      assert x in t <==> x in multiset(t);
    }
  }

  lemma NamesCorrespond(s: seq<Addition>, t: seq<Addition>)
    requires forall x :: x in s ==> x in t
    ensures forall n :: n in Names(s) ==> n in Names(t)
  {
    forall n | n in Names(s) ensures n in Names(t) {
      var i :| 0 <= i < |s| && Names(s)[i] == n;
      assert s[i] in t;
      var j :| 0 <= j < |t| && t[j] == s[i];
      assert Names(t)[j] == n;
    }
  }

  /** One sorted list per set of additions: the order in which they were given is forgotten. */
  lemma SortedIsCanonical(s: seq<Addition>, t: seq<Addition>)
    requires Sorted(s) && Sorted(t) && multiset(s) == multiset(t)
    ensures s == t
  {
    SameElements(s, t);
    NamesCorrespond(s, t);
    NamesCorrespond(t, s);
    StrictlyAscendingUnique(Names(s), Names(t));
    assert |s| == |Names(s)| == |t|;
    forall i | 0 <= i < |s| ensures s[i] == t[i] {
      assert s[i] in t;
      var j :| 0 <= j < |t| && t[j] == s[i];
      assert Names(s)[i] == Names(t)[i];
      LessTotal(t[i].name, t[j].name);
    }
  }

  predicate WellFormed(e: Extension) {
    && e.id != 0 && e.run != 0 && e.actor != 0 && e.decision != 0
    && (e.additions != [] || e.deadlineSeconds != 0) && 0 <= e.deadlineSeconds <= 31536000
    && e.createdAt != 0 && |e.additions| <= 100
    && (forall a :: a in e.additions ==> a.coefficient > 0) && UniqueNames(e.additions)
  }

  /** Validation either refuses the request or returns it with its additions in canonical order. */
  function Validate(e: Extension): Option<Extension> {
    if WellFormed(e) then Some(e.(additions := SortByName(e.additions))) else None
  }

  /** Which requests pass: up to a hundred positive additions of distinct names, or up to a year, by named parties. */
  lemma AcceptedIff(e: Extension)
    ensures Validate(e).Some? <==>
            && e.id != 0 && e.run != 0 && e.actor != 0 && e.decision != 0 && e.createdAt != 0
            && 0 <= e.deadlineSeconds <= 365 * 24 * 60 * 60 && |e.additions| <= 100 && |e.additions| + e.deadlineSeconds > 0
            && (forall i :: 0 <= i < |e.additions| ==> e.additions[i].coefficient > 0)
            && (forall i, j :: 0 <= i < |e.additions| && 0 <= j < |e.additions| && e.additions[i].name == e.additions[j].name ==> i == j)
  {
    assert forall a :: a in e.additions <==> exists i :: 0 <= i < |e.additions| && e.additions[i] == a;
    if UniqueNames(e.additions) {
      forall i, j | 0 <= i < |e.additions| && 0 <= j < |e.additions| && e.additions[i].name == e.additions[j].name ensures i == j {
        assert !(i < j) && !(j < i);
      }
    }
  }

  /** What the content digest covers: neither the request's ID nor its time. */
  datatype Digest = Digest(run: nat, reason: string, approval: string, items: seq<Addition>, deadline: int)

  function ContentDigest(e: Extension): Digest {
    Digest(e.run, e.reason, e.approval, e.additions, e.deadlineSeconds)
  }

  /** The same request, possibly under a new ID, at a later time and with its additions in another order. */
  ghost predicate SameRequest(e: Extension, f: Extension) {
    && e.run == f.run && e.actor == f.actor && e.key == f.key && e.reason == f.reason && e.approval == f.approval
    && e.deadlineSeconds == f.deadlineSeconds && multiset(e.additions) == multiset(f.additions)
  }

  /** Two accepted requests with one key have equal digests exactly when they are the same request. */
  lemma DigestIffSameRequest(e: Extension, f: Extension)
    requires WellFormed(e) && WellFormed(f) && e.actor == f.actor && e.key == f.key
    ensures ContentDigest(Validate(e).value) == ContentDigest(Validate(f).value) <==> SameRequest(e, f)
  {
    SortByNameIsSorted(e.additions);
    SortByNameIsSorted(f.additions);
    if multiset(e.additions) == multiset(f.additions) {
      SortedIsCanonical(SortByName(e.additions), SortByName(f.additions));
    }
  }

  // ---- The ledger ------------------------------------------------------------------------------

  datatype Grant = Grant(consumable: bool, unit: string, scale: int, original: int)

  datatype Item = Item(extension: nat, name: string, added: int, prior: int, next: int)

  /** `moved` is the net amount other operations have taken out of `available`. */
  datatype Balance = Balance(available: int, committed: int, version: int, moved: int)

  datatype Slot = Slot(actor: nat, key: string)

  datatype Row = Row(id: nat, run: nat, actor: nat, digest: Digest, priorVersion: int, newVersion: int,
                     priorDeadline: Option<int>, newDeadline: Option<int>, resumed: bool)

  datatype Account = Account(version: int, lifecycle: L.Lifecycle, deadline: Option<int>, requester: nat,
                             grants: map<string, Grant>, items: seq<Item>, balances: map<string, Balance>,
                             openingVersion: int, openingDeadline: Option<int>, extensions: seq<Row>)

  datatype World = World(accounts: map<nat, Account>, replays: map<Slot, Row>)

  datatype Outcome = Extended(row: Row) | Replayed(stored: Row) | Refused

  function Added(items: seq<Item>, name: string): int
    decreases |items|
  {
    if items == [] then 0
    else
      var last := items[|items| - 1];
      Added(items[..|items| - 1], name) + if last.name == name then last.added else 0
  }

  /** One addition: check the grant, append the item, credit the balance. None is any error. */
  function Credit(a: Account, extension: nat, add: Addition): Option<Account> {
    if add.name !in a.grants then None
    else
      var g := a.grants[add.name];
      var previous := Added(a.items, add.name);
      if !g.consumable || g.unit != add.unit || g.scale != add.scale || !FitsInt64(previous) then None
      else if g.original > MaxInt64 - previous || g.original + previous > MaxInt64 - add.coefficient then None
      else if add.name !in a.balances then None
      else
        var b := a.balances[add.name];
        var prior := g.original + previous;
        if b.available > MaxInt64 - add.coefficient || b.version >= MaxInt64 || b.available + add.coefficient + b.committed > MaxInt64 then None
        else
          Some(a.(items := a.items + [Item(extension, add.name, add.coefficient, prior, prior + add.coefficient)],
                  balances := a.balances[add.name := b.(available := b.available + add.coefficient, version := b.version + 1)]))
  }

  function CreditAll(a: Account, extension: nat, adds: seq<Addition>): Option<Account>
    decreases |adds|
  {
    if adds == [] then Some(a)
    else
      var before := CreditAll(a, extension, adds[..|adds| - 1]);
      if before.None? then None else Credit(before.value, extension, adds[|adds| - 1])
  }

  const Second := 1_000_000_000

  function NewDeadline(deadline: Option<int>, seconds: int): Option<Option<int>> {
    if seconds == 0 then Some(deadline)
    else if deadline.None? || seconds > MaxInt64 / Second then None
    else Some(Some(deadline.value + seconds * Second))
  }

  function Resume(l: L.Lifecycle, at: int): Option<L.Lifecycle> {
    if l.state != L.PausedForBudget then Some(l.(updatedAt := at))
    else
      var t := L.Transition(L.Lifecycle(L.PausedForBudget, l.version, l.updatedAt, None), L.Command(L.Running, L.Governor, l.version, at));
      if t.Ok? then Some(t.value.next) else None
  }

  /** The transaction's effect on the run's account, after the replay check. */
  function ApplyTo(a: Account, e: Extension): Option<Account> {
    if a.requester == e.actor || L.Terminal(a.lifecycle.state) || a.version == MaxInt64 then None
    else
      var deadline := NewDeadline(a.deadline, e.deadlineSeconds);
      var lifecycle := Resume(a.lifecycle, e.createdAt);
      var credited := CreditAll(a, e.id, e.additions);
      if deadline.None? || lifecycle.None? || credited.None? then None
      else Some(credited.value.(version := a.version + 1, deadline := deadline.value, lifecycle := lifecycle.value,
                                extensions := a.extensions + [RowOf(a, e, deadline.value)]))
  }

  function RowOf(a: Account, e: Extension, deadline: Option<int>): Row {
    Row(e.id, e.run, e.actor, ContentDigest(e), a.version, a.version + 1, a.deadline, deadline, a.lifecycle.state == L.PausedForBudget)
  }

  /** The extension transaction; `enabled` says whether the acting principal exists and is not disabled. */
  function Extend(w: World, candidate: Extension, enabled: bool): (World, Outcome) {
    var valid := Validate(candidate);
    if valid.None? then (w, Refused)
    else
      var e := valid.value;
      var slot := Slot(e.actor, e.key);
      if slot in w.replays then
        (w, if w.replays[slot].digest == ContentDigest(e) then Replayed(w.replays[slot]) else Refused)
      else if !enabled || e.run !in w.accounts || ApplyTo(w.accounts[e.run], e).None? then (w, Refused)
      else
        var account := ApplyTo(w.accounts[e.run], e).value;
        var row := account.extensions[|account.extensions| - 1];
        (World(w.accounts[e.run := account], w.replays[slot := row]), Extended(row))
  }

  datatype Action =
    | Extending(extension: Extension, enabled: bool)
    | Opening(run: nat, version: int, lifecycle: L.Lifecycle, deadline: Option<int>, requester: nat, grants: map<string, Grant>)
    | Moving(run: nat, name: string, available: int, committed: int)
    | Transitioning(run: nat, command: L.Command)

  predicate ValidGrants(grants: map<string, Grant>) {
    forall n :: n in grants ==> 0 <= grants[n].original <= MaxInt64
  }

  function Step(w: World, a: Action): World {
    match a
    case Extending(e, enabled) => Extend(w, e, enabled).0
    case Opening(run, version, lifecycle, deadline, requester, grants) =>
      if run in w.accounts || !(1 <= version <= MaxInt64) || !L.Valid(lifecycle) || lifecycle.version > MaxInt64 || !ValidGrants(grants) then w
      else
        var balances := map n | n in grants :: Balance(grants[n].original, 0, 1, 0);
        w.(accounts := w.accounts[run := Account(version, lifecycle, deadline, requester, grants, [], balances, version, deadline, [])])
    case Moving(run, name, available, committed) =>
      if run !in w.accounts || name !in w.accounts[run].balances || available < 0 || committed < 0 || available + committed > MaxInt64 then w
      else
        var b := w.accounts[run].balances[name];
        var moved := Balance(available, committed, b.version + 1, b.moved + b.available - available);
        w.(accounts := w.accounts[run := w.accounts[run].(balances := w.accounts[run].balances[name := moved])])
    case Transitioning(run, command) =>
      if run !in w.accounts then w
      else w.(accounts := w.accounts[run := w.accounts[run].(lifecycle := L.Step(w.accounts[run].lifecycle, command))])
  }

  function Run(w: World, actions: seq<Action>): World
    decreases |actions|
  {
    if actions == [] then w else Run(Step(w, actions[0]), actions[1..])
  }

  const Empty := World(map[], map[])

  // ---- Invariant -------------------------------------------------------------------------------

  /** Item i starts from the original grant plus everything added to its dimension before it. */
  ghost predicate ItemInv(a: Account, i: int)
    requires 0 <= i < |a.items|
  {
    var item := a.items[i];
    && item.name in a.grants && a.grants[item.name].consumable
    && item.prior == a.grants[item.name].original + Added(a.items[..i], item.name)
    && item.added > 0 && item.next == item.prior + item.added && item.next <= MaxInt64
  }

  /** What is available plus what others took equals the original grant plus all additions. */
  ghost predicate BalanceInv(a: Account, name: string) {
    name in a.grants && name in a.balances &&
    var b := a.balances[name];
    && b.available >= 0 && b.committed >= 0 && b.available + b.committed <= MaxInt64
    && b.available + b.moved == a.grants[name].original + Added(a.items, name)
  }

  ghost predicate CreditInv(a: Account) {
    && ValidGrants(a.grants)
    && (forall i :: 0 <= i < |a.items| ==> ItemInv(a, i))
    && (forall n :: n in a.balances ==> BalanceInv(a, n))
  }

  predicate NotEarlier(d: Option<int>, e: Option<int>) {
    (d.Some? <==> e.Some?) && (d.Some? ==> d.value <= e.value)
  }

  function VersionAt(a: Account, i: int): int { a.openingVersion + i }

  function DeadlineAt(a: Account, i: int): Option<int>
    requires 0 <= i <= |a.extensions|
  {
    if i == 0 then a.openingDeadline else a.extensions[i - 1].newDeadline
  }

  /** A deadline, in nanoseconds, later by so many seconds. */
  function MovedBy(deadline: Option<int>, seconds: int): Option<int> {
    if deadline.None? then None else Some(deadline.value + seconds * 1_000_000_000)
  }

  /** Extension i raises the version by one and moves the deadline by exactly the seconds it was granted. */
  ghost predicate RowInv(a: Account, i: int)
    requires 0 <= i < |a.extensions|
  {
    var r := a.extensions[i];
    && r.priorVersion == VersionAt(a, i) && r.newVersion == r.priorVersion + 1
    && r.priorDeadline == DeadlineAt(a, i) && r.newDeadline == MovedBy(r.priorDeadline, r.digest.deadline)
    && r.digest.deadline >= 0 && (r.priorDeadline.None? ==> r.digest.deadline == 0)
    && r.actor != a.requester
  }

  ghost predicate AccountInv(a: Account) {
    && CreditInv(a) && L.Valid(a.lifecycle) && a.lifecycle.version <= MaxInt64 && a.version <= MaxInt64
    && a.version == VersionAt(a, |a.extensions|) && a.deadline == DeadlineAt(a, |a.extensions|)
    && (forall i :: 0 <= i < |a.extensions| ==> RowInv(a, i))
  }

  ghost predicate Inv(w: World) {
    forall run :: run in w.accounts ==> AccountInv(w.accounts[run])
  }

  lemma AddedAppend(items: seq<Item>, item: Item, name: string)
    ensures Added(items + [item], name) == Added(items, name) + if item.name == name then item.added else 0
  {
  }

  /** The running total of a dimension never exceeds what its last item recorded, so it fits 64 bits. */
  lemma {:induction false} TotalFits(a: Account, name: string, k: int)
    requires 0 <= k <= |a.items| && name in a.grants && ValidGrants(a.grants)
    requires forall i :: 0 <= i < |a.items| ==> ItemInv(a, i)
    ensures 0 <= Added(a.items[..k], name) && a.grants[name].original + Added(a.items[..k], name) <= MaxInt64
    decreases k
  {
    if k > 0 {
      TotalFits(a, name, k - 1);
      assert a.items[..k][..k - 1] == a.items[..k - 1];
      assert ItemInv(a, k - 1);
    }
  }

  lemma CreditKeeps(a: Account, extension: nat, add: Addition)
    requires CreditInv(a) && add.coefficient > 0 && Credit(a, extension, add).Some?
    ensures CreditInv(Credit(a, extension, add).value)
    ensures var c := Credit(a, extension, add).value; c == a.(items := c.items, balances := c.balances)
  {
    var c := Credit(a, extension, add).value;
    var item := c.items[|a.items|];
    forall i | 0 <= i < |c.items| ensures ItemInv(c, i) {
      assert c.items[..i] == a.items[..i];
      if i < |a.items| { assert ItemInv(a, i); } else { assert c.items[..i] == a.items; }
    }
    forall n | n in c.balances ensures BalanceInv(c, n) {
      assert BalanceInv(a, n);
      AddedAppend(a.items, item, n);
    }
  }

  lemma {:induction false} CreditAllKeeps(a: Account, extension: nat, adds: seq<Addition>)
    requires CreditInv(a) && (forall x :: x in adds ==> x.coefficient > 0) && CreditAll(a, extension, adds).Some?
    ensures CreditInv(CreditAll(a, extension, adds).value)
    ensures var c := CreditAll(a, extension, adds).value; c == a.(items := c.items, balances := c.balances)
    decreases |adds|
  {
    if adds != [] {
      var n := |adds| - 1;
      assert adds[n] in adds;
      CreditAllKeeps(a, extension, adds[..n]);
      CreditKeeps(CreditAll(a, extension, adds[..n]).value, extension, adds[n]);
    }
  }

  lemma CreditInvFrame(a: Account, b: Account)
    requires CreditInv(a) && b.grants == a.grants && b.items == a.items && b.balances == a.balances
    ensures CreditInv(b)
  {
    forall i | 0 <= i < |b.items| ensures ItemInv(b, i) { assert ItemInv(a, i); }
    forall n | n in b.balances ensures BalanceInv(b, n) { assert BalanceInv(a, n); }
  }

  lemma RowsFrame(a: Account, b: Account)
    requires b.openingVersion == a.openingVersion && b.openingDeadline == a.openingDeadline && b.requester == a.requester
    requires |a.extensions| <= |b.extensions| && b.extensions[..|a.extensions|] == a.extensions
    requires forall i :: 0 <= i < |a.extensions| ==> RowInv(a, i)
    ensures forall i :: 0 <= i < |a.extensions| ==> RowInv(b, i)
    ensures DeadlineAt(b, |a.extensions|) == DeadlineAt(a, |a.extensions|)
  {
    assert forall i :: 0 <= i < |a.extensions| ==> b.extensions[i] == a.extensions[i];
    forall i | 0 <= i < |a.extensions| ensures RowInv(b, i) { assert RowInv(a, i); }
  }

  lemma ApplyKeeps(a: Account, e: Extension)
    requires AccountInv(a) && ApplyTo(a, e).Some? && e.deadlineSeconds >= 0 && e.createdAt != 0
    requires forall x :: x in e.additions ==> x.coefficient > 0
    ensures AccountInv(ApplyTo(a, e).value)
  {
    var b := ApplyTo(a, e).value;
    CreditAllKeeps(a, e.id, e.additions);
    CreditInvFrame(CreditAll(a, e.id, e.additions).value, b);
    RowsFrame(a, b);
    assert RowInv(b, |a.extensions|);
  }

  lemma ValidateKeepsAmounts(e: Extension)
    requires WellFormed(e)
    ensures forall x :: x in Validate(e).value.additions ==> x.coefficient > 0
  {
    SortByNameIsSorted(e.additions);
    SameElements(e.additions, SortByName(e.additions));
  }

  lemma MovingKeeps(a: Account, name: string, b: Balance)
    requires AccountInv(a) && name in a.balances
    requires b.available >= 0 && b.committed >= 0 && b.available + b.committed <= MaxInt64
    requires b.available + b.moved == a.balances[name].available + a.balances[name].moved
    ensures AccountInv(a.(balances := a.balances[name := b]))
  {
    var c := a.(balances := a.balances[name := b]);
    forall i | 0 <= i < |c.items| ensures ItemInv(c, i) { assert ItemInv(a, i); }
    forall n | n in c.balances ensures BalanceInv(c, n) { assert BalanceInv(a, n); }
    RowsFrame(a, c);
  }

  lemma LifecycleKeeps(a: Account, l: L.Lifecycle)
    requires AccountInv(a) && L.Valid(l) && l.version <= MaxInt64
    ensures AccountInv(a.(lifecycle := l))
  {
    CreditInvFrame(a, a.(lifecycle := l));
    RowsFrame(a, a.(lifecycle := l));
  }

  lemma OpeningKeeps(a: Action)
    requires a.Opening? && 1 <= a.version <= MaxInt64 && L.Valid(a.lifecycle) && a.lifecycle.version <= MaxInt64 && ValidGrants(a.grants)
    ensures var balances := map n | n in a.grants :: Balance(a.grants[n].original, 0, 1, 0);
            AccountInv(Account(a.version, a.lifecycle, a.deadline, a.requester, a.grants, [], balances, a.version, a.deadline, []))
  {
  }

  lemma ExtendingKeeps(w: World, candidate: Extension, enabled: bool)
    requires Inv(w) && Extend(w, candidate, enabled).1.Extended?
    ensures Inv(Extend(w, candidate, enabled).0)
  {
    var e := Validate(candidate).value;
    ValidateKeepsAmounts(candidate);
    assert AccountInv(w.accounts[e.run]);
    ApplyKeeps(w.accounts[e.run], e);
  }

  lemma StepKeepsInv(w: World, a: Action)
    requires Inv(w)
    ensures Inv(Step(w, a))
  {
    if Step(w, a) == w {
    } else if a.Extending? {
      ExtendingKeeps(w, a.extension, a.enabled);
    } else if a.Opening? {
      OpeningKeeps(a);
    } else if a.Moving? {
      assert AccountInv(w.accounts[a.run]);
      var b := w.accounts[a.run].balances[a.name];
      MovingKeeps(w.accounts[a.run], a.name, Balance(a.available, a.committed, b.version + 1, b.moved + b.available - a.available));
    } else {
      assert AccountInv(w.accounts[a.run]);
      LifecycleKeeps(w.accounts[a.run], L.Step(w.accounts[a.run].lifecycle, a.command));
    }
  }

  lemma {:induction false} RunKeepsInv(w: World, actions: seq<Action>)
    requires Inv(w)
    ensures Inv(Run(w, actions))
    decreases |actions|
  {
    if actions != [] {
      StepKeepsInv(w, actions[0]);
      RunKeepsInv(Step(w, actions[0]), actions[1..]);
    }
  }

  // ---- Theorems over whole runs ----------------------------------------------------------------

  lemma {:induction false} AddedUnchanged(items: seq<Item>, name: string, i: int, j: int)
    requires 0 <= i <= j <= |items| && forall k :: i <= k < j ==> items[k].name != name
    ensures Added(items[..j], name) == Added(items[..i], name)
    decreases j - i
  {
    if i < j {
      assert items[..j][..j - 1] == items[..j - 1];
      AddedUnchanged(items, name, i, j - 1);
    }
  }

  /** The items of a dimension form a chain: each starts where the previous one ended, the first at the original grant. */
  lemma ItemsChain(actions: seq<Action>, run: nat, i: int, j: int)
    requires run in Run(Empty, actions).accounts
    requires var items := Run(Empty, actions).accounts[run].items;
             -1 <= i < j < |items| && forall k :: i < k < j ==> items[k].name != items[j].name
    ensures var a := Run(Empty, actions).accounts[run];
            && a.items[j].name in a.grants
            && (i == -1 ==> a.items[j].prior == a.grants[a.items[j].name].original)
            && (i >= 0 && a.items[i].name == a.items[j].name ==> a.items[j].prior == a.items[i].next)
  {
    RunKeepsInv(Empty, actions);
    var a := Run(Empty, actions).accounts[run];
    assert AccountInv(a) && ItemInv(a, j);
    AddedUnchanged(a.items, a.items[j].name, i + 1, j);
    if i >= 0 {
      assert ItemInv(a, i);
      assert a.items[..i + 1][..i] == a.items[..i];
    }
  }

  /** Nothing is lost or created: every grant is its original plus its additions, within 64 bits, and so is its balance. */
  lemma GrantsAreConserved(actions: seq<Action>, run: nat, name: string)
    requires run in Run(Empty, actions).accounts && name in Run(Empty, actions).accounts[run].grants
    ensures var a := Run(Empty, actions).accounts[run];
            var total := a.grants[name].original + Added(a.items, name);
            && 0 <= total <= MaxInt64
            && (name in a.balances ==> a.balances[name].available + a.balances[name].moved == total)
            && (forall i :: 0 <= i < |a.items| && a.items[i].name == name && (forall k :: i < k < |a.items| ==> a.items[k].name != name)
                  ==> a.items[i].next == total)
  {
    RunKeepsInv(Empty, actions);
    var a := Run(Empty, actions).accounts[run];
    assert AccountInv(a);
    TotalFits(a, name, |a.items|);
    assert a.items[..|a.items|] == a.items;
    forall i | 0 <= i < |a.items| && a.items[i].name == name && (forall k :: i < k < |a.items| ==> a.items[k].name != name)
      ensures a.items[i].next == a.grants[name].original + Added(a.items, name)
    {
      assert ItemInv(a, i);
      AddedUnchanged(a.items, name, i + 1, |a.items|);
      assert a.items[..i + 1][..i] == a.items[..i];
    }
  }

  function Total(adds: seq<Addition>, name: string): int
    decreases |adds|
  {
    if adds == [] then 0
    else Total(adds[..|adds| - 1], name) + if adds[|adds| - 1].name == name then adds[|adds| - 1].coefficient else 0
  }

  function Times(adds: seq<Addition>, name: string): nat
    decreases |adds|
  {
    if adds == [] then 0 else Times(adds[..|adds| - 1], name) + if adds[|adds| - 1].name == name then 1 else 0
  }

  /** One extension adds exactly its additions, to the items and to the available balance alike. */
  lemma {:induction false} CreditsEqualAdditions(a: Account, extension: nat, adds: seq<Addition>, name: string)
    requires CreditAll(a, extension, adds).Some?
    ensures var c := CreditAll(a, extension, adds).value;
            && |c.items| == |a.items| + |adds| && c.items[..|a.items|] == a.items
            && Added(c.items, name) == Added(a.items, name) + Total(adds, name)
            && (name in c.balances <==> name in a.balances)
            && (name in a.balances ==>
                  && c.balances[name].available == a.balances[name].available + Total(adds, name)
                  && c.balances[name].version == a.balances[name].version + Times(adds, name)
                  && c.balances[name].committed == a.balances[name].committed && c.balances[name].moved == a.balances[name].moved)
    decreases |adds|
  {
    if adds != [] {
      var n := |adds| - 1;
      CreditsEqualAdditions(a, extension, adds[..n], name);
      var b := CreditAll(a, extension, adds[..n]).value;
      var c := CreditAll(a, extension, adds).value;
      AddedAppend(b.items, c.items[|b.items|], name);
    }
  }

  /** Extensions are only added, each with one version, and the deadline has not come forward. */
  ghost predicate Advances(x: Account, y: Account) {
    && |x.extensions| <= |y.extensions| && x.extensions == y.extensions[..|x.extensions|]
    && y.version - x.version == |y.extensions| - |x.extensions| && NotEarlier(x.deadline, y.deadline)
  }

  lemma ApplyAdvances(a: Account, e: Extension)
    requires ApplyTo(a, e).Some? && e.deadlineSeconds >= 0
    ensures Advances(a, ApplyTo(a, e).value)
  {
  }

  lemma AdvancesTransitive(x: Account, y: Account, z: Account)
    requires Advances(x, y) && Advances(y, z)
    ensures Advances(x, z)
  {
    assert z.extensions[..|x.extensions|] == z.extensions[..|y.extensions|][..|x.extensions|];
  }

  lemma StepKeepsAccounts(w: World, a: Action, run: nat)
    requires run in w.accounts
    ensures run in Step(w, a).accounts && Advances(w.accounts[run], Step(w, a).accounts[run])
  {
    assert Advances(w.accounts[run], w.accounts[run]);
    if a.Extending? && Step(w, a) != w && Validate(a.extension).value.run == run {
      ApplyAdvances(w.accounts[run], Validate(a.extension).value);
    }
  }

  /** Extensions are append-only, each raises the envelope version by one, and deadlines never shrink. */
  lemma {:induction false} DeadlinesNeverShrink(w: World, actions: seq<Action>, run: nat)
    requires run in w.accounts
    ensures run in Run(w, actions).accounts && Advances(w.accounts[run], Run(w, actions).accounts[run])
    decreases |actions|
  {
    if actions != [] {
      var next := Step(w, actions[0]);
      StepKeepsAccounts(w, actions[0], run);
      DeadlinesNeverShrink(next, actions[1..], run);
      AdvancesTransitive(w.accounts[run], next.accounts[run], Run(w, actions).accounts[run]);
    }
  }

  function TotalSeconds(rows: seq<Row>): int
    decreases |rows|
  {
    if rows == [] then 0 else TotalSeconds(rows[..|rows| - 1]) + rows[|rows| - 1].digest.deadline
  }

  lemma {:induction false} DeadlineAtIsSum(a: Account, i: int)
    requires AccountInv(a) && 0 <= i <= |a.extensions|
    ensures DeadlineAt(a, i) == MovedBy(a.openingDeadline, TotalSeconds(a.extensions[..i]))
    decreases i
  {
    if i > 0 {
      assert RowInv(a, i - 1);
      DeadlineAtIsSum(a, i - 1);
      assert a.extensions[..i][..i - 1] == a.extensions[..i - 1];
    }
  }

  /** After any run a deadline is the one the run opened with, later by all the seconds its extensions granted. */
  lemma DeadlinesAreConserved(actions: seq<Action>, run: nat)
    requires run in Run(Empty, actions).accounts
    ensures var a := Run(Empty, actions).accounts[run];
            && a.deadline == MovedBy(a.openingDeadline, TotalSeconds(a.extensions))
            && a.version == a.openingVersion + |a.extensions|
            && (forall i :: 0 <= i < |a.extensions| ==>
                  a.extensions[i].newDeadline == MovedBy(a.extensions[i].priorDeadline, a.extensions[i].digest.deadline))
  {
    RunKeepsInv(Empty, actions);
    var a := Run(Empty, actions).accounts[run];
    assert AccountInv(a);
    DeadlineAtIsSum(a, |a.extensions|);
    assert a.extensions[..|a.extensions|] == a.extensions;
    forall i | 0 <= i < |a.extensions|
      ensures a.extensions[i].newDeadline == MovedBy(a.extensions[i].priorDeadline, a.extensions[i].digest.deadline)
    {
      assert RowInv(a, i);
    }
  }

  // ---- Exactly which extensions are granted ----------------------------------------------------

  /** The grant is a consumable one of the same unit and scale, and neither it nor its balance would overflow. */
  predicate Creditable(a: Account, add: Addition) {
    && add.name in a.grants && add.name in a.balances
    && a.grants[add.name].consumable && a.grants[add.name].unit == add.unit && a.grants[add.name].scale == add.scale
    && a.grants[add.name].original + Added(a.items, add.name) + add.coefficient <= MaxInt64
    && a.balances[add.name].available + add.coefficient + a.balances[add.name].committed <= MaxInt64
    && a.balances[add.name].version < MaxInt64
  }

  lemma CreditSucceedsIff(a: Account, extension: nat, add: Addition)
    requires CreditInv(a) && add.coefficient > 0
    ensures Credit(a, extension, add).Some? <==> Creditable(a, add)
  {
    if add.name in a.grants {
      TotalFits(a, add.name, |a.items|);
      assert a.items[..|a.items|] == a.items;
    }
    assert add.name in a.balances ==> BalanceInv(a, add.name);
  }

  /** Crediting some dimensions leaves every other one as it was. */
  lemma {:induction false} CreditLeavesOthers(a: Account, extension: nat, adds: seq<Addition>, name: string)
    requires CreditAll(a, extension, adds).Some? && forall x :: x in adds ==> x.name != name
    ensures var c := CreditAll(a, extension, adds).value;
            && c.grants == a.grants && Added(c.items, name) == Added(a.items, name)
            && (name in c.balances <==> name in a.balances) && (name in a.balances ==> c.balances[name] == a.balances[name])
    decreases |adds|
  {
    if adds != [] {
      var n := |adds| - 1;
      assert adds[n] in adds;
      CreditLeavesOthers(a, extension, adds[..n], name);
      var b, c := CreditAll(a, extension, adds[..n]).value, CreditAll(a, extension, adds).value;
      AddedAppend(b.items, c.items[|b.items|], name);
    }
  }

  /** All additions are credited exactly when each could be on its own, as the account stood before. */
  lemma {:induction false} CreditAllSucceedsIff(a: Account, extension: nat, adds: seq<Addition>)
    requires CreditInv(a) && UniqueNames(adds) && forall x :: x in adds ==> x.coefficient > 0
    ensures CreditAll(a, extension, adds).Some? <==> forall i :: 0 <= i < |adds| ==> Creditable(a, adds[i])
    decreases |adds|
  {
    if adds != [] {
      var front, last := adds[..|adds| - 1], adds[|adds| - 1];
      assert last in adds && forall x :: x in front ==> x in adds;
      CreditAllSucceedsIff(a, extension, front);
      assert forall i :: 0 <= i < |front| ==> adds[i] == front[i];
      if CreditAll(a, extension, front).Some? {
        CreditAllKeeps(a, extension, front);
        CreditLeavesOthers(a, extension, front, last.name);
        CreditSucceedsIff(CreditAll(a, extension, front).value, extension, last);
        assert Creditable(CreditAll(a, extension, front).value, last) <==> Creditable(a, last);
      }
    }
  }

  predicate Grantable(a: Account, e: Extension) {
    && a.requester != e.actor && !L.Terminal(a.lifecycle.state) && a.version < MaxInt64
    && (e.deadlineSeconds > 0 ==> a.deadline.Some?)
    && (a.lifecycle.state == L.PausedForBudget ==> e.createdAt >= a.lifecycle.updatedAt && a.lifecycle.version < MaxInt64)
    && forall x :: x in e.additions ==> Creditable(a, x)
  }

  lemma ApplySucceedsIff(a: Account, e: Extension)
    requires AccountInv(a) && WellFormed(e)
    ensures ApplyTo(a, e).Some? <==> Grantable(a, e)
  {
    CreditAllSucceedsIff(a, e.id, e.additions);
    assert forall x :: x in e.additions <==> exists i :: 0 <= i < |e.additions| && e.additions[i] == x;
    assert MaxInt64 / Second >= 31536000;
  }

  lemma SortedIsWellFormed(e: Extension)
    requires WellFormed(e)
    ensures WellFormed(Validate(e).value) && forall x :: x in Validate(e).value.additions <==> x in e.additions
  {
    SortByNameIsSorted(e.additions);
    SameElements(e.additions, SortByName(e.additions));
    var s := SortByName(e.additions);
    assert |s| == |multiset(s)| == |e.additions|;
    forall i, j | 0 <= i < j < |s| ensures s[i].name != s[j].name { LessTotal(s[i].name, s[j].name); }
  }

  /** A new extension is granted exactly when it is well formed, its actor is someone else and enabled, and the run can take it. */
  lemma ExtendedIff(w: World, e: Extension, enabled: bool)
    requires Inv(w) && Slot(e.actor, e.key) !in w.replays
    ensures Extend(w, e, enabled).1.Extended? <==> WellFormed(e) && enabled && e.run in w.accounts && Grantable(w.accounts[e.run], e)
    ensures Extend(w, e, enabled).1.Extended? ==>
              var row := Extend(w, e, enabled).1.row;
              && row.id == e.id && row.run == e.run && row.actor == e.actor && row.digest == ContentDigest(Validate(e).value)
              && row.digest.deadline == e.deadlineSeconds
              && Extend(w, e, enabled).0.accounts[e.run].extensions == w.accounts[e.run].extensions + [row]
    ensures !Extend(w, e, enabled).1.Extended? ==> Extend(w, e, enabled) == (w, Refused)
  {
    if WellFormed(e) && e.run in w.accounts {
      SortedIsWellFormed(e);
      assert AccountInv(w.accounts[e.run]);
      ApplySucceedsIff(w.accounts[e.run], Validate(e).value);
    }
  }

  /** A newly opened account can be extended at once, exactly within what it was opened with. */
  lemma OpenedIsExtendable(w: World, open: Action, e: Extension)
    requires Inv(w) && open.Opening? && open.run !in w.accounts && 1 <= open.version <= MaxInt64
    requires L.Valid(open.lifecycle) && open.lifecycle.version <= MaxInt64
    requires forall n :: n in open.grants ==> 0 <= open.grants[n].original <= MaxInt64
    requires WellFormed(e) && e.run == open.run && Slot(e.actor, e.key) !in w.replays
    ensures Extend(Step(w, open), e, true).1.Extended? <==>
            && open.requester != e.actor && !L.Terminal(open.lifecycle.state) && open.version < MaxInt64
            && (e.deadlineSeconds > 0 ==> open.deadline.Some?)
            && (open.lifecycle.state == L.PausedForBudget ==> e.createdAt >= open.lifecycle.updatedAt && open.lifecycle.version < MaxInt64)
            && (forall x :: x in e.additions ==>
                  && x.name in open.grants && open.grants[x.name].consumable && open.grants[x.name].unit == x.unit
                  && open.grants[x.name].scale == x.scale && open.grants[x.name].original + x.coefficient <= MaxInt64)
  {
    StepKeepsInv(w, open);
    ExtendedIff(Step(w, open), e, true);
    var a := Step(w, open).accounts[open.run];
    assert a.items == [] && a.grants == open.grants && a.balances.Keys == open.grants.Keys;
  }

  /** Nothing is assumed of other movements but that balances stay in 64 bits: any split can come about. */
  lemma OthersMoveFreely(w: World, run: nat, name: string, available: int, committed: int, command: L.Command)
    requires run in w.accounts && name in w.accounts[run].balances
    requires available >= 0 && committed >= 0 && available + committed <= MaxInt64
    ensures var a, b := w.accounts[run], Step(w, Moving(run, name, available, committed)).accounts[run];
            && b == a.(balances := b.balances) && b.balances.Keys == a.balances.Keys
            && b.balances[name].available == available && b.balances[name].committed == committed
            && b.balances[name].available + b.balances[name].moved == a.balances[name].available + a.balances[name].moved
            && forall other :: other in a.balances && other != name ==> b.balances[other] == a.balances[other]
    ensures var a, b := w.accounts[run], Step(w, Transitioning(run, command)).accounts[run];
            b == a.(lifecycle := L.Step(a.lifecycle, command))
  {
  }

  lemma {:induction false} ReplaysAreKept(w: World, actions: seq<Action>, slot: Slot)
    requires slot in w.replays
    ensures slot in Run(w, actions).replays && Run(w, actions).replays[slot] == w.replays[slot]
    decreases |actions|
  {
    if actions != [] { ReplaysAreKept(Step(w, actions[0]), actions[1..], slot); }
  }

  /**
   After an extension is stored, whatever happens in between, a request with its key changes nothing:
   it returns the stored result exactly when it is the same request, in any order of additions.
   */
  lemma RetryChangesNothing(w: World, e: Extension, enabled: bool, actions: seq<Action>, f: Extension, still: bool)
    requires Extend(w, e, enabled).1.Extended? && f.actor == e.actor && f.key == e.key && WellFormed(f)
    ensures var later := Run(Extend(w, e, enabled).0, actions);
            Extend(later, f, still) == (later, if SameRequest(e, f) then Replayed(Extend(w, e, enabled).1.row) else Refused)
  {
    ReplaysAreKept(Extend(w, e, enabled).0, actions, Slot(e.actor, e.key));
    DigestIffSameRequest(e, f);
  }

  /** An extension resumes a run exactly when budget had paused it, and never touches a finished one. */
  lemma ResumesIffPaused(w: World, e: Extension, enabled: bool)
    requires Extend(w, e, enabled).1.Extended?
    ensures e.run in w.accounts && e.run in Extend(w, e, enabled).0.accounts
    ensures var x, y := w.accounts[e.run].lifecycle, Extend(w, e, enabled).0.accounts[e.run].lifecycle;
            && !L.Terminal(x.state)
            && Extend(w, e, enabled).1.row.resumed == (x.state == L.PausedForBudget)
            && (x.state == L.PausedForBudget ==> y.state == L.Running && y.version == x.version + 1)
            && (x.state != L.PausedForBudget ==> y.state == x.state && y.version == x.version)
  {
  }

  /**
   An extension leaves a valid lifecycle valid. Its clock is the extension's own time, so it runs forward
   exactly when the extension is not older than the last update; only a resumption enforces that.
   */
  lemma ExtensionKeepsLifecycle(w: World, e: Extension, enabled: bool)
    requires Inv(w) && Extend(w, e, enabled).1.Extended?
    ensures e.run in w.accounts && e.run in Extend(w, e, enabled).0.accounts
    ensures var x, y := w.accounts[e.run].lifecycle, Extend(w, e, enabled).0.accounts[e.run].lifecycle;
            && L.Valid(x) && L.Valid(y)
            && (x.updatedAt <= y.updatedAt <==> e.createdAt >= x.updatedAt)
            && (x.state == L.PausedForBudget ==> x.updatedAt <= y.updatedAt)
  {
    StepKeepsInv(w, Extending(e, enabled));
    assert AccountInv(w.accounts[e.run]) && AccountInv(Extend(w, e, enabled).0.accounts[e.run]);
  }

  /** An unpaused run does take an older time: its clock can go back. */
  lemma ClockCanGoBack()
    ensures exists l: L.Lifecycle, at: int ::
              L.Valid(l) && at != 0 && Resume(l, at).Some? && Resume(l, at).value.updatedAt < l.updatedAt
  {
    var l := L.Lifecycle(L.Running, 1, 2, None);
    assert L.Valid(l) && Resume(l, 1) == Some(l.(updatedAt := 1));
  }

  // ---- The repository --------------------------------------------------------------------------

  /** The loop over a seen-set, then the sort, both on the caller's array. */
  method ValidateAdditions(additions: array<Addition>) returns (ok: bool)
    modifies additions
    ensures ok <==> UniqueNames(old(additions[..])) && (forall x :: x in old(additions[..]) ==> x.coefficient > 0)
    ensures additions[..] == if ok then SortByName(old(additions[..])) else old(additions[..])
  {
    ghost var given := additions[..];
    var seen: set<string> := {};
    var i := 0;
    while i < additions.Length
      invariant 0 <= i <= additions.Length && additions[..] == given
      invariant seen == set k | 0 <= k < i :: given[k].name
      invariant UniqueNames(given[..i])
      invariant forall k :: 0 <= k < i ==> given[k].coefficient > 0
    {
      assert given[i] == additions[i];
      if additions[i].coefficient <= 0 { return false; }
      if additions[i].name in seen {
        ghost var k :| 0 <= k < i && given[k].name == given[i].name;
        return false;
      }
      seen := seen + {additions[i].name};
      i := i + 1;
    }
    assert given[..i] == given;
    SortByNameIsSorted(given);
    var sorted := SortByName(additions[..]);
    assert |sorted| == |multiset(sorted)| == |multiset(given)| == |given|;
    forall k | 0 <= k < additions.Length { additions[k] := sorted[k]; }
    assert additions[..] == sorted;
    ok := true;
  }

  class ResourceRepository {
    var accounts: map<nat, Account>
    var replays: map<Slot, Row>

    function View(): World
      reads this
    {
      World(accounts, replays)
    }

    ghost predicate Valid()
      reads this
    {
      Inv(View())
    }

    constructor ()
      ensures Valid() && View() == Empty
    {
      accounts, replays := map[], map[];
    }

    /** The statements for one addition: read the grant, check it, append the item, credit the balance. */
    static method CreditAddition(tx: Account, extension: nat, add: Addition) returns (credited: Option<Account>)
      ensures credited == Credit(tx, extension, add)
    {
      if add.name !in tx.grants { return None; }
      var g := tx.grants[add.name];
      var previous := Added(tx.items, add.name);
      if !FitsInt64(previous) || !g.consumable || g.unit != add.unit || g.scale != add.scale { return None; }
      if g.original > MaxInt64 - previous || g.original + previous > MaxInt64 - add.coefficient { return None; }
      var prior := g.original + previous;
      var next := prior + add.coefficient;
      if add.name !in tx.balances { return None; }
      var b := tx.balances[add.name];
      if b.available > MaxInt64 - add.coefficient || b.version >= MaxInt64 || b.available + add.coefficient + b.committed > MaxInt64 { return None; }
      var view := tx.(items := tx.items + [Item(extension, add.name, add.coefficient, prior, next)]);
      credited := Some(view.(balances := view.balances[add.name := b.(available := b.available + add.coefficient, version := b.version + 1)]));
    }

    /** The loop over the additions works on the transaction's own copy; any error discards it. */
    static method CreditAdditions(account: Account, extension: nat, adds: seq<Addition>) returns (credited: Option<Account>)
      ensures credited == CreditAll(account, extension, adds)
    {
      var tx := account;
      for i := 0 to |adds|
        invariant CreditAll(account, extension, adds[..i]) == Some(tx)
      {
        assert adds[..i + 1][..i] == adds[..i];
        var next := CreditAddition(tx, extension, adds[i]);
        if next.None? {
          LaterCreditsFail(account, extension, adds, i + 1);
          return None;
        }
        tx := next.value;
      }
      assert adds[..|adds|] == adds;
      credited := Some(tx);
    }

    /** Checks, deadline, credits and resumption, in the order of the statements. */
    static method ApplyExtension(account: Account, e: Extension) returns (extended: Option<Account>)
      requires e.deadlineSeconds >= 0
      ensures extended == ApplyTo(account, e)
    {
      if account.requester == e.actor || L.Terminal(account.lifecycle.state) || account.version == MaxInt64 { return None; }
      var deadline := account.deadline;
      if e.deadlineSeconds > 0 {
        if deadline.None? || e.deadlineSeconds > MaxInt64 / Second { return None; }
        deadline := Some(deadline.value + e.deadlineSeconds * Second);
      }
      var row := RowOf(account, e, deadline);
      var credited := CreditAdditions(account, e.id, e.additions);
      if credited.None? { return None; }
      var lifecycle := Resume(account.lifecycle, e.createdAt);
      if lifecycle.None? { return None; }
      extended := Some(credited.value.(version := account.version + 1, deadline := deadline, lifecycle := lifecycle.value,
                                       extensions := account.extensions + [row]));
    }

    method ExtendResources(candidate: Extension, enabled: bool) returns (outcome: Outcome)
      requires Valid()
      modifies this
      ensures Valid() && (View(), outcome) == Extend(old(View()), candidate, enabled)
    {
      StepKeepsInv(View(), Extending(candidate, enabled));
      var valid := Validate(candidate);
      if valid.None? { return Refused; }
      var e := valid.value;
      var slot := Slot(e.actor, e.key);
      if slot in replays {
        return if replays[slot].digest == ContentDigest(e) then Replayed(replays[slot]) else Refused;
      }
      if !enabled || e.run !in accounts { return Refused; }
      var account := ApplyExtension(accounts[e.run], e);
      if account.None? { return Refused; }
      var row := account.value.extensions[|account.value.extensions| - 1];
      accounts := accounts[e.run := account.value];
      replays := replays[slot := row];
      outcome := Extended(row);
    }
  }

  lemma {:induction false} LaterCreditsFail(a: Account, extension: nat, adds: seq<Addition>, k: int)
    requires 0 <= k <= |adds| && CreditAll(a, extension, adds[..k]).None?
    ensures CreditAll(a, extension, adds).None?
    decreases |adds|
  {
    if k < |adds| {
      assert adds[..|adds| - 1][..k] == adds[..k];
      LaterCreditsFail(a, extension, adds[..|adds| - 1], k);
    } else {
      assert adds[..k] == adds;
    }
  }
}
