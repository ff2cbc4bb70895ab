/** Reputation: outcome events stored once each, raw counters kept with them, and damped counts over
    exact reals. */
module Reputation {
  import opened Common
  import opened Text

  datatype Role = Worker | Buyer | OtherRole
  datatype Outcome = Completed | Disputed | Failed | OtherOutcome

  datatype Event = Event(address: string, role: Role, outcome: Outcome, txHash: string, logIndex: int)

  /** The unique identity of a stored event; the outcome is not part of it. */
  datatype Key = Key(address: string, role: Role, txHash: string, logIndex: int)
  datatype Account = Account(address: string, role: Role)

  datatype Counts = Counts(completed: nat, disputed: nat, failed: nat)

  datatype Db = Db(events: map<Key, Outcome>, counts: map<Account, Counts>)

  const Empty := Db(map[], map[])

  function Normal(text: string): string { ToLower(TrimSpace(text)) }

  function KeyOf(e: Event): Key { Key(Normal(e.address), e.role, Normal(e.txHash), e.logIndex) }

  function AccountOf(k: Key): Account { Account(k.address, k.role) }

  predicate Valid(e: Event) {
    e.role != OtherRole && e.outcome != OtherOutcome && TrimSpace(e.address) != "" && TrimSpace(e.txHash) != ""
  }

  function CountOf(c: Counts, o: Outcome): nat {
    match o
    case Completed => c.completed
    case Disputed => c.disputed
    case Failed => c.failed
    case OtherOutcome => 0
  }

  function CountsOf(counts: map<Account, Counts>, a: Account): Counts {
    if a in counts then counts[a] else Counts(0, 0, 0)
  }

  /** The raw counter of an outcome. */
  function Counter(db: Db, a: Account, o: Outcome): nat { CountOf(CountsOf(db.counts, a), o) }

  function Bump(c: Counts, o: Outcome): Counts {
    match o
    case Completed => c.(completed := c.completed + 1)
    case Disputed => c.(disputed := c.disputed + 1)
    case Failed => c.(failed := c.failed + 1)
    case OtherOutcome => c
  }

  function RecordAs(db: Db, k: Key, o: Outcome): Db {
    if k in db.events then db
    else Db(db.events[k := o], db.counts[AccountOf(k) := Bump(CountsOf(db.counts, AccountOf(k)), o)])
  }

  /** What a delivery says: the identity it records, none if it is refused, and the outcome. */
  datatype Fact = Fact(key: Option<Key>, outcome: Outcome)

  function FactOf(e: Event): Fact { Fact(if Valid(e) then Some(KeyOf(e)) else None, e.outcome) }

  /** RecordReputationOutcome, as one transaction. */
  function Record(db: Db, fact: Fact): Db {
    if fact.key.Some? then RecordAs(db, fact.key.value, fact.outcome) else db
  }

  class Store {
    var events: map<Key, Outcome>
    var counts: map<Account, Counts>

    constructor ()
      ensures Tables() == Empty
    {
      events, counts := map[], map[];
    }

    function Tables(): Db
      reads this
    {
      Db(events, counts)
    }

    /** INSERT OR IGNORE on the event's identity. */
    method InsertEvent(k: Key, o: Outcome) returns (inserted: bool)
      modifies this`events
      ensures inserted <==> k !in old(events)
      ensures events == if inserted then old(events)[k := o] else old(events)
    {
      inserted := k !in events;
      if inserted { events := events[k := o]; }
    }

    method UpsertReputation(a: Account, o: Outcome)
      modifies this`counts
      ensures counts == old(counts)[a := Bump(CountsOf(old(counts), a), o)]
    {
      if a in counts {
        counts := counts[a := Bump(counts[a], o)];
      } else {
        counts := counts[a := Bump(Counts(0, 0, 0), o)];
      }
    }

    method RecordOutcome(e: Event) returns (ok: bool)
      modifies this
      ensures ok <==> Valid(e)
      ensures Tables() == Record(old(Tables()), FactOf(e))
    {
      if e.role == OtherRole { return false; }
      if e.outcome == OtherOutcome { return false; }
      if TrimSpace(e.address) == "" { return false; }
      if TrimSpace(e.txHash) == "" { return false; }
      var k := KeyOf(e);
      var inserted := InsertEvent(k, e.outcome);
      if inserted { UpsertReputation(AccountOf(k), e.outcome); }
      return true;
    }
  }

  // ---- counters and distinct events

  ghost function Stored(db: Db, a: Account, o: Outcome): set<Key> {
    set k | k in db.events && AccountOf(k) == a && db.events[k] == o
  }

  /** Each counter is the number of stored events of that address, role and outcome. */
  ghost predicate Exact(db: Db) {
    forall a, o :: o != OtherOutcome ==> Counter(db, a, o) == |Stored(db, a, o)|
  }

  lemma RecordAsKeepsExact(db: Db, k: Key, o: Outcome)
    requires Exact(db)
    ensures Exact(RecordAs(db, k, o))
  {
    var after := RecordAs(db, k, o);
    if k !in db.events {
      forall a, p | p != OtherOutcome ensures Counter(after, a, p) == |Stored(after, a, p)| {
        StoredGrows(db, k, o, a, p);
        CounterGrows(db, k, o, a, p);
        assert Counter(db, a, p) == |Stored(db, a, p)|;
      }
    }
  }

  lemma StoredGrows(db: Db, k: Key, o: Outcome, a: Account, p: Outcome)
    requires k !in db.events
    ensures |Stored(RecordAs(db, k, o), a, p)| == |Stored(db, a, p)| + if a == AccountOf(k) && p == o then 1 else 0
  {
    var after := RecordAs(db, k, o);
    if a == AccountOf(k) && p == o {
      assert Stored(after, a, p) == Stored(db, a, p) + {k};
    } else {
      assert Stored(after, a, p) == Stored(db, a, p);
    }
  }

  lemma CounterGrows(db: Db, k: Key, o: Outcome, a: Account, p: Outcome)
    requires k !in db.events && p != OtherOutcome
    ensures Counter(RecordAs(db, k, o), a, p) == Counter(db, a, p) + if a == AccountOf(k) && p == o then 1 else 0
  {
  }

  /** What any list of deliveries leaves in the tables. */
  function Deliver(deliveries: seq<Fact>): Db {
    if deliveries == [] then Empty
    else Record(Deliver(deliveries[..|deliveries| - 1]), deliveries[|deliveries| - 1])
  }

  lemma {:induction false} DeliverIsExact(deliveries: seq<Fact>)
    ensures Exact(Deliver(deliveries))
  {
    if deliveries != [] {
      var init, last := deliveries[..|deliveries| - 1], deliveries[|deliveries| - 1];
      DeliverIsExact(init);
      if last.key.Some? { RecordAsKeepsExact(Deliver(init), last.key.value, last.outcome); }
    } else {
      forall a, o ensures Stored(Empty, a, o) == {} {}
    }
  }

  /** The first delivery of the identity tells this outcome. */
  ghost predicate FirstTells(deliveries: seq<Fact>, k: Key, o: Outcome) {
    exists i :: 0 <= i < |deliveries| && deliveries[i] == Fact(Some(k), o) && NotBefore(deliveries, k, i)
  }

  ghost predicate NotBefore(deliveries: seq<Fact>, k: Key, i: nat)
    requires i <= |deliveries|
  {
    forall j :: 0 <= j < i ==> deliveries[j].key != Some(k)
  }

  lemma FirstTellsAppends(init: seq<Fact>, last: Fact, k: Key, o: Outcome)
    ensures FirstTells(init + [last], k, o)
      <==> FirstTells(init, k, o) || (last == Fact(Some(k), o) && NotBefore(init, k, |init|))
  {
    var all := init + [last];
    if i :| 0 <= i < |init| && init[i] == Fact(Some(k), o) && NotBefore(init, k, i) {
      assert all[i] == init[i] && NotBefore(all, k, i);
    }
    if last == Fact(Some(k), o) && NotBefore(init, k, |init|) {
      assert all[|init|] == last && NotBefore(all, k, |init|);
    }
    if i :| 0 <= i < |all| && all[i] == Fact(Some(k), o) && NotBefore(all, k, i) {
      assert forall j :: 0 <= j < i ==> init[j] == all[j];
      assert NotBefore(init, k, i);
    }
  }

  lemma {:induction false} FirstDeliveryIsStored(deliveries: seq<Fact>, k: Key, o: Outcome)
    ensures var db := Deliver(deliveries);
      && (k in db.events <==> !NotBefore(deliveries, k, |deliveries|))
      && (k in db.events && db.events[k] == o <==> FirstTells(deliveries, k, o))
  {
    if deliveries != [] {
      var init, last := deliveries[..|deliveries| - 1], deliveries[|deliveries| - 1];
      assert deliveries == init + [last];
      FirstDeliveryIsStored(init, k, o);
      FirstTellsAppends(init, last, k, o);
      assert NotBefore(deliveries, k, |deliveries|) <==> NotBefore(init, k, |init|) && last.key != Some(k);
    }
  }

  /** However often and in whatever order outcome logs are delivered, each counter is the number of distinct
      events of that address and role whose first delivery told that outcome. */
  lemma CountersCountDistinctEvents(deliveries: seq<Fact>, a: Account, o: Outcome)
    requires o != OtherOutcome
    ensures Counter(Deliver(deliveries), a, o)
      == |set f | f in deliveries && f.key.Some? && AccountOf(f.key.value) == a
                  && FirstTells(deliveries, f.key.value, o) :: f.key.value|
  {
    DeliverIsExact(deliveries);
    var db := Deliver(deliveries);
    var distinct := set f | f in deliveries && f.key.Some? && AccountOf(f.key.value) == a
                            && FirstTells(deliveries, f.key.value, o) :: f.key.value;
    forall k ensures k in Stored(db, a, o) <==> k in distinct {
      FirstDeliveryIsStored(deliveries, k, o);
      if k in Stored(db, a, o) { assert Fact(Some(k), o).key.value in distinct; }
    }
    assert Stored(db, a, o) == distinct;
  }

  /** The first delivery of an event decides: any later one of the same identity changes nothing. */
  lemma RedeliveryChangesNothing(deliveries: seq<Fact>, i: nat, j: nat)
    requires i < j < |deliveries| && deliveries[i].key.Some? && deliveries[j].key == deliveries[i].key
    ensures Deliver(deliveries[..j + 1]) == Deliver(deliveries[..j])
  {
    EventsAccumulate(deliveries[..j], i);
    assert deliveries[..j + 1][..j] == deliveries[..j];
  }

  lemma {:induction false} EventsAccumulate(deliveries: seq<Fact>, i: nat)
    requires i < |deliveries| && deliveries[i].key.Some?
    ensures deliveries[i].key.value in Deliver(deliveries).events
    decreases |deliveries|
  {
    if i < |deliveries| - 1 { EventsAccumulate(deliveries[..|deliveries| - 1], i); }
  }

  // ---- the same of the events as they are told

  /** An event that is recorded: of a known role and outcome, its address and transaction not blank. */
  predicate Recordable(e: Event) {
    && (e.role.Worker? || e.role.Buyer?) && (e.outcome.Completed? || e.outcome.Disputed? || e.outcome.Failed?)
    && TrimSpace(e.address) != "" && TrimSpace(e.txHash) != ""
  }

  /** Two tellings of one event: the same log of a transaction, for an address in a role, but for case and blanks. */
  predicate SameEvent(e: Event, f: Event) {
    && ToLower(TrimSpace(e.address)) == ToLower(TrimSpace(f.address)) && e.role == f.role
    && ToLower(TrimSpace(e.txHash)) == ToLower(TrimSpace(f.txHash)) && e.logIndex == f.logIndex
  }

  /** No recordable event of those told is the same. */
  ghost predicate New(told: seq<Event>, e: Event) {
    forall j :: 0 <= j < |told| && Recordable(told[j]) ==> !SameEvent(told[j], e)
  }

  predicate Of(e: Event, address: string, role: Role, o: Outcome) {
    ToLower(TrimSpace(e.address)) == address && e.role == role && e.outcome == o
  }

  /** How many events of the account are first told with that outcome. */
  ghost function FirstTellings(events: seq<Event>, address: string, role: Role, o: Outcome): nat {
    if events == [] then 0
    else
      var told, e := events[..|events| - 1], events[|events| - 1];
      FirstTellings(told, address, role, o)
      + if Recordable(e) && New(told, e) && Of(e, address, role, o) then 1 else 0
  }

  function Facts(events: seq<Event>): seq<Fact> {
    seq(|events|, i requires 0 <= i < |events| => FactOf(events[i]))
  }

  lemma ValidIsRecordable(e: Event)
    ensures Valid(e) <==> Recordable(e)
  {
  }

  lemma RecordableHasKey(e: Event)
    ensures FactOf(e) == Fact(if Recordable(e) then Some(KeyOf(e)) else None, e.outcome)
  {
    ValidIsRecordable(e);
  }

  lemma KeysIdentify(e: Event, f: Event)
    ensures KeyOf(e) == KeyOf(f) <==> SameEvent(e, f)
  {
  }

  lemma AccountOfKey(e: Event, address: string, role: Role)
    ensures AccountOf(KeyOf(e)) == Account(address, role)
      <==> ToLower(TrimSpace(e.address)) == address && e.role == role
  {
  }

  lemma NewIsUnstored(told: seq<Event>, e: Event)
    ensures KeyOf(e) !in Deliver(Facts(told)).events <==> New(told, e)
  {
    var facts := Facts(told);
    FirstDeliveryIsStored(facts, KeyOf(e), e.outcome);
    forall j | 0 <= j < |told|
      ensures facts[j].key == Some(KeyOf(e)) <==> Recordable(told[j]) && SameEvent(told[j], e)
    {
      RecordableHasKey(told[j]);
      KeysIdentify(told[j], e);
    }
  }

  lemma OneMoreTelling(db: Db, told: seq<Event>, e: Event, address: string, role: Role, o: Outcome)
    requires o != OtherOutcome && (KeyOf(e) !in db.events <==> New(told, e))
    ensures Counter(Record(db, FactOf(e)), Account(address, role), o)
      == Counter(db, Account(address, role), o)
         + if Recordable(e) && New(told, e) && Of(e, address, role, o) then 1 else 0
  {
    RecordableHasKey(e);
    AccountOfKey(e, address, role);
    if KeyOf(e) !in db.events { CounterGrows(db, KeyOf(e), e.outcome, Account(address, role), o); }
  }

  lemma DeliveredNext(events: seq<Event>)
    requires events != []
    ensures var told, e := events[..|events| - 1], events[|events| - 1];
      Deliver(Facts(events)) == Record(Deliver(Facts(told)), FactOf(e))
  {
    var facts := Facts(events);
    assert facts[..|facts| - 1] == Facts(events[..|events| - 1]);
  }

  lemma NextCount(events: seq<Event>, address: string, role: Role, o: Outcome)
    requires events != [] && o != OtherOutcome
    ensures var told, e := events[..|events| - 1], events[|events| - 1];
      Counter(Deliver(Facts(events)), Account(address, role), o)
      == Counter(Deliver(Facts(told)), Account(address, role), o)
         + if Recordable(e) && New(told, e) && Of(e, address, role, o) then 1 else 0
  {
    var told, e := events[..|events| - 1], events[|events| - 1];
    DeliveredNext(events);
    NewIsUnstored(told, e);
    OneMoreTelling(Deliver(Facts(told)), told, e, address, role, o);
  }

  /** However often and in whatever order outcome logs are delivered, the counter of an outcome is the number of
      events of that address and role whose first telling has that outcome. */
  lemma {:induction false} CountersCountFirstTellings(events: seq<Event>, address: string, role: Role, o: Outcome)
    requires o != OtherOutcome
    ensures Counter(Deliver(Facts(events)), Account(address, role), o) == FirstTellings(events, address, role, o)
  {
    if events != [] {
      CountersCountFirstTellings(events[..|events| - 1], address, role, o);
      NextCount(events, address, role, o);
    }
  }

  // ---- damped counts

  datatype Weights = Weights(completed: real, disputed: real, failed: real)

  function Pow(x: real, n: nat): real { if n == 0 then 1.0 else x * Pow(x, n - 1) }

  function Unit(o: Outcome, p: Outcome): real { if o == p then 1.0 else 0.0 }

  /** The damped count of outcome o: each new event damps what came before it by the factor. */
  function Damped(outcomes: seq<Outcome>, o: Outcome, factor: real): real {
    if outcomes == [] then 0.0
    else factor * Damped(outcomes[..|outcomes| - 1], o, factor) + Unit(outcomes[|outcomes| - 1], o)
  }

  function Raw(outcomes: seq<Outcome>, o: Outcome): nat {
    if outcomes == [] then 0
    else Raw(outcomes[..|outcomes| - 1], o) + if outcomes[|outcomes| - 1] == o then 1 else 0
  }

  /** The damped count of the first i events as it weighs among all of them. */
  ghost function Carried(outcomes: seq<Outcome>, i: nat, o: Outcome, factor: real): real
    requires i <= |outcomes|
  {
    Damped(outcomes[..i], o, factor) * Pow(factor, |outcomes| - i)
  }

  /** computeDampedCounts: each event weighs the factor to the power of the events after it. */
  method ComputeDampedCounts(outcomes: seq<Outcome>, factor: real) returns (d: Weights)
    ensures factor <= 0.0 ==> d == Weights(0.0, 0.0, 0.0)
    ensures factor > 0.0 ==>
      d == Weights(Damped(outcomes, Completed, factor), Damped(outcomes, Disputed, factor),
                   Damped(outcomes, Failed, factor))
  {
    d := Weights(0.0, 0.0, 0.0);
    if factor <= 0.0 || |outcomes| == 0 { return; }
    var n := |outcomes|;
    for i := 0 to n
      invariant d == Weights(Carried(outcomes, i, Completed, factor), Carried(outcomes, i, Disputed, factor),
                             Carried(outcomes, i, Failed, factor))
    {
      var weight := Pow(factor, n - 1 - i);
      OneMoreWeight(outcomes, i, Completed, factor);
      OneMoreWeight(outcomes, i, Disputed, factor);
      OneMoreWeight(outcomes, i, Failed, factor);
      match outcomes[i] {
        case Completed => d := d.(completed := d.completed + weight);
        case Disputed => d := d.(disputed := d.disputed + weight);
        case Failed => d := d.(failed := d.failed + weight);
        case OtherOutcome =>
      }
    }
    assert outcomes[..n] == outcomes;
  }

  lemma OneMoreWeight(outcomes: seq<Outcome>, i: nat, o: Outcome, factor: real)
    requires i < |outcomes|
    ensures Carried(outcomes, i + 1, o, factor)
      == Carried(outcomes, i, o, factor) + if outcomes[i] == o then Pow(factor, |outcomes| - 1 - i) else 0.0
  {
    assert outcomes[..i + 1][..i] == outcomes[..i];
    Regroup(Damped(outcomes[..i + 1], o, factor), factor, Damped(outcomes[..i], o, factor), outcomes[i] == o,
            Pow(factor, |outcomes| - 1 - i), Pow(factor, |outcomes| - i));
  }

  lemma Regroup(x: real, factor: real, d: real, hit: bool, p: real, q: real)
    requires x == factor * d + (if hit then 1.0 else 0.0) && q == factor * p
    ensures x * p == d * q + if hit then p else 0.0
  {
    assert (factor * d) * p == d * (factor * p);
  }

  lemma DampingShrinks(x: real, factor: real, d: real, hit: bool, raw: nat)
    requires 0.0 < factor <= 1.0 && 0.0 <= d <= raw as real
    requires x == factor * d + if hit then 1.0 else 0.0
    ensures 0.0 <= x <= (if hit then raw + 1 else raw) as real
  {
    assert 0.0 <= factor * d;
    assert (1.0 - factor) * d >= 0.0;
    assert (raw + 1) as real == raw as real + 1.0;
  }

  /** Damping never inflates: a damped count lies between zero and its raw count. */
  lemma {:induction false} DampedIsAtMostRaw(outcomes: seq<Outcome>, o: Outcome, factor: real)
    requires 0.0 < factor <= 1.0
    ensures 0.0 <= Damped(outcomes, o, factor) <= Raw(outcomes, o) as real
  {
    if outcomes != [] {
      var init := outcomes[..|outcomes| - 1];
      DampedIsAtMostRaw(init, o, factor);
      DampingShrinks(Damped(outcomes, o, factor), factor, Damped(init, o, factor), outcomes[|init|] == o, Raw(init, o));
    }
  }

  /** Without damping the damped count is the raw count. */
  lemma {:induction false} FactorOneIsRaw(outcomes: seq<Outcome>, o: Outcome)
    ensures Damped(outcomes, o, 1.0) == Raw(outcomes, o) as real
  {
    if outcomes != [] { FactorOneIsRaw(outcomes[..|outcomes| - 1], o); }
  }

  /** 1 + factor + factor^2 + ..., n terms. */
  function Series(n: nat, factor: real): real {
    if n == 0 then 0.0 else factor * Series(n - 1, factor) + 1.0
  }

  lemma {:induction false} SeriesIsGeometric(n: nat, factor: real)
    ensures (1.0 - factor) * Series(n, factor) == 1.0 - Pow(factor, n)
  {
    if n > 0 {
      SeriesIsGeometric(n - 1, factor);
      Geometric(factor, Series(n - 1, factor), Pow(factor, n - 1), Series(n, factor), Pow(factor, n));
    }
  }

  lemma Geometric(factor: real, total: real, p: real, next: real, q: real)
    requires (1.0 - factor) * total == 1.0 - p && next == factor * total + 1.0 && q == factor * p
    ensures (1.0 - factor) * next == 1.0 - q
  {
    assert (1.0 - factor) * (factor * total + 1.0) == factor * ((1.0 - factor) * total) + (1.0 - factor);
  }

  lemma Distribute(factor: real, a: real, b: real, c: real, last: Outcome, x: real, y: real, z: real,
                   total: real, next: real)
    requires last != OtherOutcome && a + b + c == total && next == factor * total + 1.0
    requires x == factor * a + Unit(last, Completed)
    requires y == factor * b + Unit(last, Disputed)
    requires z == factor * c + Unit(last, Failed)
    ensures x + y + z == next
  {
  }

  /** The three damped counts together weigh the same whatever the outcomes: the geometric series of the
      number of events. */
  lemma {:induction false} DampedCountsConserveWeight(outcomes: seq<Outcome>, factor: real)
    requires OtherOutcome !in outcomes
    ensures Damped(outcomes, Completed, factor) + Damped(outcomes, Disputed, factor) + Damped(outcomes, Failed, factor)
      == Series(|outcomes|, factor)
  {
    if outcomes != [] {
      var init, last := outcomes[..|outcomes| - 1], outcomes[|outcomes| - 1];
      assert last in outcomes;
      DampedCountsConserveWeight(init, factor);
      Distribute(factor, Damped(init, Completed, factor), Damped(init, Disputed, factor), Damped(init, Failed, factor),
                 last, Damped(outcomes, Completed, factor), Damped(outcomes, Disputed, factor),
                 Damped(outcomes, Failed, factor),
                 Series(|init|, factor), Series(|outcomes|, factor));
    }
  }

  lemma StaysBelow(x: real, factor: real, d: real, hit: bool, limit: real)
    requires 0.0 < factor < 1.0 && (1.0 - factor) * limit == 1.0 && d <= limit
    requires x == factor * d + if hit then 1.0 else 0.0
    ensures x <= limit
  {
    assert factor * (limit - d) >= 0.0;
  }

  /** With a factor below one no damped count ever exceeds 1 / (1 - factor). */
  lemma {:induction false} DampedIsBounded(outcomes: seq<Outcome>, o: Outcome, factor: real)
    requires 0.0 < factor < 1.0
    ensures Damped(outcomes, o, factor) <= 1.0 / (1.0 - factor)
  {
    var limit := 1.0 / (1.0 - factor);
    assert (1.0 - factor) * limit == 1.0 && 0.0 <= limit;
    if outcomes != [] {
      var init := outcomes[..|outcomes| - 1];
      DampedIsBounded(init, o, factor);
      StaysBelow(Damped(outcomes, o, factor), factor, Damped(init, o, factor), outcomes[|init|] == o, limit);
    }
  }
}
