/** The event bus's buffer of recent events: what it keeps, what a polling reader sees, and the decimal
    subscription ids. */
module EventBus {
  import opened Text

  datatype Event = Event(id: string, escrow: string, level: int, name: string)

  /** The event filter of a poll; no escrow matches all of them. */
  datatype Filter = Filter(escrow: string, maxLevel: int)

  const MAX_RECENT := 1000

  predicate Matches(f: Filter, e: Event) {
    e.level <= f.maxLevel && (f.escrow == "" || e.escrow == "" || e.escrow == f.escrow)
  }

  function Select(f: Filter, events: seq<Event>): seq<Event> {
    if events == [] then []
    else (if Matches(f, events[0]) then [events[0]] else []) + Select(f, events[1..])
  }

  function Evicted(history: seq<Event>): nat {
    if |history| <= MAX_RECENT then 0 else |history| - MAX_RECENT
  }

  /** What the buffer holds after the events of history were published: the last thousand. */
  function Window(history: seq<Event>): seq<Event> { history[Evicted(history)..] }

  // ---- polling

  ghost predicate Knows(events: seq<Event>, id: string) {
    exists i :: 0 <= i < |events| && events[i].id == id
  }

  /** The events after the first one with the id. */
  function AfterFirst(events: seq<Event>, id: string): seq<Event> {
    if events == [] then []
    else if events[0].id == id then events[1..]
    else AfterFirst(events[1..], id)
  }

  /** What a poll reads: everything if it names no event or one that is gone. */
  ghost function Unread(events: seq<Event>, since: string): seq<Event> {
    if since != "" && Knows(events, since) then AfterFirst(events, since) else events
  }

  function Upto(limit: int): nat { if limit <= 0 then 50 else limit }

  function Take(events: seq<Event>, n: nat): seq<Event> {
    if |events| <= n then events else events[..n]
  }

  /** The answer to a poll. */
  ghost function Answer(buffer: seq<Event>, f: Filter, since: string, limit: int): seq<Event> {
    Take(Select(f, Unread(buffer, since)), Upto(limit))
  }

  lemma {:induction false} SelectAppends(f: Filter, a: seq<Event>, b: seq<Event>)
    ensures Select(f, a + b) == Select(f, a) + Select(f, b)
  {
    if a == [] {
      assert a + b == b;
    } else {
      assert (a + b)[1..] == a[1..] + b;
      SelectAppends(f, a[1..], b);
    }
  }

  /** What the collecting loop still has to find from position i on, once it is past the named event or not. */
  function ToFind(f: Filter, events: seq<Event>, i: nat, since: string, past: bool): seq<Event>
    requires i <= |events|
    decreases |events| - i
  {
    if i == |events| then []
    else
      (if past && Matches(f, events[i]) then [events[i]] else [])
      + ToFind(f, events, i + 1, since, past || events[i].id == since)
  }

  lemma {:induction false} ToFindSelects(f: Filter, events: seq<Event>, i: nat, since: string, past: bool)
    requires i <= |events|
    ensures ToFind(f, events, i, since, past) == Select(f, if past then events[i..] else AfterFirst(events[i..], since))
    decreases |events| - i
  {
    if i < |events| {
      assert events[i..][1..] == events[i + 1..];
      ToFindSelects(f, events, i + 1, since, past || events[i].id == since);
    }
  }

  /** Whether the collecting loop is past the named event after i events, and what it has found by then. */
  function Collected(f: Filter, events: seq<Event>, since: string, past: bool, i: nat): (bool, seq<Event>)
    requires i <= |events|
  {
    if i == 0 then (past, [])
    else
      var (before, found) := Collected(f, events, since, past, i - 1);
      var e := events[i - 1];
      (before || e.id == since, if before && Matches(f, e) then found + [e] else found)
  }

  lemma {:induction false} CollectedAndToFind(f: Filter, events: seq<Event>, since: string, past: bool, i: nat)
    requires i <= |events|
    ensures var (now, found) := Collected(f, events, since, past, i);
      found + ToFind(f, events, i, since, now) == ToFind(f, events, 0, since, past)
  {
    if i > 0 {
      CollectedAndToFind(f, events, since, past, i - 1);
      var (before, found) := Collected(f, events, since, past, i - 1);
      MoveOver(f, events, i - 1, since, before, found);
    }
  }

  lemma MoveOver(f: Filter, events: seq<Event>, i: nat, since: string, past: bool, found: seq<Event>)
    requires i < |events|
    ensures var e := events[i];
      found + ToFind(f, events, i, since, past)
        == (if past && Matches(f, e) then found + [e] else found)
           + ToFind(f, events, i + 1, since, past || e.id == since)
  {
  }

  /** Where the loop stops, with n events found or none left to look at, it has the answer. */
  lemma CollectedIsAnswer(f: Filter, events: seq<Event>, since: string, past: bool, i: nat, n: nat)
    requires i <= |events| && |Collected(f, events, since, past, i).1| <= n
    requires i == |events| || |Collected(f, events, since, past, i).1| == n
    ensures Collected(f, events, since, past, i).1
      == Take(Select(f, if past then events else AfterFirst(events, since)), n)
  {
    CollectedAndToFind(f, events, since, past, i);
    ToFindSelects(f, events, 0, since, past);
    assert events[0..] == events;
  }

  class Bus {
    var recent: seq<Event>
    ghost var history: seq<Event>

    ghost predicate Valid()
      reads this
    {
      recent == Window(history)
    }

    constructor ()
      ensures Valid() && history == []
    {
      recent, history := [], [];
    }

    /** storeRecent. */
    method StoreRecent(e: Event)
      requires Valid()
      modifies this
      ensures Valid() && history == old(history) + [e]
    {
      recent := recent + [e];
      if |recent| > MAX_RECENT {
        var excess := |recent| - MAX_RECENT;
        recent := recent[excess..];
      }
      history := history + [e];
    }

    /** Whether the event a poll names is still held. */
    method Holds(since: string) returns (found: bool)
      ensures found <==> Knows(recent, since)
    {
      for i := 0 to |recent|
        invariant !Knows(recent[..i], since)
      {
        if recent[i].id == since { return true; }
      }
      assert recent[..|recent|] == recent;
      return false;
    }

    /** The collecting loop: once past the named event, up to n matching ones. */
    method Collect(f: Filter, since: string, past: bool, n: nat) returns (result: seq<Event>)
      requires n > 0
      ensures result == Take(Select(f, if past then recent else AfterFirst(recent, since)), n)
    {
      var pastSince := past;
      result := [];
      for i := 0 to |recent|
        invariant |result| < n && (pastSince, result) == Collected(f, recent, since, past, i)
      {
        var e := recent[i];
        if !pastSince {
          if e.id == since { pastSince := true; }
          continue;
        }
        if e.level > f.maxLevel { continue; }
        if f.escrow != "" && e.escrow != "" && e.escrow != f.escrow { continue; }
        result := result + [e];
        if |result| >= n {
          CollectedIsAnswer(f, recent, since, past, i + 1, n);
          break;
        }
      }
      if |result| < n { CollectedIsAnswer(f, recent, since, past, |recent|, n); }
    }

    /** RecentEvents. */
    method RecentEvents(f: Filter, since: string, limit: int) returns (result: seq<Event>)
      ensures result == Answer(recent, f, since, limit)
    {
      var n := if limit <= 0 then 50 else limit;
      var pastSince := since == "";
      if !pastSince {
        var found := Holds(since);
        if !found { pastSince := true; }
      }
      result := Collect(f, since, pastSince, n);
    }
  }

  // ---- a reader that polls with the last id it was given

  /** What was published so far; how far the reader has read, the id it names, what it has been given,
      and whether an answer has skipped an event it wanted. */
  datatype State = State(history: seq<Event>, pos: nat, cursor: string, given: seq<Event>, skipped: bool)

  datatype Action = Publish(event: Event) | Poll(limit: int)

  function Max(a: nat, b: nat): nat { if a < b then b else a }

  /** How many events an answer of at most n goes through, up to the last one it holds. */
  function Consumed(f: Filter, events: seq<Event>, n: nat): (k: nat)
    ensures k <= |events|
  {
    if n == 0 || Select(f, events) == [] then 0
    else 1 + Consumed(f, events[1..], if Matches(f, events[0]) then n - 1 else n)
  }

  function Rest(history: seq<Event>, at: nat): seq<Event> {
    if at <= |history| then history[at..] else []
  }

  predicate Skips(f: Filter, history: seq<Event>, pos: nat, at: nat) {
    pos < at <= |history| && Select(f, history[pos..at]) != []
  }

  /** The reader after an answer of at most n that was read from a position on. */
  function Advance(f: Filter, s: State, at: nat, answer: seq<Event>, n: nat): State
    requires answer != []
  {
    State(s.history, at + Consumed(f, Rest(s.history, at), n), answer[|answer| - 1].id, s.given + answer,
          s.skipped || Skips(f, s.history, s.pos, at))
  }

  ghost function PollStep(f: Filter, s: State, limit: int): State {
    var answer := Answer(Window(s.history), f, s.cursor, limit);
    if answer == [] then s else Advance(f, s, Max(s.pos, Evicted(s.history)), answer, Upto(limit))
  }

  ghost function Step(f: Filter, s: State, a: Action): State {
    match a
    case Publish(e) => s.(history := s.history + [e])
    case Poll(limit) => PollStep(f, s, limit)
  }

  ghost function Exec(f: Filter, s: State, schedule: seq<Action>): State {
    if schedule == [] then s
    else Step(f, Exec(f, s, schedule[..|schedule| - 1]), schedule[|schedule| - 1])
  }

  /** A reader that starts on a bus with some history. */
  function Joining(history: seq<Event>): State { State(history, Evicted(history), "", [], false) }

  /** Ids are set and unique. */
  ghost predicate GoodIds(history: seq<Event>) {
    && (forall i :: 0 <= i < |history| ==> history[i].id != "")
    && (forall i, j :: 0 <= i < j < |history| ==> history[i].id != history[j].id)
  }

  /** The reader that joined at start has read to pos and names the event just before it. */
  ghost predicate At(history: seq<Event>, start: nat, pos: nat, cursor: string) {
    start <= pos <= |history|
    && if cursor == "" then pos == start else start < pos && cursor == history[pos - 1].id
  }

  lemma {:induction false} AfterFirstAt(events: seq<Event>, i: nat)
    requires i < |events| && GoodIds(events)
    ensures AfterFirst(events, events[i].id) == events[i + 1..]
    decreases i
  {
    if i > 0 {
      AfterFirstAt(events[1..], i - 1);
      assert events[1..][i..] == events[i + 1..];
    }
  }

  /** A poll reads on from the reader's position or, if that has been evicted, from the oldest event held:
      it never repeats an event. */
  lemma PollReadsOn(history: seq<Event>, start: nat, pos: nat, cursor: string)
    requires GoodIds(history) && At(history, start, pos, cursor) && start <= Evicted(history)
    ensures Unread(Window(history), cursor) == history[Max(pos, Evicted(history))..]
  {
    if cursor != "" {
      if pos > Evicted(history) { PollFindsCursor(history, pos); } else { CursorIsGone(history, pos); }
    }
  }

  lemma GoodSuffix(history: seq<Event>, gone: nat)
    requires GoodIds(history) && gone <= |history|
    ensures GoodIds(history[gone..])
  {
    var window := history[gone..];
    forall i | 0 <= i < |window| ensures window[i].id != "" { assert window[i] == history[gone + i]; }
    forall i, j | 0 <= i < j < |window| ensures window[i].id != window[j].id {
      assert window[i] == history[gone + i] && window[j] == history[gone + j];
    }
  }

  lemma PollFindsCursor(history: seq<Event>, pos: nat)
    requires GoodIds(history) && Evicted(history) < pos <= |history|
    ensures Knows(Window(history), history[pos - 1].id)
    ensures AfterFirst(Window(history), history[pos - 1].id) == history[pos..]
  {
    GoodSuffix(history, Evicted(history));
    SuffixFinds(Window(history), history, Evicted(history), pos);
  }

  lemma SuffixFinds(window: seq<Event>, history: seq<Event>, gone: nat, pos: nat)
    requires gone < pos <= |history| && window == history[gone..] && GoodIds(window)
    ensures Knows(window, history[pos - 1].id) && AfterFirst(window, history[pos - 1].id) == history[pos..]
  {
    var at: nat := pos - 1 - gone;
    assert window[at] == history[pos - 1];
    AfterFirstAt(window, at);
    assert window[at + 1..] == history[pos..];
  }

  lemma CursorIsGone(history: seq<Event>, pos: nat)
    requires GoodIds(history) && 0 < pos <= Evicted(history)
    ensures !Knows(Window(history), history[pos - 1].id)
  {
    var window := Window(history);
    assert forall i :: 0 <= i < |window| ==> window[i] == history[Evicted(history) + i];
  }

  lemma TakeOneMore(e: Event, rest: seq<Event>, n: nat)
    requires n > 0
    ensures Take([e] + rest, n) == [e] + Take(rest, n - 1)
  {
    if |rest| > n - 1 { assert ([e] + rest)[..n] == [e] + rest[..n - 1]; }
  }

  /** An answer is what is wanted of the events it goes through. */
  lemma {:induction false} AnswerIsPrefix(f: Filter, events: seq<Event>, n: nat)
    ensures Select(f, events[..Consumed(f, events, n)]) == Take(Select(f, events), n)
    decreases |events|
  {
    if n > 0 && Select(f, events) != [] {
      var hit := Matches(f, events[0]);
      var m := if hit then n - 1 else n;
      var k := Consumed(f, events[1..], m);
      AnswerIsPrefix(f, events[1..], m);
      assert events[..k + 1][1..] == events[1..][..k] && events[..k + 1][0] == events[0];
      if hit { TakeOneMore(events[0], Select(f, events[1..]), n); }
    }
  }

  /** The last event an answer goes through is its own last. */
  lemma {:induction false} AnswerEndsThere(f: Filter, events: seq<Event>, n: nat)
    requires n > 0 && Select(f, events) != []
    ensures var k, answer := Consumed(f, events, n), Take(Select(f, events), n);
      k > 0 && answer != [] && events[k - 1] == answer[|answer| - 1]
    decreases |events|
  {
    var hit := Matches(f, events[0]);
    var m := if hit then n - 1 else n;
    var rest := Select(f, events[1..]);
    if hit { TakeOneMore(events[0], rest, n); }
    if m > 0 && rest != [] { AnswerEndsThere(f, events[1..], m); }
  }

  /** An answer that is not full has gone through all that is wanted. */
  lemma {:induction false} ShortAnswerLeavesNothing(f: Filter, events: seq<Event>, n: nat)
    requires |Select(f, events)| <= n
    ensures Select(f, events[Consumed(f, events, n)..]) == []
    decreases |events|
  {
    if n > 0 && Select(f, events) != [] {
      var m := if Matches(f, events[0]) then n - 1 else n;
      var k := Consumed(f, events[1..], m);
      ShortAnswerLeavesNothing(f, events[1..], m);
      assert events[k + 1..] == events[1..][k..];
    } else {
      assert events[0..] == events;
    }
  }

  lemma WantedSplits(f: Filter, h: seq<Event>, start: nat, pos: nat, at: nat, k: nat)
    requires start <= pos <= at <= |h| && at + k <= |h|
    ensures Select(f, h[start..at + k]) == Select(f, h[start..pos]) + Select(f, h[pos..at]) + Select(f, h[at..][..k])
  {
    assert h[start..at + k] == h[start..pos] + h[pos..at] + h[at..][..k];
    SelectAppends(f, h[start..pos] + h[pos..at], h[at..][..k]);
    SelectAppends(f, h[start..pos], h[pos..at]);
  }

  /** Unless an answer skipped a wanted event, the reader has been given exactly the wanted events up to
      its position, in order and each once; if one did, it has been given fewer. */
  ghost predicate Given(f: Filter, s: State, start: nat)
    requires start <= s.pos <= |s.history|
  {
    var wanted := Select(f, s.history[start..s.pos]);
    if s.skipped then |s.given| < |wanted| else s.given == wanted
  }

  ghost predicate Inv(f: Filter, s: State, start: nat) {
    At(s.history, start, s.pos, s.cursor) && start <= Evicted(s.history) && Given(f, s, start)
  }

  lemma PollKeepsInv(f: Filter, s: State, start: nat, limit: int)
    requires Inv(f, s, start) && GoodIds(s.history)
    ensures Inv(f, PollStep(f, s, limit), start)
  {
    var at := Max(s.pos, Evicted(s.history));
    PollReadsOn(s.history, start, s.pos, s.cursor);
    if Select(f, s.history[at..]) != [] {
      AdvanceKeepsAt(f, s, start, at, Upto(limit));
      AdvanceKeepsGiven(f, s, start, at, Upto(limit));
    }
  }

  lemma AdvanceKeepsAt(f: Filter, s: State, start: nat, at: nat, n: nat)
    requires At(s.history, start, s.pos, s.cursor) && s.pos <= at <= |s.history| && n > 0
    requires Select(f, s.history[at..]) != [] && GoodIds(s.history)
    ensures Take(Select(f, s.history[at..]), n) != []
    ensures var t := Advance(f, s, at, Take(Select(f, s.history[at..]), n), n); At(t.history, start, t.pos, t.cursor)
  {
    var h, unread := s.history, s.history[at..];
    var k := Consumed(f, unread, n);
    AnswerEndsThere(f, unread, n);
    assert unread[k - 1] == h[at + k - 1];
  }

  lemma GivenGrows(given: seq<Event>, wanted: seq<Event>, gap: seq<Event>, answer: seq<Event>, skipped: bool)
    requires if skipped then |given| < |wanted| else given == wanted
    ensures var more := wanted + gap + answer;
      if skipped || gap != [] then |given + answer| < |more| else given + answer == more
  {
    assert gap == [] ==> wanted + gap == wanted;
  }

  lemma AdvanceKeepsGiven(f: Filter, s: State, start: nat, at: nat, n: nat)
    requires start <= s.pos <= at <= |s.history| && Given(f, s, start)
    requires Take(Select(f, s.history[at..]), n) != []
    ensures var t := Advance(f, s, at, Take(Select(f, s.history[at..]), n), n);
      t.pos <= |t.history| && Given(f, t, start)
  {
    var h, unread := s.history, s.history[at..];
    var k, gap := Consumed(f, unread, n), Select(f, h[s.pos..at]);
    var answer := Take(Select(f, unread), n);
    AnswerIsPrefix(f, unread, n);
    WantedSplits(f, h, start, s.pos, at, k);
    GivenGrows(s.given, Select(f, h[start..s.pos]), gap, answer, s.skipped);
    assert Skips(f, h, s.pos, at) <==> gap != [] by {
      if s.pos == at { assert h[s.pos..at] == []; }
    }
  }

  /** Publishing only extends the history. */
  lemma EarlierIdsAreGood(f: Filter, s: State, a: Action)
    requires GoodIds(Step(f, s, a).history)
    ensures GoodIds(s.history)
  {
    assert Step(f, s, a).history[..|s.history|] == s.history;
    assert forall i :: 0 <= i < |s.history| ==> s.history[i] == Step(f, s, a).history[i];
  }

  lemma {:induction false} InvAlways(f: Filter, before: seq<Event>, schedule: seq<Action>)
    requires GoodIds(Exec(f, Joining(before), schedule).history)
    ensures Inv(f, Exec(f, Joining(before), schedule), Evicted(before))
  {
    if schedule == [] {
      var gone := Evicted(before);
      assert before[gone..gone] == [];
    } else {
      var s, a := Exec(f, Joining(before), schedule[..|schedule| - 1]), schedule[|schedule| - 1];
      EarlierIdsAreGood(f, s, a);
      InvAlways(f, before, schedule[..|schedule| - 1]);
      if a.Publish? {
        assert (s.history + [a.event])[Evicted(before)..s.pos] == s.history[Evicted(before)..s.pos];
      } else {
        PollKeepsInv(f, s, Evicted(before), a.limit);
      }
    }
  }

  /** A poll now would come too late: wanted events have been evicted unread, and it would be given later ones. */
  ghost predicate Late(f: Filter, s: State) {
    && s.pos < Evicted(s.history)
    && Select(f, s.history[s.pos..Evicted(s.history)]) != [] && Select(f, Window(s.history)) != []
  }

  lemma PollSkipsWhenLate(f: Filter, s: State, start: nat, limit: int)
    requires Inv(f, s, start) && GoodIds(s.history)
    ensures PollStep(f, s, limit).skipped <==> s.skipped || Late(f, s)
  {
    PollReadsOn(s.history, start, s.pos, s.cursor);
  }

  ghost predicate LateAt(f: Filter, before: seq<Event>, schedule: seq<Action>, k: nat)
    requires k < |schedule|
  {
    schedule[k].Poll? && Late(f, Exec(f, Joining(before), schedule[..k]))
  }

  ghost predicate SomeLate(f: Filter, before: seq<Event>, schedule: seq<Action>) {
    exists k: nat :: k < |schedule| && LateAt(f, before, schedule, k)
  }

  lemma LateAtLast(f: Filter, before: seq<Event>, init: seq<Action>, a: Action)
    ensures SomeLate(f, before, init + [a])
      <==> SomeLate(f, before, init) || (a.Poll? && Late(f, Exec(f, Joining(before), init)))
  {
    var schedule, n := init + [a], |init|;
    assert schedule[..n] == init;
    assert LateAt(f, before, schedule, n) <==> a.Poll? && Late(f, Exec(f, Joining(before), init));
    forall k: nat | k < n ensures LateAt(f, before, schedule, k) <==> LateAt(f, before, init, k) {
      assert init[..k] == schedule[..k];
    }
  }

  lemma {:induction false} SkippedExactly(f: Filter, before: seq<Event>, schedule: seq<Action>)
    requires GoodIds(Exec(f, Joining(before), schedule).history)
    ensures Exec(f, Joining(before), schedule).skipped <==> SomeLate(f, before, schedule)
  {
    if schedule != [] {
      var init, a := schedule[..|schedule| - 1], schedule[|schedule| - 1];
      var s := Exec(f, Joining(before), init);
      EarlierIdsAreGood(f, s, a);
      SkippedExactly(f, before, init);
      InvAlways(f, before, init);
      if a.Poll? { PollSkipsWhenLate(f, s, Evicted(before), a.limit); }
      assert schedule == init + [a];
      LateAtLast(f, before, init, a);
    }
  }

  /** The events that a schedule publishes, in order. */
  function Published(schedule: seq<Action>): seq<Event> {
    if schedule == [] then []
    else
      var last := schedule[|schedule| - 1];
      Published(schedule[..|schedule| - 1]) + if last.Publish? then [last.event] else []
  }

  lemma {:induction false} HistoryIsPublished(f: Filter, before: seq<Event>, schedule: seq<Action>)
    ensures Exec(f, Joining(before), schedule).history == before + Published(schedule)
  {
    if schedule != [] { HistoryIsPublished(f, before, schedule[..|schedule| - 1]); }
  }

  /** A reader that always polls with the last id it was given, with events published in between, has been
      given exactly the wanted events up to its position, in order and without gap or repeat, if and only
      if no poll came so late that a wanted event had been evicted unread. */
  lemma PagingIsExact(f: Filter, before: seq<Event>, schedule: seq<Action>)
    requires GoodIds(before + Published(schedule))
    ensures var s, history := Exec(f, Joining(before), schedule), before + Published(schedule);
      Evicted(before) <= s.pos <= |history|
      && (s.given == Select(f, history[Evicted(before)..s.pos]) <==> !SomeLate(f, before, schedule))
  {
    HistoryIsPublished(f, before, schedule);
    InvAlways(f, before, schedule);
    SkippedExactly(f, before, schedule);
  }

  /** The event that the reader names is still in the buffer; before the first answer, nothing has been
      evicted since the reader joined. */
  ghost predicate InTime(s: State, start: nat) {
    if s.cursor == "" then Evicted(s.history) == start else Knows(Window(s.history), s.cursor)
  }

  /** Exactly then the buffer reaches back to the reader's position. */
  lemma InTimeExactly(s: State, start: nat)
    requires At(s.history, start, s.pos, s.cursor) && GoodIds(s.history)
    ensures InTime(s, start) <==> if s.cursor == "" then s.pos == Evicted(s.history) else s.pos > Evicted(s.history)
  {
    if s.cursor != "" {
      var window, gone := Window(s.history), Evicted(s.history);
      if s.pos > gone {
        assert window[s.pos - 1 - gone] == s.history[s.pos - 1];
      } else {
        assert forall i :: 0 <= i < |window| ==> window[i] == s.history[gone + i];
      }
    }
  }

  /** As long as every poll names an event that is still held, paging is exact. */
  lemma PagingInTimeIsExact(f: Filter, before: seq<Event>, schedule: seq<Action>)
    requires GoodIds(before + Published(schedule))
    requires forall k: nat :: k < |schedule| && schedule[k].Poll? ==>
               InTime(Exec(f, Joining(before), schedule[..k]), Evicted(before))
    ensures var s, history := Exec(f, Joining(before), schedule), before + Published(schedule);
      Evicted(before) <= s.pos <= |history| && s.given == Select(f, history[Evicted(before)..s.pos])
  {
    HistoryIsPublished(f, before, schedule);
    forall k: nat | k < |schedule| ensures !LateAt(f, before, schedule, k) {
      var s := Exec(f, Joining(before), schedule[..k]);
      PrefixIsGood(f, before, schedule, k);
      InvAlways(f, before, schedule[..k]);
      InTimeExactly(s, Evicted(before));
    }
    PagingIsExact(f, before, schedule);
  }

  lemma {:induction false} PrefixIsGood(f: Filter, before: seq<Event>, schedule: seq<Action>, k: nat)
    requires k <= |schedule| && GoodIds(Exec(f, Joining(before), schedule).history)
    ensures GoodIds(Exec(f, Joining(before), schedule[..k]).history)
    decreases |schedule|
  {
    if k == |schedule| {
      assert schedule[..k] == schedule;
    } else {
      var init := schedule[..|schedule| - 1];
      EarlierIdsAreGood(f, Exec(f, Joining(before), init), schedule[|schedule| - 1]);
      PrefixIsGood(f, before, init, k);
      assert init[..k] == schedule[..k];
    }
  }

  lemma AdvanceCatchesUp(f: Filter, s: State, at: nat, n: nat)
    requires at <= |s.history| && 0 < |Select(f, s.history[at..])| < n
    ensures var t := Advance(f, s, at, Take(Select(f, s.history[at..]), n), n);
      at <= t.pos && Select(f, Rest(s.history, t.pos)) == []
  {
    var unread := s.history[at..];
    ShortAnswerLeavesNothing(f, unread, n);
    assert unread[Consumed(f, unread, n)..] == Rest(s.history, at + Consumed(f, unread, n));
  }

  /** After an answer that is not full the reader has caught up: nothing wanted is left. */
  lemma ShortAnswerCatchesUp(f: Filter, s: State, start: nat, limit: int)
    requires Inv(f, s, start) && GoodIds(s.history)
    requires |Answer(Window(s.history), f, s.cursor, limit)| < Upto(limit)
    ensures var t := PollStep(f, s, limit);
      Select(f, Rest(t.history, Max(t.pos, Evicted(t.history)))) == []
  {
    var at := Max(s.pos, Evicted(s.history));
    PollReadsOn(s.history, start, s.pos, s.cursor);
    var wanted := Select(f, s.history[at..]);
    assert Answer(Window(s.history), f, s.cursor, limit) == Take(wanted, Upto(limit));
    if wanted != [] { AdvanceCatchesUp(f, s, at, Upto(limit)); }
  }

  // ---- subscription ids

  lemma {:induction false} DecimalLength(n: nat, digits: nat)
    requires digits > 0 && n < PowerOfTen(digits)
    ensures |Decimal(n)| <= digits
    decreases digits
  {
    if n >= 10 {
      assert n / 10 < PowerOfTen(digits - 1);
      DecimalLength(n / 10, digits - 1);
    }
  }

  function PowerOfTen(n: nat): nat { if n == 0 then 1 else 10 * PowerOfTen(n - 1) }

  const TWO_64 := 0x1_0000_0000_0000_0000

  lemma UnsignedFitsTwentyDigits(n: nat)
    requires n < TWO_64
    ensures |Decimal(n)| <= 20
  {
    assert PowerOfTen(20) == 100_000_000_000_000_000_000 by {
      assert PowerOfTen(5) == 100_000;
      assert PowerOfTen(10) == 10_000_000_000;
      assert PowerOfTen(15) == 1_000_000_000_000_000;
    }
    DecimalLength(n, 20);
  }

  /** itoa: digits written from the end of a 20-byte buffer, which never overflows at the front. */
  method Itoa(n: nat) returns (text: string)
    requires n < TWO_64
    ensures text == Decimal(n)
  {
    if n == 0 { return "0"; }
    UnsignedFitsTwentyDigits(n);
    var buf := new char[20];
    var i, m := 20, n;
    while m > 0
      invariant 0 <= i <= 20 && 0 <= m
      invariant m > 0 ==> Decimal(n) == Decimal(m) + buf[i..]
      invariant m == 0 ==> Decimal(n) == buf[i..]
      decreases m
    {
      assert |Decimal(n)| == |Decimal(m)| + (20 - i);
      i := i - 1;
      buf[i] := Digit(m % 10);
      assert buf[i..] == [Digit(m % 10)] + buf[i + 1..];
      m := m / 10;
    }
    return buf[i..];
  }

  /** Different subscriptions have different ids. */
  lemma SubscriptionIdsAreUnique(n: nat, m: nat)
    requires "sub-" + Decimal(n) == "sub-" + Decimal(m)
    ensures n == m
  {
    assert ("sub-" + Decimal(n))[4..] == Decimal(n) && ("sub-" + Decimal(m))[4..] == Decimal(m);
    DecimalHasValue(n);
    DecimalHasValue(m);
  }
}
