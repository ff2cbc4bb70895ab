/** The block scanner: log requests cut into chunks over 64-bit block numbers, and the cursor protocol
    under overlapping polls. */
module Indexer {
  const TWO_64 := 0x1_0000_0000_0000_0000
  const MAX_INT64 := 0x7fff_ffff_ffff_ffff

  type uint64 = n: int | 0 <= n < TWO_64

  function Add(a: uint64, b: uint64): uint64 { (a + b) % TWO_64 }
  function Sub(a: uint64, b: uint64): uint64 { (a - b) % TWO_64 }
  function Min(a: int, b: int): int { if a < b then a else b }

  // ---- FilterLogs

  datatype Chunk = Chunk(first: uint64, last: uint64)

  function ChunkAt(first: uint64, last: uint64, size: uint64): Chunk {
    Chunk(first, Min(Sub(Add(first, size), 1), last))
  }

  datatype Scan = Scan(complete: bool, chunks: seq<Chunk>)

  /** The requests FilterLogs makes; answers is how many of them succeed before one fails. */
  function Requests(first: uint64, last: uint64, size: uint64, answers: nat): Scan
    decreases answers
  {
    if first > last then Scan(true, [])
    else if answers == 0 then Scan(false, [])
    else
      var rest := Requests(Add(first, size), last, size, answers - 1);
      Scan(rest.complete, [ChunkAt(first, last, size)] + rest.chunks)
  }

  const DEFAULT_CHUNK: uint64 := 2000

  function ChunkSize(configured: uint64): uint64 { if configured == 0 then DEFAULT_CHUNK else configured }

  /** FilterLogs. */
  method FilterLogs(first: uint64, last: uint64, configured: uint64, answers: nat) returns (r: Scan)
    ensures r.complete == Requests(first, last, ChunkSize(configured), answers).complete
    ensures r.complete ==> r.chunks == Requests(first, last, ChunkSize(configured), answers).chunks
  {
    var size := configured;
    if size == 0 { size := DEFAULT_CHUNK; }
    var all: seq<Chunk> := [];
    var at: uint64 := first;
    var left := answers;
    while at <= last
      invariant Requests(first, last, size, answers).complete == Requests(at, last, size, left).complete
      invariant Requests(first, last, size, answers).chunks == all + Requests(at, last, size, left).chunks
      decreases left
    {
      if left == 0 { return Scan(false, []); }
      all := all + [ChunkAt(at, last, size)];
      at := Add(at, size);
      left := left - 1;
    }
    return Scan(true, all);
  }

  /** The chunks cover the range in order, without gap or overlap, none longer than size. */
  ghost predicate Tiles(chunks: seq<Chunk>, first: int, last: int, size: int) {
    if first > last then chunks == []
    else
      && chunks != [] && chunks[0].first == first && first <= chunks[0].last <= last && chunks[0].last - first < size
      && Tiles(chunks[1..], chunks[0].last + 1, last, size)
  }

  /** The start of the last chunk. */
  function LastStart(first: int, last: int, size: int): int
    requires first <= last && size > 0
    decreases last - first
  {
    if first + size > last then first else LastStart(first + size, last, size)
  }

  function ChunkCount(first: int, last: int, size: int): nat
    requires size > 0
    decreases last - first
  {
    if first > last then 0 else 1 + ChunkCount(first + size, last, size)
  }

  lemma TimesAtLeast(size: int, n: int)
    requires size > 0 && n > 0
    ensures size * n >= size
  {
  }

  lemma NoLessQuotient(size: int, q: int, r: int, p: int, t: int)
    requires 0 <= r < size && 0 <= t && size * q + r == size * p + t
    ensures p <= q
  {
    assert size * p == size * q + size * (p - q);
    if p > q { TimesAtLeast(size, p - q); }
  }

  lemma OneMoreTime(d: int, size: int)
    requires d >= 0 && size > 0
    ensures (d + size) / size == d / size + 1
  {
    NoLessQuotient(size, d / size + 1, d % size, (d + size) / size, (d + size) % size);
    NoLessQuotient(size, (d + size) / size, (d + size) % size, d / size + 1, d % size);
  }

  lemma {:induction false} ClosedForms(first: int, last: int, size: int)
    requires first <= last && size > 0
    ensures LastStart(first, last, size) == first + size * ((last - first) / size)
    ensures ChunkCount(first, last, size) == (last - first) / size + 1
    decreases last - first
  {
    if first + size <= last {
      OneMoreTime(last - first - size, size);
      ClosedForms(first + size, last, size);
      var times := (last - first - size) / size;
      assert size * (times + 1) == size * times + size;
    }
  }

  /** One step past the last chunk is still a 64-bit number. */
  predicate StepsFit(first: uint64, last: uint64, size: uint64)
    requires size > 0
  {
    first <= last ==> first + size * ((last - first) / size) + size < TWO_64
  }

  /** Whether that many answers are enough for the chunks of a range. */
  predicate Enough(first: uint64, last: uint64, size: uint64, answers: nat)
    requires size > 0
  {
    first <= last ==> answers > (last - first) / size
  }

  lemma {:induction false} LastStartIsLast(first: int, last: int, size: int)
    requires first <= last && size > 0
    ensures first <= LastStart(first, last, size) <= last < LastStart(first, last, size) + size
    decreases last - first
  {
    if first + size <= last { LastStartIsLast(first + size, last, size); }
  }

  lemma {:induction false} TilesStepByStep(first: uint64, last: uint64, size: uint64, answers: nat)
    requires size > 0
    ensures var r := Requests(first, last, size, answers);
      r.complete && Tiles(r.chunks, first, last, size)
      <==> (first <= last ==> LastStart(first, last, size) + size < TWO_64)
           && answers >= ChunkCount(first, last, size)
    decreases answers
  {
    if first <= last && answers > 0 {
      var r, rest := Requests(first, last, size, answers), Requests(Add(first, size), last, size, answers - 1);
      LastStartIsLast(first, last, size);
      assert r.chunks[1..] == rest.chunks;
      if first + size < TWO_64 {
        assert Add(first, size) == first + size && Sub(Add(first, size), 1) == first + size - 1;
        TilesStepByStep(first + size, last, size, answers - 1);
        if first + size > last {
          assert rest == Scan(true, []);
        }
      } else {
        assert LastStart(first, last, size) == first;
        if first + size == TWO_64 {
          assert Add(first, size) == 0 && ChunkAt(first, last, size) == Chunk(first, last);
          assert rest.complete ==> rest.chunks != [];
        } else {
          assert Add(first, size) == first + size - TWO_64 && Sub(Add(first, size), 1) == first + size - 1 - TWO_64;
          assert ChunkAt(first, last, size).last < first;
        }
      }
    }
  }

  /** The requests tile the range exactly when no step wraps around, given enough answers. */
  lemma RequestsTileExactly(first: uint64, last: uint64, size: uint64, answers: nat)
    requires size > 0
    ensures var r := Requests(first, last, size, answers);
      r.complete && Tiles(r.chunks, first, last, size)
      <==> StepsFit(first, last, size) && Enough(first, last, size, answers)
  {
    TilesStepByStep(first, last, size, answers);
    if first <= last { ClosedForms(first, last, size); }
  }

  const LAST_BLOCK: uint64 := 0xffff_ffff_ffff_ffff

  /** A range that ends at the largest block number is never done, whatever is answered: the step past it
      wraps around to the front. */
  lemma {:induction false} LastBlockIsNeverDone(first: uint64, size: uint64, answers: nat)
    requires size > 0
    ensures !Requests(first, LAST_BLOCK, size, answers).complete
    decreases answers
  {
    if answers > 0 { LastBlockIsNeverDone(Add(first, size), size, answers - 1); }
  }

  /** After the one block asked for, the scan goes on with block 0. */
  lemma LastBlockWraps()
    ensures !StepsFit(LAST_BLOCK, LAST_BLOCK, 1)
    ensures Requests(LAST_BLOCK, LAST_BLOCK, 1, 2) == Scan(false, [Chunk(LAST_BLOCK, LAST_BLOCK), Chunk(0, 0)])
  {
    assert Requests(1, LAST_BLOCK, 1, 0) == Scan(false, []);
    assert Requests(0, LAST_BLOCK, 1, 1) == Scan(false, [Chunk(0, 0)]);
  }

  /** Once complete, a scan has covered every block of its range, even where it wrapped around: a step that
      wraps goes back to before the block that it left. */
  lemma {:induction false} CompleteScanCovers(first: uint64, last: uint64, size: uint64, answers: nat, block: int)
    requires size > 0 && Requests(first, last, size, answers).complete && first <= block <= last
    ensures exists c :: c in Requests(first, last, size, answers).chunks && c.first <= block <= c.last
    decreases answers
  {
    var here := ChunkAt(first, last, size);
    var chunks := Requests(first, last, size, answers).chunks;
    assert here == chunks[0];
    if !(here.first <= block <= here.last) {
      var next := Add(first, size);
      CompleteScanCovers(next, last, size, answers - 1, block);
      var c :| c in Requests(next, last, size, answers - 1).chunks && c.first <= block <= c.last;
      assert c in chunks;
    }
  }

  // ---- overlapping polls

  const LOOKBACK := 250

  /** The configured start block (0 for none) and the chunk size in use. */
  datatype Config = Config(start: uint64, size: uint64)

  datatype Poll =
    | GotBlock(current: uint64)
    | GotRange(first: uint64, current: uint64)
    | ScannedRange(current: uint64)
    | Over

  /** The stored cursor (0 for none), the chunks scanned for factory events, and the polls. */
  datatype State = State(cursor: int, scanned: set<Chunk>, polls: map<nat, Poll>)

  const Start := State(0, {}, map[])

  datatype Action =
    | GetBlock(poll: nat, current: uint64)
    | ReadCursor(poll: nat)
    | IndexFactory(poll: nat, answers: nat)
    | SaveCursor(poll: nat)
    | Fail(poll: nat)

  /** Where RunOnce starts scanning. */
  function FirstBlock(config: Config, cursor: int, current: uint64): uint64
    requires 0 <= cursor <= MAX_INT64
  {
    if cursor == 0 then
      if config.start > 0 then config.start else if current > LOOKBACK then current - LOOKBACK else 0
    else cursor + 1
  }

  function RangeStep(config: Config, cursor: int, current: uint64): Poll {
    if cursor < 0 || cursor > MAX_INT64 then Over
    else
      var first := FirstBlock(config, cursor, current);
      if first > current then Over else GotRange(first, current)
  }

  function ScanStep(config: Config, s: State, poll: nat, first: uint64, current: uint64, answers: nat): State {
    var r := Requests(first, current, config.size, answers);
    if r.complete then
      s.(scanned := s.scanned + (set c | c in r.chunks), polls := s.polls[poll := ScannedRange(current)])
    else s.(polls := s.polls[poll := Over])
  }

  function SaveStep(s: State, poll: nat, current: uint64): State {
    State(if current > MAX_INT64 then s.cursor else current, s.scanned, s.polls[poll := Over])
  }

  function Step(config: Config, s: State, a: Action): State {
    match a
    case GetBlock(poll, current) =>
      if poll in s.polls then s else s.(polls := s.polls[poll := GotBlock(current)])
    case ReadCursor(poll) =>
      if poll in s.polls && s.polls[poll].GotBlock?
      then s.(polls := s.polls[poll := RangeStep(config, s.cursor, s.polls[poll].current)]) else s
    case IndexFactory(poll, answers) =>
      if poll in s.polls && s.polls[poll].GotRange?
      then ScanStep(config, s, poll, s.polls[poll].first, s.polls[poll].current, answers) else s
    case SaveCursor(poll) =>
      if poll in s.polls && s.polls[poll].ScannedRange? then SaveStep(s, poll, s.polls[poll].current) else s
    case Fail(poll) =>
      if poll in s.polls then s.(polls := s.polls[poll := Over]) else s
  }

  function Exec(config: Config, s: State, schedule: seq<Action>): State {
    if schedule == [] then s
    else Step(config, Exec(config, s, schedule[..|schedule| - 1]), schedule[|schedule| - 1])
  }

  ghost predicate Scanned(s: State, block: int) {
    exists c :: c in s.scanned && c.first <= block <= c.last
  }

  /** Every block from the first to the last has been scanned. */
  ghost predicate ScannedBetween(s: State, first: int, last: int) {
    forall block :: first <= block <= last ==> Scanned(s, block)
  }

  ghost predicate PollOk(config: Config, s: State, p: Poll) {
    match p
    case GotRange(first, current) => ScannedBetween(s, config.start, first - 1)
    case ScannedRange(current) => current <= MAX_INT64 ==> ScannedBetween(s, config.start, current)
    case _ => true
  }

  ghost predicate Inv(config: Config, s: State) {
    && 0 <= s.cursor <= MAX_INT64
    && ScannedBetween(s, config.start, s.cursor)
    && forall p :: p in s.polls ==> PollOk(config, s, s.polls[p])
  }

  lemma MoreIsScanned(config: Config, s: State, t: State, p: Poll)
    requires s.scanned <= t.scanned && PollOk(config, s, p)
    ensures PollOk(config, t, p)
  {
    forall block | Scanned(s, block) ensures Scanned(t, block) {
      var c :| c in s.scanned && c.first <= block <= c.last;
      assert c in t.scanned;
    }
  }

  lemma ScanExtends(config: Config, s: State, poll: nat, first: uint64, current: uint64, answers: nat)
    requires 0 < config.size && ScannedBetween(s, config.start, first - 1)
    ensures var t := ScanStep(config, s, poll, first, current, answers);
      PollOk(config, t, t.polls[poll])
  {
    var r := Requests(first, current, config.size, answers);
    var t := ScanStep(config, s, poll, first, current, answers);
    if r.complete && current <= MAX_INT64 {
      forall block | config.start <= block <= current ensures Scanned(t, block) {
        if block < first {
          assert Scanned(s, block);
          var c :| c in s.scanned && c.first <= block <= c.last;
          assert c in t.scanned;
        } else {
          CompleteScanCovers(first, current, config.size, answers, block);
          var c :| c in r.chunks && c.first <= block <= c.last;
          assert c in t.scanned;
        }
      }
    }
  }

  lemma StepKeepsInv(config: Config, s: State, a: Action)
    requires 0 < config.start && 0 < config.size && Inv(config, s)
    ensures Inv(config, Step(config, s, a))
  {
    var t := Step(config, s, a);
    forall p | p in t.polls ensures PollOk(config, t, t.polls[p]) {
      if p in s.polls && t.polls[p] == s.polls[p] {
        MoreIsScanned(config, s, t, s.polls[p]);
      } else if a.IndexFactory? {
        ScanExtends(config, s, p, s.polls[p].first, s.polls[p].current, a.answers);
      } else if a.ReadCursor? {
        forall block | config.start <= block <= s.cursor ensures Scanned(t, block) {
          assert Scanned(s, block);
        }
      }
    }
    forall block | config.start <= block <= t.cursor ensures Scanned(t, block) {
      if a.SaveCursor? && t.cursor != s.cursor {
        assert PollOk(config, s, s.polls[a.poll]);
      }
      assert Scanned(s, block);
      var c :| c in s.scanned && c.first <= block <= c.last;
      assert c in t.scanned;
    }
  }

  lemma {:induction false} InvAlways(config: Config, schedule: seq<Action>)
    requires 0 < config.start && 0 < config.size
    ensures Inv(config, Exec(config, Start, schedule))
  {
    if schedule != [] {
      InvAlways(config, schedule[..|schedule| - 1]);
      StepKeepsInv(config, Exec(config, Start, schedule[..|schedule| - 1]), schedule[|schedule| - 1]);
    }
  }

  /** With a start block set, in every interleaving of polls, whatever heights they are told, each block
      from the start block to the stored cursor has been scanned for factory events. */
  lemma CursorIsCovered(config: Config, schedule: seq<Action>, block: int)
    requires 0 < config.start && 0 < config.size
    requires config.start <= block <= Exec(config, Start, schedule).cursor
    ensures Scanned(Exec(config, Start, schedule), block)
  {
    InvAlways(config, schedule);
  }

  // ---- where polls start and what they save

  /** Whatever other polls have done, saving leaves the cursor at the height that this poll was told and scanned to,
      if a signed number holds it; otherwise the cursor stays. */
  lemma SavedExactly(config: Config, s: State, poll: nat, height: uint64)
    requires poll in s.polls && s.polls[poll] == ScannedRange(height)
    ensures var t := Step(config, s, SaveCursor(poll));
      && t.cursor == (if height <= 0x7fff_ffff_ffff_ffff then height else s.cursor)
      && t.scanned == s.scanned && t.polls == s.polls[poll := Over]
  {
  }

  /** Where a poll that is told the height starts: after the cursor; without one at the start block, or else 250
      blocks back if there are more. */
  function StartsAt(start: uint64, cursor: int, height: uint64): int {
    if cursor > 0 then cursor + 1 else if start > 0 then start else if height > 250 then height - 250 else 0
  }

  function WholePoll(poll: nat, height: uint64, answers: nat): seq<Action> {
    [GetBlock(poll, height), ReadCursor(poll), IndexFactory(poll, answers), SaveCursor(poll)]
  }

  lemma FourSteps(config: Config, s: State, a: Action, b: Action, c: Action, d: Action)
    ensures Exec(config, s, [a, b, c, d])
      == Step(config, Step(config, Step(config, Step(config, s, a), b), c), d)
  {
    assert [a, b, c, d][..3] == [a, b, c] && [a, b, c][..2] == [a, b] && [a, b][..1] == [a] && [a][..0] == [];
    assert Exec(config, s, []) == s;
    assert Exec(config, s, [a]) == Step(config, s, a);
    assert Exec(config, s, [a, b]) == Step(config, Step(config, s, a), b);
    assert Exec(config, s, [a, b, c]) == Step(config, Step(config, Step(config, s, a), b), c);
  }

  /** A poll that runs on its own, from any cursor: it scans from where it starts to the height it is told and leaves
      the cursor there; where it has nothing to do, or a request fails, the cursor stays and nothing counts as scanned.
      Only a height that a signed number cannot hold is scanned and not saved. */
  lemma PollMovesCursor(config: Config, s: State, poll: nat, height: uint64, answers: nat)
    requires poll !in s.polls && 0 <= s.cursor <= MAX_INT64 && 0 < config.size
    ensures var t, first := Exec(config, s, WholePoll(poll, height, answers)), StartsAt(config.start, s.cursor, height);
      && 0 <= first < TWO_64
      && var done := first <= height && Requests(first, height, config.size, answers).complete;
         && t.cursor == (if done && height <= 0x7fff_ffff_ffff_ffff then height else s.cursor)
         && (if done then ScannedBetween(t, first, height) && s.scanned <= t.scanned else t.scanned == s.scanned)
  {
    FourSteps(config, s, GetBlock(poll, height), ReadCursor(poll), IndexFactory(poll, answers), SaveCursor(poll));
    var s1 := Step(config, s, GetBlock(poll, height));
    var s2 := Step(config, s1, ReadCursor(poll));
    var first := StartsAt(config.start, s.cursor, height);
    assert s2.polls[poll] == if first > height then Over else GotRange(first, height);
    if first <= height { ScansAndSaves(config, s2, poll, first, height, answers); }
  }

  lemma ScansAndSaves(config: Config, s: State, poll: nat, first: uint64, height: uint64, answers: nat)
    requires poll in s.polls && s.polls[poll] == GotRange(first, height) && 0 < config.size
    ensures var t := Step(config, Step(config, s, IndexFactory(poll, answers)), SaveCursor(poll));
      var done := Requests(first, height, config.size, answers).complete;
      && t.cursor == (if done && height <= 0x7fff_ffff_ffff_ffff then height else s.cursor)
      && (if done then ScannedBetween(t, first, height) && s.scanned <= t.scanned else t.scanned == s.scanned)
  {
    if Requests(first, height, config.size, answers).complete {
      var mid := Step(config, s, IndexFactory(poll, answers));
      ScannedAsFarAs(config, s, poll, first, height, answers);
      SavedExactly(config, mid, poll, height);
      forall block | first <= block <= height ensures Scanned(Step(config, mid, SaveCursor(poll)), block) {
        assert Scanned(mid, block);
      }
    }
  }

  lemma ScannedAsFarAs(config: Config, s: State, poll: nat, first: uint64, height: uint64, answers: nat)
    requires 0 < config.size && Requests(first, height, config.size, answers).complete
    ensures var t := ScanStep(config, s, poll, first, height, answers);
      ScannedBetween(t, first, height) && s.scanned <= t.scanned
  {
    var t := ScanStep(config, s, poll, first, height, answers);
    forall block | first <= block <= height ensures Scanned(t, block) {
      CompleteScanCovers(first, height, config.size, answers, block);
      var c :| c in Requests(first, height, config.size, answers).chunks && c.first <= block <= c.last;
      assert c in t.scanned;
    }
  }

  /** The height a poll is working up to. */
  function HeightOf(p: Poll): uint64
    requires !p.Over?
  {
    p.current
  }

  ghost predicate Told(schedule: seq<Action>, height: int) {
    exists a :: a in schedule && a.GetBlock? && a.current == height
  }

  lemma StillTold(schedule: seq<Action>, height: int)
    requires schedule != [] && Told(schedule[..|schedule| - 1], height)
    ensures Told(schedule, height)
  {
  }

  /** In every run each poll works up to a height that it was told, and the cursor is such a height once it is set. */
  lemma {:induction false} HeightsAreTold(config: Config, schedule: seq<Action>, poll: nat)
    ensures var s := Exec(config, Start, schedule);
      && (poll in s.polls && !s.polls[poll].Over? ==> GetBlock(poll, HeightOf(s.polls[poll])) in schedule)
      && (s.cursor != 0 ==> Told(schedule, s.cursor))
  {
    if schedule != [] {
      var init, a := schedule[..|schedule| - 1], schedule[|schedule| - 1];
      var s := Exec(config, Start, init);
      assert schedule == init + [a];
      HeightsAreTold(config, init, poll);
      if a.SaveCursor? && a.poll in s.polls && s.polls[a.poll].ScannedRange? {
        HeightsAreTold(config, init, a.poll);
        assert GetBlock(a.poll, HeightOf(s.polls[a.poll])) in schedule;
      }
      if s.cursor != 0 { StillTold(schedule, s.cursor); }
    }
  }
}
