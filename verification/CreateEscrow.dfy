/** The escrow service's crash-tolerant CreateEscrow protocol.

    Any number of callers run concurrently and may crash between any two steps. Each database
    statement or transaction, each chain call and each local decision is one step. The chain
    either sends a transaction, whose receipt is then fixed, or fails without sending. A
    schedule is any sequence of steps; a step that is not enabled leaves the state alone. */
module CreateEscrow {
  import opened Common

  type RowId = nat
  type CallId = nat
  type Hash = string
  type Address = string

  datatype Milestone = Milestone(amount: int, deadline: int)

  /** Everything the create intent id digests. The digest is taken to be injective, so the
      payload itself stands for the id. */
  datatype Intent = Intent(terms: string, milestones: seq<Milestone>)

  /** "pending", "submitting", "pending_confirmation", "created", and whatever the indexer sets later. */
  datatype Status = Pending | Submitting | PendingConfirmation | Created | Later

  /** An escrow row with its milestone rows. No address stands for the "pending:" placeholder,
      which is not a hex address. The hash is empty until one is stored. */
  datatype Row = Row(
    intent: Intent,
    status: Status,
    hash: Hash,
    address: Option<Address>,
    escrowId: int,
    milestones: seq<Milestone>)

  datatype Receipt = Mined(address: Address, escrowId: int) | Reverted
  datatype Sent = Sent(intent: Intent, receipt: Receipt)
  datatype Result = Result(hash: Hash, address: Address, escrowId: int)

  datatype Pc =
    | LookingUp
    | Inserting
    | Rereading
    | Deciding(row: RowId, seen: Row)
    | Claiming(row: RowId)
    | Yielding(row: RowId)
    | Sending(row: RowId)
    | Unclaiming(row: RowId)
    | Persisting(row: RowId, hash: Hash, attempt: nat)
    | Awaiting(row: RowId, hash: Hash)
    | Finalizing(row: RowId, result: Result)
    | Reconciling(row: RowId)
    | Succeeded(row: RowId, result: Result)
    | Stopped

  datatype Call = Call(intent: Intent, pc: Pc)

  /** indexed holds the addresses of the rows that the indexer has inserted on its own. */
  datatype State = State(
    rows: map<RowId, Row>,
    nextRow: RowId,
    chain: map<Hash, Sent>,
    indexed: set<Address>,
    calls: map<CallId, Call>)

  datatype Action =
    | Arrive(c: CallId, intent: Intent)
    | LookUp(c: CallId, readable: bool)
    | Insert(c: CallId, reply: DbReply)
    | Reread(c: CallId, readable: bool)
    | Decide(c: CallId)
    | Claim(c: CallId, reply: DbReply)
    | Yield(c: CallId, readable: bool)
    | Send(c: CallId, hash: Hash, receipt: Receipt, accepted: bool)
    | Unclaim(c: CallId, reply: DbReply)
    | Persist(c: CallId, reply: DbReply, cancelled: bool)
    | Await(c: CallId, arrived: bool)
    | Finalize(c: CallId, milestonesInserted: bool, reply: DbReply)
    | Reconcile(c: CallId, readable: bool)
    | Crash(c: CallId)
    | Index(row: RowId)
    | Discover(hash: Hash)

  const MAX_PERSIST_ATTEMPTS := 3
  const Start := State(map[], 0, map[], {}, map[])

  function Goto(s: State, c: CallId, pc: Pc): State
    requires c in s.calls
  {
    s.(calls := s.calls[c := s.calls[c].(pc := pc)])
  }

  function Write(s: State, r: RowId, row: Row): State {
    s.(rows := s.rows[r := row])
  }

  /** The row of an intent, as the unique index on create_intent_id finds it. */
  ghost predicate IsRowOf(s: State, r: RowId, intent: Intent) {
    r in s.rows && s.rows[r].intent == intent
  }

  ghost function FindRow(s: State, intent: Intent): Option<RowId> {
    if r :| IsRowOf(s, r, intent) then
      var r :| IsRowOf(s, r, intent); Some(r)
    else None
  }

  /** Read the row of this intent, now or after an insert found a duplicate. */
  ghost function LookUpStep(s: State, c: CallId, readable: bool, otherwise: Pc): State
    requires c in s.calls
  {
    if !readable then Goto(s, c, Stopped) else
      match FindRow(s, s.calls[c].intent)
      case Some(r) => Goto(s, c, Deciding(r, s.rows[r]))
      case None => Goto(s, c, otherwise)
  }

  /** Insert the task and the pending row in one transaction, unless the intent already has a row. */
  ghost function InsertStep(s: State, c: CallId, reply: DbReply): State
    requires c in s.calls
  {
    var intent := s.calls[c].intent;
    if FindRow(s, intent).Some? then Goto(s, c, Rereading)
    else if reply.Refused? then Goto(s, c, Stopped) else
      var row := Row(intent, Pending, "", None, 0, []);
      var t := Write(s, s.nextRow, row).(nextRow := s.nextRow + 1);
      Goto(t, c, if reply.Applied? then Deciding(s.nextRow, row) else Stopped)
  }

  /** What the caller does with the row it has read. */
  function DecideStep(s: State, c: CallId): State
    requires c in s.calls && s.calls[c].pc.Deciding?
  {
    var Deciding(r, seen) := s.calls[c].pc;
    if seen.status == Created && seen.address.Some? && seen.escrowId > 0
    then Goto(s, c, Succeeded(r, Result(seen.hash, seen.address.value, seen.escrowId)))
    else if seen.hash != "" then Goto(s, c, Awaiting(r, seen.hash))
    else Goto(s, c, Claiming(r))
  }

  /** TransitionEscrowStatus: pending to submitting, as a compare-and-set. */
  function ClaimStep(s: State, c: CallId, reply: DbReply): State
    requires c in s.calls && s.calls[c].pc.Claiming?
  {
    var r := s.calls[c].pc.row;
    if reply.Refused? || r !in s.rows then Goto(s, c, Stopped)
    else if s.rows[r].status != Pending then Goto(s, c, if reply.Applied? then Yielding(r) else Stopped)
    else Goto(Write(s, r, s.rows[r].(status := Submitting)), c, if reply.Applied? then Sending(r) else Stopped)
  }

  /** Lost the race: go on with the winner's hash if it is there already. */
  function YieldStep(s: State, c: CallId, readable: bool): State
    requires c in s.calls && s.calls[c].pc.Yielding?
  {
    var r := s.calls[c].pc.row;
    if readable && r in s.rows && s.rows[r].hash != "" then Goto(s, c, Awaiting(r, s.rows[r].hash))
    else Goto(s, c, Stopped)
  }

  /** The chain call. A sent transaction has a hash that no earlier one had. */
  function SendStep(s: State, c: CallId, hash: Hash, receipt: Receipt, accepted: bool): State
    requires c in s.calls && s.calls[c].pc.Sending?
  {
    var Call(intent, Sending(r)) := s.calls[c];
    if accepted && hash != "" && hash !in s.chain
    then Goto(s.(chain := s.chain[hash := Sent(intent, receipt)]), c, Persisting(r, hash, 1))
    else Goto(s, c, Unclaiming(r))
  }

  /** The chain call failed: set the status back to pending, whatever it is. */
  function UnclaimStep(s: State, c: CallId, reply: DbReply): State
    requires c in s.calls && s.calls[c].pc.Unclaiming?
  {
    var r := s.calls[c].pc.row;
    Goto(if reply.Refused? || r !in s.rows then s else Write(s, r, s.rows[r].(status := Pending)), c, Stopped)
  }

  /** SetEscrowCreateTxHash as a compare-and-set on "submitting", tried up to three times. */
  function PersistStep(s: State, c: CallId, reply: DbReply, cancelled: bool): State
    requires c in s.calls && s.calls[c].pc.Persisting?
  {
    var Persisting(r, hash, attempt) := s.calls[c].pc;
    var matched := !reply.Refused? && r in s.rows && s.rows[r].status == Submitting;
    var t := if matched then Write(s, r, s.rows[r].(hash := hash, status := PendingConfirmation)) else s;
    if matched && reply.Applied? then Goto(t, c, Awaiting(r, hash))
    else if cancelled || attempt >= MAX_PERSIST_ATTEMPTS then Goto(t, c, Stopped)
    else Goto(t, c, Persisting(r, hash, attempt + 1))
  }

  function AwaitStep(s: State, c: CallId, arrived: bool): State
    requires c in s.calls && s.calls[c].pc.Awaiting?
  {
    var Awaiting(r, hash) := s.calls[c].pc;
    if arrived && hash in s.chain && s.chain[hash].receipt.Mined?
    then Goto(s, c, Finalizing(r, Result(hash, s.chain[hash].receipt.address, s.chain[hash].receipt.escrowId)))
    else Goto(s, c, Stopped)
  }

  /** Another row, of a caller or of the indexer, has the address: the unique index on escrow_address
      refuses it. */
  ghost predicate Taken(s: State, r: RowId, address: Address) {
    address in s.indexed || exists q :: q in s.rows && q != r && s.rows[q].address == Some(address)
  }

  /** One transaction: compare-and-set to "created" with the on-chain fields, under the unique address,
      and insert this caller's milestones. */
  ghost function FinalizeStep(s: State, c: CallId, milestonesInserted: bool, reply: DbReply): State
    requires c in s.calls && s.calls[c].pc.Finalizing?
  {
    var Call(intent, Finalizing(r, result)) := s.calls[c];
    if r !in s.rows || s.rows[r].status != PendingConfirmation then Goto(s, c, Reconciling(r))
    else if Taken(s, r, result.address) || !milestonesInserted || reply.Refused? then Goto(s, c, Stopped)
    else
      var row := s.rows[r].(status := Created, address := Some(result.address), escrowId := result.escrowId,
                            milestones := s.rows[r].milestones + intent.milestones);
      Goto(Write(s, r, row), c, if reply.Applied? then Succeeded(r, result) else Stopped)
  }

  /** The row had left "pending_confirmation": report what is stored if it is finalized. */
  function ReconcileStep(s: State, c: CallId, readable: bool): State
    requires c in s.calls && s.calls[c].pc.Reconciling?
  {
    var r := s.calls[c].pc.row;
    if readable && r in s.rows && s.rows[r].status == Created && s.rows[r].address.Some?
       && s.rows[r].escrowId > 0
    then Goto(s, c, Succeeded(r, Result(s.rows[r].hash, s.rows[r].address.value, s.rows[r].escrowId)))
    else Goto(s, c, Stopped)
  }

  /** The indexer sees EscrowCreated: it inserts a row of its own unless the address is stored. */
  ghost function DiscoverStep(s: State, hash: Hash): State {
    if hash !in s.chain || s.chain[hash].receipt.Reverted? then s
    else
      var address := s.chain[hash].receipt.address;
      if address in s.indexed || exists r :: r in s.rows && s.rows[r].address == Some(address) then s
      else s.(indexed := s.indexed + {address})
  }

  /** The indexer moves the status of a created escrow on. */
  function IndexStep(s: State, r: RowId): State {
    if r in s.rows && s.rows[r].status == Created then Write(s, r, s.rows[r].(status := Later)) else s
  }

  /** A step of a caller, if it is at the point of the protocol where the step is taken. */
  ghost function CallStep(s: State, a: Action): State
    requires !a.Index? && !a.Discover? && a.c in s.calls
  {
    var pc := s.calls[a.c].pc;
    match a
    case LookUp(c, readable) => if pc.LookingUp? then LookUpStep(s, c, readable, Inserting) else s
    case Insert(c, reply) => if pc.Inserting? then InsertStep(s, c, reply) else s
    case Reread(c, readable) => if pc.Rereading? then LookUpStep(s, c, readable, Stopped) else s
    case Decide(c) => if pc.Deciding? then DecideStep(s, c) else s
    case Claim(c, reply) => if pc.Claiming? then ClaimStep(s, c, reply) else s
    case Yield(c, readable) => if pc.Yielding? then YieldStep(s, c, readable) else s
    case Send(c, hash, receipt, accepted) => if pc.Sending? then SendStep(s, c, hash, receipt, accepted) else s
    case Unclaim(c, reply) => if pc.Unclaiming? then UnclaimStep(s, c, reply) else s
    case Persist(c, reply, cancelled) => if pc.Persisting? then PersistStep(s, c, reply, cancelled) else s
    case Await(c, arrived) => if pc.Awaiting? then AwaitStep(s, c, arrived) else s
    case Finalize(c, inserted, reply) => if pc.Finalizing? then FinalizeStep(s, c, inserted, reply) else s
    case Reconcile(c, readable) => if pc.Reconciling? then ReconcileStep(s, c, readable) else s
    case Crash(c) => if pc.Succeeded? then s else Goto(s, c, Stopped)
    case Arrive(_, _) => s
  }

  ghost function Step(s: State, a: Action): State {
    if a.Index? then IndexStep(s, a.row)
    else if a.Discover? then DiscoverStep(s, a.hash)
    else if a.c in s.calls then CallStep(s, a)
    else if a.Arrive? then s.(calls := s.calls[a.c := Call(a.intent, LookingUp)])
    else s
  }

  ghost function Exec(s: State, schedule: seq<Action>): State {
    if schedule == [] then s
    else Step(Exec(s, schedule[..|schedule| - 1]), schedule[|schedule| - 1])
  }

  // ---- the invariant

  ghost predicate SentFor(s: State, hash: Hash, intent: Intent) {
    hash in s.chain && s.chain[hash].intent == intent
  }

  ghost predicate Unsent(s: State, intent: Intent) {
    forall h :: h in s.chain ==> s.chain[h].intent != intent
  }

  ghost predicate ConfirmedBy(s: State, row: Row, hash: Hash) {
    row.hash == hash && SentFor(s, hash, row.intent)
  }

  /** The on-chain fields are those of the one transaction sent for the row. */
  ghost predicate Reports(s: State, result: Result, intent: Intent) {
    SentFor(s, result.hash, intent) && s.chain[result.hash].receipt == Mined(result.address, result.escrowId)
  }

  ghost predicate RowOk(s: State, row: Row) {
    match row.status
    case Pending => row.hash == "" && row.address.None? && row.milestones == [] && Unsent(s, row.intent)
    case Submitting => row.hash == "" && row.address.None? && row.milestones == []
    case PendingConfirmation => SentFor(s, row.hash, row.intent) && row.address.None? && row.milestones == []
    case _ =>
      && row.address.Some? && row.milestones == row.intent.milestones
      && Reports(s, Result(row.hash, row.address.value, row.escrowId), row.intent)
  }

  ghost predicate RowsOk(s: State) {
    && (forall r :: r in s.rows ==> r < s.nextRow && RowOk(s, s.rows[r]))
    && (forall r, q :: r in s.rows && q in s.rows && s.rows[r].intent == s.rows[q].intent ==> r == q)
  }

  ghost predicate ChainOk(s: State) {
    && "" !in s.chain
    && forall h, k :: h in s.chain && k in s.chain && s.chain[h].intent == s.chain[k].intent ==> h == k
  }

  ghost predicate Finished(row: Row) {
    row.status == Created || row.status == Later
  }

  /** What a caller has read or been told stays true of the row. */
  ghost predicate CallOk(s: State, call: Call) {
    var pc := call.pc;
    (!(pc.LookingUp? || pc.Inserting? || pc.Rereading? || pc.Stopped?) ==>
      && IsRowOf(s, pc.row, call.intent)
      && var row := s.rows[pc.row];
         match pc
         case Deciding(_, seen) =>
           && (seen.hash != "" ==> ConfirmedBy(s, row, seen.hash))
           && (seen.status == Created && seen.address.Some? ==>
                 Finished(row) && Reports(s, Result(seen.hash, seen.address.value, seen.escrowId), call.intent))
         case Sending(_) => row.status == Submitting && Unsent(s, call.intent)
         case Unclaiming(_) => row.status == Submitting && Unsent(s, call.intent)
         case Persisting(_, hash, _) => SentFor(s, hash, call.intent)
         case Awaiting(_, hash) => ConfirmedBy(s, row, hash)
         case Finalizing(_, result) => ConfirmedBy(s, row, result.hash) && Reports(s, result, call.intent)
         case Succeeded(_, result) => Finished(row) && Reports(s, result, call.intent)
         case _ => true)
  }

  ghost predicate CallsOk(s: State) {
    forall c :: c in s.calls ==> CallOk(s, s.calls[c])
  }

  /** A caller that has claimed the row and not yet finished with the claim. */
  ghost predicate Claims(pc: Pc, r: RowId) {
    (pc.Sending? || pc.Unclaiming? || pc.Persisting?) && pc.row == r
  }

  ghost predicate ClaimsOk(s: State) {
    forall c, d, r: RowId {:trigger Claims(s.calls[c].pc, r), Claims(s.calls[d].pc, r)} ::
      c in s.calls && d in s.calls && Claims(s.calls[c].pc, r) && Claims(s.calls[d].pc, r) ==> c == d
  }

  ghost predicate ChainHasRows(s: State) {
    forall h :: h in s.chain ==> exists r :: IsRowOf(s, r, s.chain[h].intent)
  }

  ghost predicate Inv(s: State) {
    RowsOk(s) && ChainHasRows(s) && ChainOk(s) && CallsOk(s) && ClaimsOk(s)
  }

  // ---- every step keeps it

  /** A step that only moves call c, to a point where it claims no more than before. */
  lemma MoveKeepsInv(s: State, c: CallId, call: Call)
    requires Inv(s) && CallOk(s, call)
    requires forall r: RowId :: Claims(call.pc, r) ==> c in s.calls && Claims(s.calls[c].pc, r)
    ensures Inv(s.(calls := s.calls[c := call]))
  {
    var t := s.(calls := s.calls[c := call]);
    forall d | d in t.calls ensures CallOk(t, t.calls[d]) {
      if d != c { assert CallOk(s, s.calls[d]); }
    }
    forall r | r in t.rows ensures RowOk(t, t.rows[r]) {
      assert RowOk(s, s.rows[r]);
    }
    RowsStay(s, t);
  }

  lemma LookUpKeepsInv(s: State, c: CallId, readable: bool, otherwise: Pc)
    requires Inv(s) && c in s.calls && (otherwise.Inserting? || otherwise.Stopped?)
    ensures Inv(LookUpStep(s, c, readable, otherwise))
  {
    var t := LookUpStep(s, c, readable, otherwise);
    if t.calls[c].pc.Deciding? {
      var r := t.calls[c].pc.row;
      assert RowOk(s, s.rows[r]);
    }
    MoveKeepsInv(s, c, t.calls[c]);
  }

  /** A step of call c that rewrites row r, keeping its intent, and leaves the chain alone. */
  ghost predicate Rewrites(s: State, t: State, c: CallId, r: RowId) {
    && c in s.calls && c in t.calls && r in s.rows && r in t.rows
    && t == s.(rows := s.rows[r := t.rows[r]], calls := s.calls[c := t.calls[c]])
    && t.rows[r].intent == s.rows[r].intent && t.calls[c].intent == s.calls[c].intent
  }

  lemma RewriteKeepsInv(s: State, t: State, c: CallId, r: RowId)
    requires Inv(s) && Rewrites(s, t, c, r)
    requires RowOk(t, t.rows[r]) && CallOk(t, t.calls[c]) && ClaimsOk(t)
    requires forall d :: d in s.calls && d != c && CallOk(s, s.calls[d]) ==> CallOk(t, s.calls[d])
    ensures Inv(t)
  {
    forall q | q in t.rows ensures q < t.nextRow && RowOk(t, t.rows[q]) {
      if q != r { assert RowOk(s, s.rows[q]); }
    }
    forall d | d in t.calls ensures CallOk(t, t.calls[d]) {
      if d != c { assert CallOk(s, s.calls[d]); }
    }
    RowsStay(s, t);
  }

  lemma RowsStay(s: State, t: State)
    requires ChainHasRows(s) && t.chain == s.chain
    requires forall r :: r in s.rows ==> r in t.rows && t.rows[r].intent == s.rows[r].intent
    ensures ChainHasRows(t)
  {
    forall h | h in t.chain ensures exists r :: IsRowOf(t, r, t.chain[h].intent) {
      var r :| IsRowOf(s, r, s.chain[h].intent);
      assert IsRowOf(t, r, t.chain[h].intent);
    }
  }

  function WithNewRow(s: State, intent: Intent): State {
    Write(s, s.nextRow, Row(intent, Pending, "", None, 0, [])).(nextRow := s.nextRow + 1)
  }

  lemma InsertKeepsInv(s: State, c: CallId, reply: DbReply)
    requires Inv(s) && c in s.calls
    ensures Inv(InsertStep(s, c, reply))
  {
    var t, intent := InsertStep(s, c, reply), s.calls[c].intent;
    if FindRow(s, intent).Some? || reply.Refused? {
      MoveKeepsInv(s, c, t.calls[c]);
    } else {
      var u := WithNewRow(s, intent);
      assert forall q :: q in s.rows ==> !IsRowOf(s, q, intent);
      NewRowKeepsInv(s, intent);
      assert t == u.(calls := u.calls[c := t.calls[c]]);
      assert IsRowOf(u, s.nextRow, intent) && CallOk(u, t.calls[c]);
      MoveKeepsInv(u, c, t.calls[c]);
    }
  }

  lemma NewRowKeepsInv(s: State, intent: Intent)
    requires Inv(s) && forall q :: q in s.rows ==> !IsRowOf(s, q, intent)
    ensures Inv(WithNewRow(s, intent))
  {
    var t := WithNewRow(s, intent);
    NewRowKeepsRows(s, intent);
    forall d | d in t.calls ensures CallOk(t, t.calls[d]) {
      assert CallOk(s, s.calls[d]);
    }
    RowsStay(s, t);
  }

  lemma NewRowKeepsRows(s: State, intent: Intent)
    requires RowsOk(s) && ChainHasRows(s) && forall q :: q in s.rows ==> !IsRowOf(s, q, intent)
    ensures RowsOk(WithNewRow(s, intent))
  {
    var t := WithNewRow(s, intent);
    assert Unsent(t, intent) by {
      forall h | h in t.chain ensures t.chain[h].intent != intent {
        var r :| IsRowOf(s, r, s.chain[h].intent);
      }
    }
    forall q | q in t.rows ensures q < t.nextRow && RowOk(t, t.rows[q]) {
      if q != s.nextRow { assert RowOk(s, s.rows[q]); }
    }
  }

  /** A pending row has no claimant, no hash holder and no finished caller. */
  lemma NobodyClaimsPending(s: State, r: RowId)
    requires Inv(s) && r in s.rows && s.rows[r].status == Pending
    ensures forall c :: c in s.calls ==> !Claims(s.calls[c].pc, r)
    ensures forall c :: c in s.calls && s.calls[c].pc.Succeeded? ==> s.calls[c].pc.row != r
  {
    assert RowOk(s, s.rows[r]);
    forall c | c in s.calls ensures !Claims(s.calls[c].pc, r) && (s.calls[c].pc.Succeeded? ==> s.calls[c].pc.row != r) {
      assert CallOk(s, s.calls[c]);
    }
  }

  /** Until a row has its hash, what callers without the claim know does not depend on its columns. */
  lemma BystanderOk(s: State, t: State, r: RowId, call: Call)
    requires ChainOk(s) && CallOk(s, call) && !Claims(call.pc, r)
    requires r in s.rows && (s.rows[r].status == Pending || s.rows[r].status == Submitting) && RowOk(s, s.rows[r])
    requires r in t.rows && t.rows == s.rows[r := t.rows[r]] && t.rows[r].intent == s.rows[r].intent
    requires t.chain == s.chain
    ensures CallOk(t, call)
  {
  }

  lemma ClaimKeepsInv(s: State, c: CallId, reply: DbReply)
    requires Inv(s) && c in s.calls && s.calls[c].pc.Claiming?
    ensures Inv(ClaimStep(s, c, reply))
  {
    var t, r := ClaimStep(s, c, reply), s.calls[c].pc.row;
    assert CallOk(s, s.calls[c]) && RowOk(s, s.rows[r]);
    if t.rows == s.rows {
      MoveKeepsInv(s, c, t.calls[c]);
    } else {
      NobodyClaimsPending(s, r);
      forall d | d in s.calls && d != c && CallOk(s, s.calls[d]) ensures CallOk(t, s.calls[d]) {
        BystanderOk(s, t, r, s.calls[d]);
      }
      RewriteKeepsInv(s, t, c, r);
    }
  }

  /** The claimant of a row that is being submitted rewrites it. */
  lemma ClaimantKeepsInv(s: State, t: State, c: CallId, r: RowId)
    requires Inv(s) && Rewrites(s, t, c, r) && Claims(s.calls[c].pc, r) && s.rows[r].status == Submitting
    requires RowOk(t, t.rows[r]) && CallOk(t, t.calls[c])
    requires forall q: RowId :: Claims(t.calls[c].pc, q) ==> Claims(s.calls[c].pc, q)
    ensures Inv(t)
  {
    assert RowOk(s, s.rows[r]);
    forall d | d in s.calls && d != c && CallOk(s, s.calls[d]) ensures CallOk(t, s.calls[d]) {
      assert !Claims(s.calls[d].pc, r);
      BystanderOk(s, t, r, s.calls[d]);
    }
    RewriteKeepsInv(s, t, c, r);
  }

  lemma UnclaimKeepsInv(s: State, c: CallId, reply: DbReply)
    requires Inv(s) && c in s.calls && s.calls[c].pc.Unclaiming?
    ensures Inv(UnclaimStep(s, c, reply))
  {
    var t, r := UnclaimStep(s, c, reply), s.calls[c].pc.row;
    assert CallOk(s, s.calls[c]) && RowOk(s, s.rows[r]);
    if t.rows == s.rows {
      MoveKeepsInv(s, c, t.calls[c]);
    } else {
      ClaimantKeepsInv(s, t, c, r);
    }
  }

  lemma NotStoredOk(s: State, call: Call, next: Pc)
    requires ChainOk(s) && CallOk(s, call) && call.pc.Persisting?
    requires next.Stopped? || next == Persisting(call.pc.row, call.pc.hash, call.pc.attempt + 1)
    ensures CallOk(s, call.(pc := next))
  {
  }

  lemma StoredOk(s: State, t: State, c: CallId, r: RowId, hash: Hash, next: Pc)
    requires Inv(s) && c in s.calls && s.calls[c].pc.Persisting? && s.calls[c].pc.row == r && s.calls[c].pc.hash == hash
    requires r in s.rows && t.rows == s.rows[r := s.rows[r].(hash := hash, status := PendingConfirmation)]
    requires t.chain == s.chain && RowOk(s, s.rows[r]) && CallOk(s, s.calls[c]) && s.rows[r].status == Submitting
    requires next == Awaiting(r, hash) || next.Stopped? || next == Persisting(r, hash, s.calls[c].pc.attempt + 1)
    ensures RowOk(t, t.rows[r]) && CallOk(t, s.calls[c].(pc := next))
  {
  }

  lemma PersistKeepsInv(s: State, c: CallId, reply: DbReply, cancelled: bool)
    requires Inv(s) && c in s.calls && s.calls[c].pc.Persisting?
    ensures Inv(PersistStep(s, c, reply, cancelled))
  {
    var t, r, hash := PersistStep(s, c, reply, cancelled), s.calls[c].pc.row, s.calls[c].pc.hash;
    assert CallOk(s, s.calls[c]) && RowOk(s, s.rows[r]);
    if reply.Refused? || s.rows[r].status != Submitting {
      NotStoredOk(s, s.calls[c], t.calls[c].pc);
      MoveKeepsInv(s, c, t.calls[c]);
    } else {
      StoredOk(s, t, c, r, hash, t.calls[c].pc);
      assert Claims(s.calls[c].pc, r);
      ClaimantKeepsInv(s, t, c, r);
    }
  }

  lemma SendKeepsInv(s: State, c: CallId, hash: Hash, receipt: Receipt, accepted: bool)
    requires Inv(s) && c in s.calls && s.calls[c].pc.Sending?
    ensures Inv(SendStep(s, c, hash, receipt, accepted))
  {
    var t := SendStep(s, c, hash, receipt, accepted);
    assert CallOk(s, s.calls[c]);
    if t.chain == s.chain {
      MoveKeepsInv(s, c, t.calls[c]);
    } else {
      SendKeepsRows(s, t, c, hash);
      SendKeepsCalls(s, t, c, hash);
    }
  }

  ghost predicate Sends(s: State, t: State, c: CallId, hash: Hash) {
    && Inv(s) && c in s.calls && s.calls[c].pc.Sending? && CallOk(s, s.calls[c])
    && hash != "" && hash !in s.chain && hash in t.chain
    && t.chain == s.chain[hash := t.chain[hash]] && t.chain[hash].intent == s.calls[c].intent
    && t.calls == s.calls[c := s.calls[c].(pc := Persisting(s.calls[c].pc.row, hash, 1))]
    && t.rows == s.rows && t.nextRow == s.nextRow
  }

  lemma SendKeepsRows(s: State, t: State, c: CallId, hash: Hash)
    requires Sends(s, t, c, hash)
    ensures RowsOk(t) && ChainHasRows(t) && ChainOk(t)
  {
    var Call(intent, Sending(mine)) := s.calls[c];
    forall q | q in t.rows ensures q < t.nextRow && RowOk(t, t.rows[q]) {
      assert RowOk(s, s.rows[q]);
      assert q != mine ==> s.rows[q].intent != intent;
    }
    forall h | h in t.chain ensures exists r :: IsRowOf(t, r, t.chain[h].intent) {
      if h == hash { assert IsRowOf(t, mine, intent); } else {
        var r :| IsRowOf(s, r, s.chain[h].intent);
        assert IsRowOf(t, r, t.chain[h].intent);
      }
    }
  }

  lemma SendKeepsCalls(s: State, t: State, c: CallId, hash: Hash)
    requires Sends(s, t, c, hash)
    ensures CallsOk(t) && ClaimsOk(t)
  {
    var mine := s.calls[c].pc.row;
    assert Claims(s.calls[c].pc, mine);
    forall d | d in t.calls ensures CallOk(t, t.calls[d]) {
      assert CallOk(s, s.calls[d]);
      assert d == c || !Claims(s.calls[d].pc, mine);
    }
    assert forall q: RowId :: Claims(t.calls[c].pc, q) ==> Claims(s.calls[c].pc, q);
  }

  /** What a caller knows of a row that waits for confirmation does not depend on the columns that
      finalization writes. */
  lemma FinalizedOk(s: State, t: State, r: RowId, call: Call)
    requires CallOk(s, call) && r in s.rows && s.rows[r].status == PendingConfirmation
    requires r in t.rows && t.rows == s.rows[r := t.rows[r]] && t.chain == s.chain
    requires t.rows[r].intent == s.rows[r].intent && t.rows[r].hash == s.rows[r].hash
    requires t.rows[r].status == Created && t.rows[r].address.Some?
    ensures CallOk(t, call)
  {
  }

  lemma FinalizerOk(s: State, t: State, r: RowId, call: Call, next: Pc)
    requires CallOk(s, call) && call.pc.Finalizing? && call.pc.row == r && r in s.rows
    requires r in t.rows && t.rows == s.rows[r := t.rows[r]] && t.rows[r].intent == s.rows[r].intent
    requires t.chain == s.chain && t.rows[r].status == Created
    requires next.Stopped? || next == Succeeded(r, call.pc.result)
    ensures CallOk(t, call.(pc := next))
  {
  }

  lemma FinalizeKeepsInv(s: State, c: CallId, milestonesInserted: bool, reply: DbReply)
    requires Inv(s) && c in s.calls && s.calls[c].pc.Finalizing?
    ensures Inv(FinalizeStep(s, c, milestonesInserted, reply))
  {
    var t, r := FinalizeStep(s, c, milestonesInserted, reply), s.calls[c].pc.row;
    assert CallOk(s, s.calls[c]) && RowOk(s, s.rows[r]);
    if t.rows == s.rows {
      MoveKeepsInv(s, c, t.calls[c]);
    } else {
      FinalizerOk(s, t, r, s.calls[c], t.calls[c].pc);
      forall d | d in s.calls && d != c && CallOk(s, s.calls[d]) ensures CallOk(t, s.calls[d]) {
        FinalizedOk(s, t, r, s.calls[d]);
      }
      RewriteKeepsInv(s, t, c, r);
    }
  }

  lemma IndexKeepsInv(s: State, r: RowId)
    requires Inv(s)
    ensures Inv(IndexStep(s, r))
  {
    var t := IndexStep(s, r);
    if t != s {
      forall q | q in t.rows ensures q < t.nextRow && RowOk(t, t.rows[q]) {
        assert RowOk(s, s.rows[q]);
      }
      forall d | d in t.calls ensures CallOk(t, t.calls[d]) {
        assert CallOk(s, s.calls[d]);
        IndexedOk(s, r, s.calls[d]);
      }
      RowsStay(s, t);
    }
  }

  lemma IndexedOk(s: State, r: RowId, call: Call)
    requires CallOk(s, call)
    ensures CallOk(IndexStep(s, r), call)
  {
  }

  lemma DiscoverKeepsInv(s: State, hash: Hash)
    requires Inv(s)
    ensures Inv(DiscoverStep(s, hash))
  {
    var t := DiscoverStep(s, hash);
    forall q | q in t.rows ensures q < t.nextRow && RowOk(t, t.rows[q]) {
      assert RowOk(s, s.rows[q]);
    }
    forall d | d in t.calls ensures CallOk(t, t.calls[d]) {
      assert CallOk(s, s.calls[d]);
    }
    RowsStay(s, t);
  }

  lemma DecideKeepsInv(s: State, c: CallId)
    requires Inv(s) && c in s.calls && s.calls[c].pc.Deciding?
    ensures Inv(DecideStep(s, c))
  {
    assert CallOk(s, s.calls[c]);
    MoveKeepsInv(s, c, DecideStep(s, c).calls[c]);
  }

  lemma YieldKeepsInv(s: State, c: CallId, readable: bool)
    requires Inv(s) && c in s.calls && s.calls[c].pc.Yielding?
    ensures Inv(YieldStep(s, c, readable))
  {
    assert CallOk(s, s.calls[c]) && RowOk(s, s.rows[s.calls[c].pc.row]);
    MoveKeepsInv(s, c, YieldStep(s, c, readable).calls[c]);
  }

  lemma AwaitKeepsInv(s: State, c: CallId, arrived: bool)
    requires Inv(s) && c in s.calls && s.calls[c].pc.Awaiting?
    ensures Inv(AwaitStep(s, c, arrived))
  {
    assert CallOk(s, s.calls[c]);
    MoveKeepsInv(s, c, AwaitStep(s, c, arrived).calls[c]);
  }

  lemma ReconcileKeepsInv(s: State, c: CallId, readable: bool)
    requires Inv(s) && c in s.calls && s.calls[c].pc.Reconciling?
    ensures Inv(ReconcileStep(s, c, readable))
  {
    assert CallOk(s, s.calls[c]) && RowOk(s, s.rows[s.calls[c].pc.row]);
    MoveKeepsInv(s, c, ReconcileStep(s, c, readable).calls[c]);
  }

  predicate Writes(a: Action) {
    a.Insert? || a.Claim? || a.Send? || a.Unclaim? || a.Persist? || a.Finalize?
  }

  lemma WriterKeepsInv(s: State, a: Action)
    requires Inv(s) && Writes(a) && a.c in s.calls
    ensures Inv(CallStep(s, a))
  {
    if CallStep(s, a) != s {
      match a
      case Insert(c, reply) => InsertKeepsInv(s, c, reply);
      case Claim(c, reply) => ClaimKeepsInv(s, c, reply);
      case Send(c, hash, receipt, accepted) => SendKeepsInv(s, c, hash, receipt, accepted);
      case Unclaim(c, reply) => UnclaimKeepsInv(s, c, reply);
      case Persist(c, reply, cancelled) => PersistKeepsInv(s, c, reply, cancelled);
      case Finalize(c, inserted, reply) => FinalizeKeepsInv(s, c, inserted, reply);
    }
  }

  lemma ReaderKeepsInv(s: State, a: Action)
    requires Inv(s) && !Writes(a) && !a.Index? && !a.Discover? && a.c in s.calls
    ensures Inv(CallStep(s, a))
  {
    if CallStep(s, a) != s {
      match a
      case Crash(c) => MoveKeepsInv(s, c, s.calls[c].(pc := Stopped));
      case LookUp(c, readable) => LookUpKeepsInv(s, c, readable, Inserting);
      case Reread(c, readable) => LookUpKeepsInv(s, c, readable, Stopped);
      case Decide(c) => DecideKeepsInv(s, c);
      case Yield(c, readable) => YieldKeepsInv(s, c, readable);
      case Await(c, arrived) => AwaitKeepsInv(s, c, arrived);
      case Reconcile(c, readable) => ReconcileKeepsInv(s, c, readable);
    }
  }

  lemma ArriveKeepsInv(s: State, c: CallId, intent: Intent)
    requires Inv(s) && c !in s.calls
    ensures Inv(s.(calls := s.calls[c := Call(intent, LookingUp)]))
  {
    MoveKeepsInv(s, c, Call(intent, LookingUp));
  }

  lemma StepKeepsInv(s: State, a: Action)
    requires Inv(s)
    ensures Inv(Step(s, a))
  {
    if a.Index? {
      IndexKeepsInv(s, a.row);
    } else if a.Discover? {
      DiscoverKeepsInv(s, a.hash);
    } else if a.c !in s.calls {
      if a.Arrive? { ArriveKeepsInv(s, a.c, a.intent); }
    } else if Writes(a) {
      WriterKeepsInv(s, a);
    } else {
      ReaderKeepsInv(s, a);
    }
  }

  lemma {:induction false} InvAlways(schedule: seq<Action>)
    ensures Inv(Exec(Start, schedule))
  {
    if schedule != [] {
      InvAlways(schedule[..|schedule| - 1]);
      StepKeepsInv(Exec(Start, schedule[..|schedule| - 1]), schedule[|schedule| - 1]);
    }
  }

  // ---- what every schedule guarantees

  /** One create intent has one escrow row. */
  lemma OneRowPerIntent(schedule: seq<Action>, r: RowId, q: RowId)
    requires var s := Exec(Start, schedule); r in s.rows && q in s.rows && s.rows[r].intent == s.rows[q].intent
    ensures r == q
  {
    InvAlways(schedule);
  }

  /** One create intent is sent to the chain at most once, whoever crashes or retries. */
  lemma AtMostOneSend(schedule: seq<Action>, h: Hash, k: Hash)
    requires var s := Exec(Start, schedule); h in s.chain && k in s.chain && s.chain[h].intent == s.chain[k].intent
    ensures h == k
  {
    InvAlways(schedule);
  }

  /** A caller that succeeds reports the one transaction sent for its intent and that
      transaction's receipt. */
  lemma SuccessReportsTheReceipt(schedule: seq<Action>, c: CallId)
    requires c in Exec(Start, schedule).calls && Exec(Start, schedule).calls[c].pc.Succeeded?
    ensures var s := Exec(Start, schedule);
      var Call(intent, Succeeded(r, result)) := s.calls[c];
      && IsRowOf(s, r, intent) && SentFor(s, result.hash, intent)
      && s.chain[result.hash].receipt == Mined(result.address, result.escrowId)
  {
    InvAlways(schedule);
    assert CallOk(Exec(Start, schedule), Exec(Start, schedule).calls[c]);
  }

  /** Hence all callers with one intent that succeed report the same row, hash, address and chain id. */
  lemma SuccessesAgree(schedule: seq<Action>, c: CallId, d: CallId)
    requires c in Exec(Start, schedule).calls && d in Exec(Start, schedule).calls
    requires var s := Exec(Start, schedule);
      s.calls[c].intent == s.calls[d].intent && s.calls[c].pc.Succeeded? && s.calls[d].pc.Succeeded?
    ensures var s := Exec(Start, schedule); s.calls[c] == s.calls[d]
  {
    SuccessReportsTheReceipt(schedule, c);
    SuccessReportsTheReceipt(schedule, d);
    var s := Exec(Start, schedule);
    OneRowPerIntent(schedule, s.calls[c].pc.row, s.calls[d].pc.row);
    AtMostOneSend(schedule, s.calls[c].pc.result.hash, s.calls[d].pc.result.hash);
  }

  /** The milestone rows are those of the intent, once, from the step that creates the escrow on;
      before that there are none. */
  lemma MilestonesComeWithCreation(schedule: seq<Action>, r: RowId)
    requires r in Exec(Start, schedule).rows
    ensures var row := Exec(Start, schedule).rows[r];
      row.milestones == if Finished(row) then row.intent.milestones else []
  {
    InvAlways(schedule);
    assert RowOk(Exec(Start, schedule), Exec(Start, schedule).rows[r]);
  }

  lemma {:induction false} ExecSplits(s: State, schedule: seq<Action>, more: seq<Action>)
    ensures Exec(s, schedule + more) == Exec(Exec(s, schedule), more)
  {
    if more == [] {
      assert schedule + more == schedule;
    } else {
      assert (schedule + more)[..|schedule + more| - 1] == schedule + more[..|more| - 1];
      ExecSplits(s, schedule, more[..|more| - 1]);
    }
  }
}
