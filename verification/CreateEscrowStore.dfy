/** The escrow table over its real data: the statements of CreateEscrow on mutable rows, with its retry
    and milestone loops, proved to be the steps of module CreateEscrow. */
module CreateEscrowStore {
  import opened Common
  import opened CreateEscrow

  /** The unique index on create_intent_id. */
  ghost predicate UniqueIntents(rows: map<RowId, Row>) {
    forall r, q :: r in rows && q in rows && rows[r].intent == rows[q].intent ==> r == q
  }

  /** What the database answers to one attempt to store the hash, and whether the caller's context ends
      while it waits for the next. */
  datatype Attempt = Attempt(reply: DbReply, cancelled: bool)

  /** The attempts of one caller to store its hash, one after the other. */
  ghost function PersistSteps(s: State, c: CallId, attempts: seq<Attempt>): (t: State)
    requires c in s.calls
    ensures c in t.calls
    decreases |attempts|
  {
    if attempts == [] || !s.calls[c].pc.Persisting? then s
    else PersistSteps(PersistStep(s, c, attempts[0].reply, attempts[0].cancelled), c, attempts[1..])
  }

  datatype Finalization = Done | NotPending | RolledBack

  class Escrows {
    var rows: map<RowId, Row>
    var nextRow: RowId
    /** The addresses of the rows that the indexer has inserted. */
    var indexed: set<Address>

    constructor ()
      ensures Shows(Start)
    {
      rows, nextRow, indexed := map[], 0, {};
    }

    ghost predicate Shows(s: State)
      reads this
    {
      rows == s.rows && nextRow == s.nextRow && indexed == s.indexed
    }

    /** GetEscrowByCreateIntentID. */
    method RowOfIntent(intent: Intent, ghost s: State) returns (found: Option<RowId>)
      requires Shows(s) && UniqueIntents(rows)
      ensures found == FindRow(s, intent)
    {
      var left := rows.Keys;
      while left != {}
        invariant left <= rows.Keys
        invariant forall r :: r in rows && r !in left ==> rows[r].intent != intent
        decreases left
      {
        var r :| r in left;
        left := left - {r};
        if rows[r].intent == intent {
          assert IsRowOf(s, r, intent);
          return Some(r);
        }
      }
      assert forall r :: !IsRowOf(s, r, intent);
      return None;
    }

    /** GetEscrowByAddress, and the unique index on escrow_address: whether a row holds the address, other
        than those in a set. */
    method HoldsAddress(address: Address, besides: set<RowId>) returns (held: bool)
      ensures held <==>
        address in indexed || exists r :: r in rows && r !in besides && rows[r].address == Some(address)
    {
      if address in indexed { return true; }
      var left := rows.Keys - besides;
      while left != {}
        invariant left <= rows.Keys - besides
        invariant forall r :: r in rows && r !in besides && r !in left ==> rows[r].address != Some(address)
        decreases left
      {
        var r :| r in left;
        left := left - {r};
        if rows[r].address == Some(address) { return true; }
      }
      return false;
    }

    /** The indexer's handler of EscrowCreated. */
    method Discover(address: Address, ghost s: State, ghost hash: Hash) returns (inserted: bool)
      requires Shows(s) && hash in s.chain
      requires s.chain[hash].receipt.Mined? && s.chain[hash].receipt.address == address
      modifies this`indexed
      ensures Shows(DiscoverStep(s, hash))
      ensures inserted <==> DiscoverStep(s, hash) != s
    {
      var held := HoldsAddress(address, {});
      if held { return false; }
      indexed := indexed + {address};
      return true;
    }

    /** CreateEscrowTx: the unique index refuses a second row for an intent. */
    method InsertPending(intent: Intent, reply: DbReply, ghost s: State, ghost c: CallId) returns (row: Option<RowId>)
      requires Shows(s) && UniqueIntents(rows) && s.nextRow !in s.rows
      requires c in s.calls && s.calls[c].intent == intent
      modifies this
      ensures Shows(InsertStep(s, c, reply)) && UniqueIntents(rows)
      ensures row.Some? <==> InsertStep(s, c, reply).calls[c].pc.Deciding?
      ensures row.Some? ==> row.value in rows && rows[row.value] == Row(intent, Pending, "", None, 0, [])
    {
      var duplicate := RowOfIntent(intent, s);
      if duplicate.Some? || reply.Refused? { return None; }
      assert forall r :: r in rows ==> rows[r].intent != intent by {
        assert forall r :: r in rows && rows[r].intent == intent ==> IsRowOf(s, r, intent);
      }
      var r := nextRow;
      rows := rows[r := Row(intent, Pending, "", None, 0, [])];
      nextRow := nextRow + 1;
      return if reply.Applied? then Some(r) else None;
    }

    /** TransitionEscrowStatus: a compare-and-set on the status. */
    method TransitionStatus(r: RowId, before: Status, after: Status, reply: DbReply) returns (moved: bool)
      modifies this`rows
      ensures moved <==> !reply.Refused? && r in old(rows) && old(rows)[r].status == before
      ensures rows == if moved then old(rows)[r := old(rows)[r].(status := after)] else old(rows)
    {
      moved := !reply.Refused? && r in rows && rows[r].status == before;
      if moved { rows := rows[r := rows[r].(status := after)]; }
    }

    /** The claim: pending to submitting. */
    method Claim(r: RowId, reply: DbReply, ghost s: State, ghost c: CallId) returns (claimed: bool)
      requires Shows(s) && c in s.calls && s.calls[c].pc == Claiming(r)
      modifies this`rows
      ensures Shows(ClaimStep(s, c, reply))
      ensures claimed <==> ClaimStep(s, c, reply).calls[c].pc == Sending(r)
    {
      var moved := TransitionStatus(r, Pending, Submitting, reply);
      claimed := moved && reply.Applied?;
    }

    /** SetEscrowCreateTxHash: a compare-and-set on "submitting". */
    method SetCreateTxHash(r: RowId, hash: Hash, reply: DbReply) returns (ok: bool)
      modifies this`rows
      ensures var matched := !reply.Refused? && r in old(rows) && old(rows)[r].status == Submitting;
        && (ok <==> matched && reply.Applied?)
        && rows == if matched
                   then old(rows)[r := old(rows)[r].(hash := hash, status := PendingConfirmation)] else old(rows)
    {
      ok := false;
      if !reply.Refused? && r in rows && rows[r].status == Submitting {
        rows := rows[r := rows[r].(hash := hash, status := PendingConfirmation)];
        ok := reply.Applied?;
      }
    }

    /** Store the hash, trying up to three times while the context lasts. */
    method PersistHash(r: RowId, hash: Hash, attempts: seq<Attempt>, ghost s: State, ghost c: CallId)
      returns (ok: bool)
      requires |attempts| == MAX_PERSIST_ATTEMPTS
      requires Shows(s) && c in s.calls && s.calls[c].pc == Persisting(r, hash, 1)
      modifies this`rows
      ensures var t := PersistSteps(s, c, attempts);
        && Shows(t) && t.calls[c].pc == if ok then Awaiting(r, hash) else Stopped
    {
      ok := SetCreateTxHash(r, hash, attempts[0].reply);
      if ok { return; }
      ghost var t := PersistStep(s, c, attempts[0].reply, attempts[0].cancelled);
      for attempt := 2 to MAX_PERSIST_ATTEMPTS + 1
        invariant Shows(t) && c in t.calls
        invariant PersistSteps(s, c, attempts) == PersistSteps(t, c, attempts[attempt - 1..])
        invariant !attempts[attempt - 2].cancelled && attempt <= MAX_PERSIST_ATTEMPTS
                  ==> t.calls[c].pc == Persisting(r, hash, attempt)
        invariant attempts[attempt - 2].cancelled || attempt > MAX_PERSIST_ATTEMPTS ==> t.calls[c].pc == Stopped
      {
        if attempts[attempt - 2].cancelled { return false; }
        ok := SetCreateTxHash(r, hash, attempts[attempt - 1].reply);
        t := PersistStep(t, c, attempts[attempt - 1].reply, attempts[attempt - 1].cancelled);
        assert attempts[attempt - 1..][1..] == attempts[attempt..];
        if ok { return; }
      }
      return false;
    }

    /** FinalizeEscrowCreateTx, under the unique address, and the milestone inserts, in one transaction.
        broken is the milestone whose insert fails, if any. */
    method Finalize(r: RowId, result: Result, milestones: seq<Milestone>, broken: Option<nat>, reply: DbReply,
                    ghost s: State, ghost c: CallId) returns (outcome: Finalization)
      requires Shows(s) && c in s.calls && s.calls[c].pc == Finalizing(r, result)
      requires s.calls[c].intent.milestones == milestones
      modifies this`rows
      ensures var t := FinalizeStep(s, c, broken.None? || broken.value >= |milestones|, reply);
        && Shows(t)
        && (outcome.NotPending? <==> t.calls[c].pc.Reconciling?)
        && (outcome.Done? && reply.Applied? <==> t.calls[c].pc.Succeeded?)
    {
      var saved := rows;
      if r !in rows || rows[r].status != PendingConfirmation { return NotPending; }
      var held := HoldsAddress(result.address, {r});
      assert held <==> Taken(s, r, result.address);
      if held { return RolledBack; }
      rows := rows[r := rows[r].(address := Some(result.address), escrowId := result.escrowId, status := Created)];
      ghost var created := rows[r];
      assert created.milestones + milestones[..0] == created.milestones;
      for i := 0 to |milestones|
        invariant broken.Some? ==> i <= broken.value
        invariant rows == saved[r := created.(milestones := created.milestones + milestones[..i])]
      {
        if broken == Some(i) {
          rows := saved;
          return RolledBack;
        }
        assert created.milestones + milestones[..i + 1] == created.milestones + milestones[..i] + [milestones[i]];
        rows := rows[r := rows[r].(milestones := rows[r].milestones + [milestones[i]])];
      }
      assert milestones[..|milestones|] == milestones;
      if reply.Refused? {
        rows := saved;
        return RolledBack;
      }
      return Done;
    }
  }
}
