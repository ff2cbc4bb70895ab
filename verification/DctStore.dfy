/** The token and escrow tables: minting, delegating, revoking. The caller's authorization enters as
    its result, and fresh ids and secrets as arguments. */
module DctStore {
  import opened Common
  import opened Text
  import opened Dct

  // ---- new tokens

  datatype Request = Request(subject: string, issuer: string, ops: seq<string>, resources: seq<string>, expiresAt: int)

  /** firstNonEmpty of two. */
  function FirstNonEmpty(a: string, b: string): string {
    if TrimSpace(a) != "" then a else if TrimSpace(b) != "" then b else ""
  }

  function MintRow(escrow: int, r: Request, secret: string): Token {
    Token(secret, "", escrow, ToLower(r.subject), ToLower(FirstNonEmpty(r.issuer, r.subject)),
          Some(Canonicalize(r.ops)), Some(Canonicalize(r.resources)), true, 0, r.expiresAt, None)
  }

  /** The row Mint inserts, or none if it refuses. */
  function CheckMint(escrows: Escrows, escrow: int, r: Request, secret: string, allowed: bool, now: int): Option<Token>
  {
    if escrow <= 0 || TrimSpace(r.subject) == "" then None
    else if Canonicalize(r.ops) == [] || Canonicalize(r.resources) == [] || r.expiresAt <= 0 then None
    else if escrow !in escrows || !allowed || Inactive(escrows[escrow]) || r.expiresAt <= now then None
    else Some(MintRow(escrow, r, secret))
  }

  predicate StrictAttenuation(childOps: seq<string>, parentOps: seq<string>, childResources: seq<string>,
                              parentResources: seq<string>, childExpiry: int, parentExpiry: int) {
    && IsSubset(childOps, parentOps) && IsSubset(childResources, parentResources) && childExpiry <= parentExpiry
    && (|childOps| < |parentOps| || |childResources| < |parentResources| || childExpiry < parentExpiry)
  }

  function DelegateRow(parentId: string, parent: Token, r: Request, ops: seq<string>, resources: seq<string>,
                       secret: string): Token {
    Token(secret, parentId, parent.escrow, ToLower(r.subject), ToLower(FirstNonEmpty(r.issuer, parent.subject)),
          Some(ops), Some(resources), true, parent.depth + 1, r.expiresAt, None)
  }

  /** The row Delegate inserts below an active parent, the scopes in canonical form, or none if it refuses. */
  function Attenuate(parentId: string, parent: Token, parentOps: seq<string>, parentResources: seq<string>, r: Request,
                     ops: seq<string>, resources: seq<string>, secret: string, now: int): Option<Token> {
    if ops == [] || resources == [] || r.expiresAt <= now then None
    else if !StrictAttenuation(ops, parentOps, resources, parentResources, r.expiresAt, parent.expiresAt) then None
    else Some(DelegateRow(parentId, parent, r, ops, resources, secret))
  }

  /** The row Delegate inserts, or none if it refuses. */
  function CheckDelegate(tokens: Tokens, escrows: Escrows, parentId: string, parentSecret: string, r: Request,
                         secret: string, allowed: bool, now: int): Option<Token> {
    if Introspection(tokens, escrows, parentId, parentSecret, now) != Report({}) || !allowed then None
    else
      var parent := tokens[parentId];
      if TrimSpace(r.subject) == "" || !Decodes(parent) then None
      else Attenuate(parentId, parent, Canonicalize(parent.ops.value), Canonicalize(parent.resources.value), r,
                     Canonicalize(r.ops), Canonicalize(r.resources), secret, now)
  }

  // ---- revocation

  function FrozenAt(at: int): Revocation { Revocation(at, "escrow_frozen", "emergency") }
  function ResolvedAt(at: int): Revocation { Revocation(at, "emergency_resolve", "emergency") }

  /** Set the revocation where there is none. */
  function Revoke(t: Token, rev: Revocation): Token {
    if t.revoked.Some? then t else t.(revoked := Some(rev))
  }

  function RevokeOne(tokens: Tokens, id: string, rev: Revocation): Tokens {
    if id in tokens then tokens[id := Revoke(tokens[id], rev)] else tokens
  }

  function RevokeAll(tokens: Tokens, escrow: int, rev: Revocation): Tokens {
    map id | id in tokens :: if tokens[id].escrow == escrow then Revoke(tokens[id], rev) else tokens[id]
  }

  // ---- the tables

  class Store {
    var tokens: Tokens
    var escrows: Escrows

    constructor ()
      ensures tokens == map[] && escrows == map[]
    {
      tokens, escrows := map[], map[];
    }

    /** Mint up to its insert. */
    method PrepareMint(escrow: int, r: Request, secret: string, allowed: bool, now: int) returns (row: Option<Token>)
      ensures row == CheckMint(escrows, escrow, r, secret, allowed, now)
    {
      if escrow <= 0 { return None; }
      if TrimSpace(r.subject) == "" { return None; }
      var ops := CanonicalizeItems(r.ops);
      if |ops| == 0 { return None; }
      var resources := CanonicalizeItems(r.resources);
      if |resources| == 0 { return None; }
      if r.expiresAt <= 0 { return None; }
      if escrow !in escrows { return None; }
      if !allowed { return None; }
      if Inactive(escrows[escrow]) { return None; }
      if r.expiresAt <= now { return None; }
      return Some(MintRow(escrow, r, secret));
    }

    /** Delegate up to its insert. */
    method PrepareDelegate(parentId: string, parentSecret: string, r: Request, secret: string, allowed: bool, now: int)
      returns (row: Option<Token>)
      ensures row == CheckDelegate(tokens, escrows, parentId, parentSecret, r, secret, allowed, now)
    {
      var found := Introspect(tokens, escrows, parentId, parentSecret, now);
      if found.Error? || !allowed || found.reasons != {} { return None; }
      var parent := tokens[parentId];
      if TrimSpace(r.subject) == "" { return None; }
      if parent.ops.None? || parent.resources.None? { return None; }
      var parentOps := CanonicalizeItems(parent.ops.value);
      var parentResources := CanonicalizeItems(parent.resources.value);
      var ops := CanonicalizeItems(r.ops);
      var resources := CanonicalizeItems(r.resources);
      return Attenuate(parentId, parent, parentOps, parentResources, r, ops, resources, secret, now);
    }

    /** CreateDCTToken, with token_id unique. */
    method Create(id: string, row: Token) returns (ok: bool)
      modifies this`tokens
      ensures ok <==> id !in old(tokens)
      ensures tokens == if ok then old(tokens)[id := row] else old(tokens)
    {
      ok := id !in tokens;
      if ok { tokens := tokens[id := row]; }
    }

    /** RevokeDCTToken. */
    method RevokeToken(id: string, rev: Revocation) returns (found: bool)
      modifies this`tokens
      ensures found <==> id in old(tokens)
      ensures tokens == RevokeOne(old(tokens), id, rev)
    {
      if id in tokens && tokens[id].revoked.None? {
        tokens := tokens[id := tokens[id].(revoked := Some(rev))];
        return true;
      }
      assert tokens == RevokeOne(tokens, id, rev);
      return id in tokens;
    }

    /** RevokeDCTTokensByEscrow, one row at a time in any order: it reports how many rows it set. */
    method RevokeByEscrow(escrow: int, rev: Revocation) returns (affected: nat)
      modifies this`tokens
      ensures tokens == RevokeAll(old(tokens), escrow, rev)
      ensures affected
        == |set id | id in old(tokens) && old(tokens)[id].escrow == escrow && old(tokens)[id].revoked.None?|
    {
      var hit := set id | id in tokens && tokens[id].escrow == escrow && tokens[id].revoked.None?;
      affected := |hit|;
      var left := hit;
      ghost var before := tokens;
      while left != {}
        invariant left <= hit && tokens.Keys == before.Keys
        invariant forall id :: id in before ==>
          tokens[id] == if id in hit && id !in left then before[id].(revoked := Some(rev)) else before[id]
        decreases left
      {
        var id :| id in left;
        left := left - {id};
        tokens := tokens[id := tokens[id].(revoked := Some(rev))];
      }
      assert tokens == RevokeAll(before, escrow, rev);
    }

    /** RecordFreezeEscrowAndRevokeDCT. */
    method FreezeAndRevoke(escrow: int, at: int)
      modifies this
      ensures escrows == if escrow in old(escrows) then old(escrows)[escrow := old(escrows)[escrow].(frozen := true)]
                         else old(escrows)
      ensures tokens == RevokeAll(old(tokens), escrow, FrozenAt(at))
    {
      if escrow in escrows { escrows := escrows[escrow := escrows[escrow].(frozen := true)]; }
      var affected := RevokeByEscrow(escrow, FrozenAt(at));
    }

    /** RecordEmergencyResolveAndRevokeDCT. */
    method ResolveAndRevoke(escrow: int, at: int)
      modifies this
      ensures escrows == if escrow in old(escrows)
                         then old(escrows)[escrow := old(escrows)[escrow].(status := Resolved)]
                         else old(escrows)
      ensures tokens == RevokeAll(old(tokens), escrow, ResolvedAt(at))
    {
      if escrow in escrows { escrows := escrows[escrow := escrows[escrow].(status := Resolved)]; }
      var affected := RevokeByEscrow(escrow, ResolvedAt(at));
    }
  }
}
