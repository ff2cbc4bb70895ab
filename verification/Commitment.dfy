/** The sealed-bid commitment: what a reveal must agree on to match a stored commitment.

    Keccak is any injective function into strings without the separator, such as hexadecimal
    digests. Milestones enter as their canonical JSON text. */
module Commitment {
  import opened Text

  /** The commitment's inputs, as the reveal request carries them. */
  datatype Reveal = Reveal(
    bidder: string,
    amount: string,
    duration: int,
    bond: string,
    milestones: string,
    message: string,
    expiresAt: int,
    stakeMandate: string,
    nonce: string,
    salt: string)

  datatype Result<+T> = Ok(value: T) | Err(reason: string)

  const SEPARATOR := '|'
  const DOMAIN_TAG := "agent-escrow:sealed-bid:v1"

  predicate Plain(s: string) { SEPARATOR !in s }

  ghost predicate IsDigest(hash: string -> string) {
    && (forall a, b :: hash(a) == hash(b) ==> a == b)
    && (forall a :: Plain(hash(a)))
  }

  /** strings.Join. */
  function Join(fields: seq<string>): string {
    if fields == [] then "" else if |fields| == 1 then fields[0]
    else fields[0] + [SEPARATOR] + Join(fields[1..])
  }

  /** The normal form of an unsigned number in a string, or the error. */
  function CanonicalUint(raw: string, allowZero: bool): Result<nat> {
    match ParseInteger(raw)
    case None => Err("invalid")
    case Some(n) => if n < 0 || (n == 0 && !allowZero) then Err("invalid") else Ok(n)
  }

  function Header(hash: string -> string, rfq: nat, p: Reveal, amount: nat, bond: nat): seq<string>
    requires p.duration >= 0 && p.expiresAt >= 0
  {
    [DOMAIN_TAG, Decimal(rfq), p.bidder, Decimal(amount), Decimal(p.duration), Decimal(bond),
     hash(p.milestones), hash(p.message), Decimal(p.expiresAt), hash(TrimSpace(p.stakeMandate))]
  }

  function Payload(header: seq<string>, nonce: string, salt: string): string {
    Join(header + [nonce, salt])
  }

  datatype Numbers = Numbers(amount: nat, bond: nat)

  /** The checks on the terms, in the order they are made, with the parsed numbers. */
  function CheckTerms(p: Reveal): (r: Result<Numbers>)
    ensures r.Ok? ==> p.duration >= 0 && p.expiresAt > 0
  {
    if p.duration < 0 then Err("estimated_duration must be >= 0")
    else if p.expiresAt <= 0 then Err("expires_at must be > 0")
    else
      match (CanonicalUint(p.amount, false), CanonicalUint(p.bond, true))
      case (Ok(amount), Ok(bond)) => Ok(Numbers(amount, bond))
      case (Err(e), _) => Err(e)
      case (_, Err(e)) => Err(e)
  }

  /** computeBidCommitment. The bidder's address is already in its lower-case hexadecimal form. */
  function Compute(hash: string -> string, rfq: int, p: Reveal): Result<string> {
    if rfq <= 0 then Err("invalid rfq_id")
    else if !Plain(p.bidder) then Err("invalid bidder address")
    else if Blank(p.nonce) then Err("nonce is required")
    else if Blank(p.salt) then Err("salt is required")
    else
      match CheckTerms(p)
      case Err(e) => Err(e)
      case Ok(n) => Ok(hash(Payload(Header(hash, rfq, p, n.amount, n.bond), p.nonce, p.salt)))
  }

  // ---- splitting a joined payload

  lemma JoinHead(head: string, rest: seq<string>)
    requires rest != []
    ensures Join([head] + rest) == head + [SEPARATOR] + Join(rest)
  {
    assert ([head] + rest)[1..] == rest;
  }

  /** A separator ends the first field at the same place on both sides. */
  lemma FirstFieldsAgree(a: string, b: string, x: string, y: string)
    requires Plain(a) && Plain(b) && a + [SEPARATOR] + x == b + [SEPARATOR] + y
    ensures a == b && x == y
  {
    var s := a + [SEPARATOR] + x;
    assert s[|a|] == SEPARATOR && s[|b|] == SEPARATOR;
    assert forall i :: 0 <= i < |a| ==> s[i] == a[i];
    assert forall i :: 0 <= i < |b| ==> s[i] == b[i];
    assert |a| >= |b| && |b| >= |a|;
    assert a == s[..|a|] == b;
    assert x == s[|a| + 1..] == y;
  }

  /** Headers of the same number of plain fields split off uniquely. */
  lemma {:induction false} HeadersAgree(a: seq<string>, b: seq<string>, x: seq<string>, y: seq<string>)
    requires |a| == |b| && x != [] && y != []
    requires forall i :: 0 <= i < |a| ==> Plain(a[i]) && Plain(b[i])
    requires Join(a + x) == Join(b + y)
    ensures a == b && Join(x) == Join(y)
  {
    if a == [] {
      assert a + x == x && b + y == y;
    } else {
      assert a + x == [a[0]] + (a[1..] + x) && b + y == [b[0]] + (b[1..] + y);
      JoinHead(a[0], a[1..] + x);
      JoinHead(b[0], b[1..] + y);
      FirstFieldsAgree(a[0], b[0], Join(a[1..] + x), Join(b[1..] + y));
      HeadersAgree(a[1..], b[1..], x, y);
    }
  }

  lemma DecimalIsPlain(n: nat)
    ensures Plain(Decimal(n))
  {
    var s := Decimal(n);
    assert forall i :: 0 <= i < |s| ==> IsDigit(s[i]);
  }

  lemma TagIsPlain()
    ensures Plain(DOMAIN_TAG)
  {
  }

  lemma HeaderIsPlain(hash: string -> string, rfq: nat, p: Reveal, amount: nat, bond: nat)
    requires IsDigest(hash) && Plain(p.bidder) && p.duration >= 0 && p.expiresAt >= 0
    ensures forall i :: 0 <= i < 10 ==> Plain(Header(hash, rfq, p, amount, bond)[i])
  {
    TagIsPlain();
    DecimalIsPlain(rfq);
    DecimalIsPlain(amount);
    DecimalIsPlain(p.duration);
    DecimalIsPlain(bond);
    DecimalIsPlain(p.expiresAt);
    AllPlain(DOMAIN_TAG, Decimal(rfq), p.bidder, Decimal(amount), Decimal(p.duration), Decimal(bond),
             hash(p.milestones), hash(p.message), Decimal(p.expiresAt), hash(TrimSpace(p.stakeMandate)));
  }

  lemma AllPlain(a: string, b: string, c: string, d: string, e: string, f: string, g: string, h: string, i: string,
                 j: string)
    requires Plain(a) && Plain(b) && Plain(c) && Plain(d) && Plain(e)
    requires Plain(f) && Plain(g) && Plain(h) && Plain(i) && Plain(j)
    ensures forall n :: 0 <= n < 10 ==> Plain([a, b, c, d, e, f, g, h, i, j][n])
  {
  }

  /** What two matching reveals have in common: numbers by value, the mandate up to surrounding space. */
  ghost predicate SameTerms(p: Reveal, q: Reveal) {
    && ParseInteger(p.amount) == ParseInteger(q.amount) && ParseInteger(p.bond) == ParseInteger(q.bond)
    && p.bidder == q.bidder && p.duration == q.duration && p.expiresAt == q.expiresAt
    && p.milestones == q.milestones && p.message == q.message
    && TrimSpace(p.stakeMandate) == TrimSpace(q.stakeMandate)
  }

  lemma HeadersDetermineTerms(
      hash: string -> string, rfq: nat, p: Reveal, other: nat, q: Reveal, amount: nat, bond: nat, amount': nat,
      bond': nat)
    requires IsDigest(hash) && p.duration >= 0 && p.expiresAt >= 0 && q.duration >= 0 && q.expiresAt >= 0
    requires Header(hash, rfq, p, amount, bond) == Header(hash, other, q, amount', bond')
    ensures rfq == other && amount == amount' && bond == bond' && p.bidder == q.bidder
    ensures p.duration == q.duration && p.expiresAt == q.expiresAt
    ensures p.milestones == q.milestones && p.message == q.message
    ensures TrimSpace(p.stakeMandate) == TrimSpace(q.stakeMandate)
  {
    var h, k := Header(hash, rfq, p, amount, bond), Header(hash, other, q, amount', bond');
    assert h[1] == k[1] && h[2] == k[2] && h[3] == k[3] && h[4] == k[4] && h[5] == k[5] && h[8] == k[8];
    assert h[6] == k[6] && h[7] == k[7] && h[9] == k[9];
    DecimalHasValue(rfq); DecimalHasValue(other);
    DecimalHasValue(amount); DecimalHasValue(amount');
    DecimalHasValue(bond); DecimalHasValue(bond');
    DecimalHasValue(p.duration); DecimalHasValue(q.duration);
    DecimalHasValue(p.expiresAt); DecimalHasValue(q.expiresAt);
  }

  /** What the payload keeps of the nonce and the salt: the two joined. */
  function Secret(p: Reveal): string { p.nonce + [SEPARATOR] + p.salt }

  lemma {:induction false} JoinTail(h: seq<string>, x: seq<string>, y: seq<string>)
    requires x != [] && y != [] && Join(x) == Join(y)
    ensures Join(h + x) == Join(h + y)
  {
    if h == [] {
      assert h + x == x && h + y == y;
    } else {
      assert h + x == [h[0]] + (h[1..] + x) && h + y == [h[0]] + (h[1..] + y);
      JoinHead(h[0], h[1..] + x);
      JoinHead(h[0], h[1..] + y);
      JoinTail(h[1..], x, y);
    }
  }

  lemma TwoFields(x: string, y: string)
    ensures Join([x, y]) == x + [SEPARATOR] + y
  {
    JoinHead(x, [y]);
    assert [x, y] == [x] + [y];
  }

  /** Payloads with plain headers are equal exactly when the headers and the secrets are. */
  lemma PayloadsAgreeExactly(h: seq<string>, k: seq<string>, p: Reveal, q: Reveal)
    requires |h| == |k| && forall i :: 0 <= i < |h| ==> Plain(h[i]) && Plain(k[i])
    ensures Payload(h, p.nonce, p.salt) == Payload(k, q.nonce, q.salt) <==> h == k && Secret(p) == Secret(q)
  {
    TwoFields(p.nonce, p.salt);
    TwoFields(q.nonce, q.salt);
    if Payload(h, p.nonce, p.salt) == Payload(k, q.nonce, q.salt) {
      HeadersAgree(h, k, [p.nonce, p.salt], [q.nonce, q.salt]);
    } else if h == k && Secret(p) == Secret(q) {
      JoinTail(h, [p.nonce, p.salt], [q.nonce, q.salt]);
    }
  }

  lemma HeadersAgreeExactly(hash: string -> string, rfq: nat, p: Reveal, other: nat, q: Reveal, m: Numbers, n: Numbers)
    requires IsDigest(hash) && CheckTerms(p) == Ok(m) && CheckTerms(q) == Ok(n)
    ensures Header(hash, rfq, p, m.amount, m.bond) == Header(hash, other, q, n.amount, n.bond)
      <==> rfq == other && SameTerms(p, q)
  {
    if Header(hash, rfq, p, m.amount, m.bond) == Header(hash, other, q, n.amount, n.bond) {
      HeadersDetermineTerms(hash, rfq, p, other, q, m.amount, m.bond, n.amount, n.bond);
    }
  }

  lemma PayloadsBind(hash: string -> string, rfq: nat, p: Reveal, other: nat, q: Reveal, m: Numbers, n: Numbers)
    requires IsDigest(hash) && CheckTerms(p) == Ok(m) && CheckTerms(q) == Ok(n) && Plain(p.bidder) && Plain(q.bidder)
    ensures Payload(Header(hash, rfq, p, m.amount, m.bond), p.nonce, p.salt)
        == Payload(Header(hash, other, q, n.amount, n.bond), q.nonce, q.salt)
      <==> rfq == other && SameTerms(p, q) && Secret(p) == Secret(q)
  {
    var h, k := Header(hash, rfq, p, m.amount, m.bond), Header(hash, other, q, n.amount, n.bond);
    HeadersAgreeExactly(hash, rfq, p, other, q, m, n);
    HeaderIsPlain(hash, rfq, p, m.amount, m.bond);
    HeaderIsPlain(hash, other, q, n.amount, n.bond);
    PayloadsAgreeExactly(h, k, p, q);
  }

  lemma ComputesPayload(hash: string -> string, rfq: int, p: Reveal) returns (n: Numbers)
    requires Compute(hash, rfq, p).Ok?
    ensures rfq > 0 && Plain(p.bidder) && CheckTerms(p) == Ok(n)
    ensures Compute(hash, rfq, p) == Ok(hash(Payload(Header(hash, rfq, p, n.amount, n.bond), p.nonce, p.salt)))
  {
    n := CheckTerms(p).value;
  }

  /** The commitment binds the RFQ and every term, whatever the nonces: two valid reveals match the same commitment
      exactly when they are for one RFQ and agree on every term and on the nonce and the salt joined by the
      separator. */
  lemma CommitmentBinds(hash: string -> string, rfq: int, p: Reveal, other: int, q: Reveal)
    requires IsDigest(hash) && Compute(hash, rfq, p).Ok? && Compute(hash, other, q).Ok?
    ensures Compute(hash, rfq, p) == Compute(hash, other, q)
      <==> rfq == other && SameTerms(p, q) && Secret(p) == Secret(q)
  {
    var m := ComputesPayload(hash, rfq, p);
    var n := ComputesPayload(hash, other, q);
    PayloadsBind(hash, rfq, p, other, q, m, n);
  }

  /** Where the nonces are equal, or neither holds a separator, the joined secrets split: nonce and salt
      agree one by one. */
  lemma SecretSplits(p: Reveal, q: Reveal)
    requires p.nonce == q.nonce || (Plain(p.nonce) && Plain(q.nonce))
    ensures Secret(p) == Secret(q) <==> p.nonce == q.nonce && p.salt == q.salt
  {
    if Secret(p) == Secret(q) {
      if p.nonce == q.nonce {
        assert p.salt == Secret(p)[|p.nonce| + 1..] && q.salt == Secret(q)[|q.nonce| + 1..];
      } else {
        FirstFieldsAgree(p.nonce, q.nonce, p.salt, q.salt);
      }
    }
  }

  /** Under one stored nonce a commitment admits only reveals that agree on every term and on the salt. */
  lemma OneNonceBindsTheSalt(hash: string -> string, rfq: int, p: Reveal, q: Reveal)
    requires IsDigest(hash) && Compute(hash, rfq, p).Ok? && Compute(hash, rfq, q).Ok? && p.nonce == q.nonce
    ensures Compute(hash, rfq, p) == Compute(hash, rfq, q) <==> SameTerms(p, q) && p.salt == q.salt
  {
    CommitmentBinds(hash, rfq, p, rfq, q);
    SecretSplits(p, q);
  }

  lemma Lengthened(s: string, after: string, before: string)
    requires !Blank(s)
    ensures !Blank(before + s + after)
  {
    var c :| c in s && !IsSpace(c);
    assert c in before + s + after;
  }

  lemma SeparatorMoves(x: string, y: string, z: string)
    requires !Blank(x) && !Blank(z)
    ensures var nonce, salt := x + [SEPARATOR] + y, y + [SEPARATOR] + z;
      nonce != x && !Blank(nonce) && !Blank(salt) && nonce + [SEPARATOR] + z == x + [SEPARATOR] + salt
  {
    var nonce, salt := x + [SEPARATOR] + y, y + [SEPARATOR] + z;
    assert |nonce| > |x|;
    Lengthened(x, [SEPARATOR] + y, []);
    Lengthened(z, [], y + [SEPARATOR]);
    assert nonce == [] + x + ([SEPARATOR] + y) && salt == y + [SEPARATOR] + z + [];
    assert nonce + [SEPARATOR] + z == x + [SEPARATOR] + salt;
  }

  /** Two valid reveals, with different nonces, that match one commitment. */
  ghost predicate Collide(hash: string -> string, rfq: int, p: Reveal, q: Reveal) {
    p.nonce != q.nonce && Compute(hash, rfq, p).Ok? && Compute(hash, rfq, p) == Compute(hash, rfq, q)
  }

  lemma SameSecretCollides(hash: string -> string, rfq: int, p: Reveal, q: Reveal)
    requires IsDigest(hash) && Compute(hash, rfq, p).Ok? && q == p.(nonce := q.nonce, salt := q.salt)
    requires p.nonce != q.nonce && !Blank(q.nonce) && !Blank(q.salt) && Secret(p) == Secret(q)
    ensures Collide(hash, rfq, p, q)
  {
    assert CheckTerms(q) == CheckTerms(p) && SameTerms(p, q);
    CommitmentBinds(hash, rfq, p, rfq, q);
  }

  /** Elsewhere a separator can stand in the nonce or in the salt: whatever the terms of a valid reveal and
      whatever the three parts, two valid reveals with different nonces and salts match one commitment. */
  lemma NonceAndSaltCanTrade(hash: string -> string, rfq: int, terms: Reveal, x: string, y: string, z: string)
    requires IsDigest(hash) && Compute(hash, rfq, terms).Ok? && !Blank(x) && !Blank(z)
    ensures Collide(hash, rfq, terms.(nonce := x + [SEPARATOR] + y, salt := z),
                    terms.(nonce := x, salt := y + [SEPARATOR] + z))
  {
    SeparatorMoves(x, y, z);
    var p := terms.(nonce := x + [SEPARATOR] + y, salt := z);
    assert CheckTerms(p) == CheckTerms(terms);
    SameSecretCollides(hash, rfq, p, terms.(nonce := x, salt := y + [SEPARATOR] + z));
  }

  /** Terms that are valid. */
  function Terms(nonce: string, salt: string): Reveal {
    Reveal("0xb", "5", 60, "0", "[]", "", 100, "", nonce, salt)
  }

  lemma TermsAreValid(nonce: string, salt: string)
    ensures CheckTerms(Terms(nonce, salt)) == Ok(Numbers(5, 0))
  {
    assert Value("5") == 5 by { assert "5"[..0] == []; }
    assert Value("0") == 0 by { assert "0"[..0] == []; }
  }

  lemma TermsCompute(hash: string -> string, nonce: string, salt: string)
    requires !Blank(nonce) && !Blank(salt)
    ensures Compute(hash, 1, Terms(nonce, salt)).Ok?
  {
    TermsAreValid(nonce, salt);
  }

  lemma ValidTerms(hash: string -> string, nonce: string, salt: string) returns (p: Reveal)
    requires !Blank(nonce) && !Blank(salt)
    ensures Compute(hash, 1, p).Ok? && p.nonce == nonce && p.salt == salt
  {
    p := Terms(nonce, salt);
    TermsCompute(hash, nonce, salt);
  }

  lemma SomePairCollides(hash: string -> string, x: string, y: string, z: string) returns (p: Reveal, q: Reveal)
    requires IsDigest(hash) && !Blank(x) && !Blank(z)
    ensures p.nonce == x + [SEPARATOR] + y && p.salt == z && q.nonce == x && q.salt == y + [SEPARATOR] + z
    ensures Collide(hash, 1, p, q)
  {
    var terms := ValidTerms(hash, x, z);
    p, q := terms.(nonce := x + [SEPARATOR] + y, salt := z), terms.(nonce := x, salt := y + [SEPARATOR] + z);
    NonceAndSaltCanTrade(hash, 1, terms, x, y, z);
  }

  lemma PairText()
    ensures !Blank("a") && !Blank("c")
    ensures "a" + [SEPARATOR] + "b" == "a|b" && "b" + [SEPARATOR] + "c" == "b|c"
  {
    assert 'a' in "a" && 'c' in "c";
  }

  /** One such pair: the nonces "a|b" and "a" with the salts "c" and "b|c". */
  lemma OnePairCollides(hash: string -> string) returns (p: Reveal, q: Reveal)
    requires IsDigest(hash)
    ensures p.nonce == "a|b" && p.salt == "c" && q.nonce == "a" && q.salt == "b|c" && Collide(hash, 1, p, q)
  {
    PairText();
    p, q := SomePairCollides(hash, "a", "b", "c");
  }

  /** The text is an integer, of at least this much. */
  predicate IntegerFrom(raw: string, least: int) {
    ParseInteger(raw).Some? && ParseInteger(raw).value >= least
  }

  predicate TermsValid(p: Reveal) {
    0 <= p.duration && 0 < p.expiresAt && IntegerFrom(p.amount, 1) && IntegerFrom(p.bond, 0)
  }

  lemma TermsAreChecked(p: Reveal)
    ensures CheckTerms(p).Ok? <==> TermsValid(p)
    ensures TermsValid(p) ==> CheckTerms(p) == Ok(Numbers(ParseInteger(p.amount).value, ParseInteger(p.bond).value))
  {
  }

  lemma ComputesExactly(hash: string -> string, rfq: int, p: Reveal)
    ensures Compute(hash, rfq, p).Ok? <==>
      rfq > 0 && Plain(p.bidder) && TrimSpace(p.nonce) != "" && TrimSpace(p.salt) != "" && CheckTerms(p).Ok?
  {
    BlankMeansTrimmedAway(p.nonce);
    BlankMeansTrimmedAway(p.salt);
  }

  /** A reveal is refused exactly when one of its inputs is: the nonce and the salt must not be blank, the amount must
      be a positive integer, the bond one that is not negative, the duration not negative and the expiry set. */
  lemma ValidExactly(hash: string -> string, rfq: int, p: Reveal)
    ensures Compute(hash, rfq, p).Ok? <==>
      rfq > 0 && '|' !in p.bidder && TrimSpace(p.nonce) != "" && TrimSpace(p.salt) != "" && TermsValid(p)
  {
    ComputesExactly(hash, rfq, p);
    TermsAreChecked(p);
  }

  // ---- the digested text

  /** The parts one after the other, each but the last followed by a separator. */
  function Separated(parts: seq<string>): string {
    if parts == [] then "" else parts[0] + (if |parts| == 1 then "" else "|" + Separated(parts[1..]))
  }

  lemma {:induction false} JoinSeparates(parts: seq<string>)
    ensures Join(parts) == Separated(parts)
  {
    if |parts| > 1 { JoinSeparates(parts[1..]); }
  }

  /** The parts in their order: the domain, the RFQ, the bidder, the amount, the duration and the bond in decimal, the
      digests of milestones and message, the expiry, the digest of the trimmed mandate, the nonce and the salt. */
  function Parts(hash: string -> string, rfq: nat, p: Reveal): seq<string>
    requires TermsValid(p)
  {
    ["agent-escrow:sealed-bid:v1", Decimal(rfq), p.bidder, Decimal(ParseInteger(p.amount).value), Decimal(p.duration),
     Decimal(ParseInteger(p.bond).value), hash(p.milestones), hash(p.message), Decimal(p.expiresAt),
     hash(TrimSpace(p.stakeMandate)), p.nonce, p.salt]
  }

  lemma HeaderHasParts(hash: string -> string, rfq: nat, p: Reveal)
    requires TermsValid(p)
    ensures Header(hash, rfq, p, ParseInteger(p.amount).value, ParseInteger(p.bond).value) + [p.nonce, p.salt]
      == Parts(hash, rfq, p)
  {
  }

  /** A commitment is the digest of these parts and of nothing else. */
  lemma DigestedText(hash: string -> string, rfq: int, p: Reveal)
    requires Compute(hash, rfq, p).Ok?
    ensures rfq > 0 && TermsValid(p) && Compute(hash, rfq, p) == Ok(hash(Separated(Parts(hash, rfq, p))))
  {
    var n := ComputesPayload(hash, rfq, p);
    TermsAreChecked(p);
    HeaderHasParts(hash, rfq, p);
    JoinSeparates(Parts(hash, rfq, p));
  }
}
