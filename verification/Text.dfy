/** ASCII text as the services normalise it. */
module Text {
  import opened Common

  predicate IsSpace(c: char) {
    c == ' ' || c == '\t' || c == '\n' || c == '\r' || c == 11 as char || c == 12 as char
  }

  /** The ASCII codes of white space. */
  lemma SpaceCodes(c: char)
    ensures IsSpace(c) <==> SpaceCode(c)
  {
  }

  function TrimLeft(s: string): (r: string)
    ensures r == [] || !IsSpace(r[0])
    ensures |r| <= |s| && r == s[|s| - |r|..] && Blank(s[..|s| - |r|])
  {
    if s != [] && IsSpace(s[0]) then TrimLeft(s[1..]) else s
  }

  function TrimRight(s: string): (r: string)
    ensures r == [] || !IsSpace(r[|r| - 1])
    ensures r <= s && Blank(s[|r|..])
  {
    if s != [] && IsSpace(s[|s| - 1]) then TrimRight(s[..|s| - 1]) else s
  }

  /** strings.TrimSpace. */
  function TrimSpace(s: string): (r: string)
    ensures r == [] || (!IsSpace(r[0]) && !IsSpace(r[|r| - 1]))
    ensures forall c :: c in r ==> c in s
  {
    TrimRight(TrimLeft(s))
  }

  lemma WithoutItsEnds(s: string, left: string, kept: string)
    requires |left| <= |s| && left == s[|s| - |left|..] && kept <= left
    ensures s == s[..|s| - |left|] + kept + left[|kept|..]
  {
    assert s == s[..|s| - |left|] + left;
    assert left == kept + left[|kept|..];
  }

  predicate SpaceCode(c: char) { 9 <= c as int <= 13 || c as int == 32 }

  /** Trimming takes the white space at both ends, and no more: what is taken is white space by its code, and what is
      left neither begins nor ends with any. */
  lemma TrimmedEnds(s: string) returns (before: string, after: string)
    ensures var r := TrimSpace(s);
      s == before + r + after && (r != "" ==> !SpaceCode(r[0]) && !SpaceCode(r[|r| - 1]))
    ensures (forall c :: c in before ==> SpaceCode(c)) && forall c :: c in after ==> SpaceCode(c)
  {
    forall c: char ensures IsSpace(c) <==> SpaceCode(c) { SpaceCodes(c); }
    var left, kept := TrimLeft(s), TrimSpace(s);
    before, after := s[..|s| - |left|], left[|kept|..];
    WithoutItsEnds(s, left, kept);
  }

  /** Nothing is left after trimming. */
  predicate Blank(s: string) {
    forall c :: c in s ==> IsSpace(c)
  }

  lemma {:induction false} BlankMeansTrimmedAway(s: string)
    ensures Blank(s) <==> TrimSpace(s) == ""
  {
    var left := TrimLeft(s);
    if !Blank(s) {
      var c :| c in s && !IsSpace(c);
      TrimLeftKeeps(s, c);
      TrimRightKeeps(left, c);
    }
  }

  lemma {:induction false} TrimLeftKeeps(s: string, c: char)
    requires c in s && !IsSpace(c)
    ensures c in TrimLeft(s)
  {
    if IsSpace(s[0]) { TrimLeftKeeps(s[1..], c); }
  }

  lemma {:induction false} TrimRightKeeps(s: string, c: char)
    requires c in s && !IsSpace(c)
    ensures c in TrimRight(s)
  {
    if IsSpace(s[|s| - 1]) { TrimRightKeeps(s[..|s| - 1], c); }
  }

  function LowerChar(c: char): char {
    if 'A' <= c <= 'Z' then (c as int + 32) as char else c
  }

  /** strings.ToLower. */
  function ToLower(s: string): (r: string)
    ensures |r| == |s| && forall i :: 0 <= i < |s| ==> r[i] == LowerChar(s[i])
  {
    seq(|s|, i requires 0 <= i < |s| => LowerChar(s[i]))
  }

  /** Lower-casing takes each capital letter to the small one in its place, and nothing else. */
  lemma LowersLetters(c: char)
    ensures 'A' <= c <= 'Z' ==>
      'a' <= LowerChar(c) <= 'z' && LowerChar(c) as int - 'a' as int == c as int - 'A' as int
    ensures !('A' <= c <= 'Z') ==> LowerChar(c) == c
  {
  }

  lemma TrimmedIsFixed(s: string)
    requires s == [] || (!IsSpace(s[0]) && !IsSpace(s[|s| - 1]))
    ensures TrimSpace(s) == s
  {
  }

  /** Lower-casing and then trimming, as canonicalize does to each item, is a projection. */
  lemma NormalizingTwice(s: string)
    ensures TrimSpace(ToLower(TrimSpace(ToLower(s)))) == TrimSpace(ToLower(s))
  {
    var r := TrimSpace(ToLower(s));
    forall i | 0 <= i < |r| ensures LowerChar(r[i]) == r[i] {
      assert r[i] in ToLower(s);
      var j :| 0 <= j < |s| && r[i] == LowerChar(s[j]);
      LowerCharTwice(s[j]);
    }
    assert ToLower(r) == r;
    TrimmedIsFixed(r);
  }

  lemma LowerCharTwice(c: char)
    ensures LowerChar(LowerChar(c)) == LowerChar(c)
  {
  }

  // ---- decimal numbers

  predicate IsDigit(c: char) { '0' <= c <= '9' }

  function Digit(d: nat): (c: char)
    requires d < 10
    ensures IsDigit(c)
  {
    ('0' as int + d) as char
  }

  /** strconv.FormatInt and big.Int.String on a number that is not negative. */
  function Decimal(n: nat): (s: string)
    ensures s != [] && forall i :: 0 <= i < |s| ==> IsDigit(s[i])
  {
    if n < 10 then [Digit(n)] else Decimal(n / 10) + [Digit(n % 10)]
  }

  predicate AllDigits(s: string) {
    forall i :: 0 <= i < |s| ==> IsDigit(s[i])
  }

  function Value(s: string): nat
    requires AllDigits(s)
  {
    if s == [] then 0 else 10 * Value(s[..|s| - 1]) + (s[|s| - 1] as int - '0' as int)
  }

  lemma {:induction false} DecimalHasValue(n: nat)
    ensures Value(Decimal(n)) == n
  {
    if n >= 10 {
      DecimalHasValue(n / 10);
      var s := Decimal(n);
      assert s[..|s| - 1] == Decimal(n / 10);
    } else {
      assert Decimal(n)[..0] == [];
    }
  }

  /** big.Int.SetString in base ten: an optional sign and at least one digit. */
  function ParseInteger(raw: string): Option<int> {
    if raw != [] && AllDigits(raw) then Some(Value(raw))
    else if |raw| > 1 && (raw[0] == '+' || raw[0] == '-') && AllDigits(raw[1..])
    then var v: int := Value(raw[1..]); Some(if raw[0] == '-' then -v else v)
    else None
  }

  /** At least one digit. */
  predicate Digits(s: string) { s != [] && AllDigits(s) }

  /** What parses, and as which number: digits, with a sign or without. */
  lemma ParsesExactly(raw: string)
    ensures ParseInteger(raw).Some? <==>
      Digits(raw) || (raw != [] && (raw[0] == '+' || raw[0] == '-') && Digits(raw[1..]))
    ensures Digits(raw) ==> ParseInteger(raw) == Some(Value(raw))
    ensures raw != [] && raw[0] == '+' && Digits(raw[1..]) ==> ParseInteger(raw) == Some(Value(raw[1..]))
    ensures raw != [] && raw[0] == '-' && Digits(raw[1..]) ==>
      ParseInteger(raw).Some? && ParseInteger(raw).value == 0 - Value(raw[1..])
  {
  }

  function Signed(n: int): string { if n < 0 then ['-'] + Decimal(-n) else Decimal(n) }

  /** Every integer reads back from its decimal text. */
  lemma IntegersReadBack(n: int)
    ensures ParseInteger(Signed(n)) == Some(n)
  {
    if n < 0 {
      assert Signed(n)[1..] == Decimal(-n);
      DecimalHasValue(-n);
    } else {
      DecimalHasValue(n);
    }
    ParsesExactly(Signed(n));
  }
}
