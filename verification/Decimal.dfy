/** Decimal numerals: Go's `strconv.Format*` and `strconv.Parse*` in base ten. */
module Decimal {
  import opened Wrappers

  const UINT32_LIMIT: nat := 0x1_0000_0000
  const UINT64_LIMIT: nat := 0x1_0000_0000_0000_0000
  const INT64_LIMIT: int := 0x8000_0000_0000_0000

  const DIGITS := "0123456789"

  predicate IsDigit(c: char) { '0' <= c <= '9' }

  function FormatNat(n: nat): (s: string)
    ensures s != ""
    ensures forall i :: 0 <= i < |s| ==> IsDigit(s[i])
  {
    if n < 10 then [DIGITS[n]] else FormatNat(n / 10) + [DIGITS[n % 10]]
  }

  function FormatInt(n: int): string {
    if n < 0 then "-" + FormatNat(-n) else FormatNat(n)
  }

  /** The value of a run of digits; None when some character is not a digit. */
  function Value(s: string): Option<nat> {
    if s == "" then Some(0)
    else
      var c := s[|s| - 1];
      match Value(s[..|s| - 1])
      case Some(v) => if IsDigit(c) then Some(10 * v + (c as int - '0' as int)) else None
      case None => None
  }

  /** `strconv.ParseUint` with the bound `limit`. */
  function ParseUint(s: string, limit: nat): Option<nat> {
    if s == "" then None
    else
      match Value(s)
      case Some(v) => if v < limit then Some(v) else None
      case None => None
  }

  /** `strconv.ParseInt` for 64 bits: an optional sign, then digits. */
  function ParseInt(s: string): Option<int> {
    if s == "" then None
    else if s[0] == '-' then
      var v: Option<int> := ParseUint(s[1..], INT64_LIMIT + 1);
      if v.Some? then Some(-v.value) else None
    else
      ParseUint(if s[0] == '+' then s[1..] else s, INT64_LIMIT)
  }

  predicate IsInt64(n: int) { -INT64_LIMIT <= n < INT64_LIMIT }

  /** A Go conversion to `int64` always lands in the type's range. */
  function ToInt64(n: int): (r: int)
    ensures IsInt64(r)
    ensures IsInt64(n) ==> r == n
    ensures (n - r) % UINT64_LIMIT == 0
  {
    var m := n % UINT64_LIMIT;
    if m < INT64_LIMIT then m else m - UINT64_LIMIT
  }

  function ToUint32(n: int): (r: nat)
    ensures r < UINT32_LIMIT
    ensures 0 <= n < UINT32_LIMIT ==> r == n
    ensures (n - r) % UINT32_LIMIT == 0
  {
    n % UINT32_LIMIT
  }

  lemma {:induction false} ValueOfFormat(n: nat)
    ensures Value(FormatNat(n)) == Some(n)
  {
    var s := FormatNat(n);
    if n < 10 {
      assert s[..|s| - 1] == "";
    } else {
      ValueOfFormat(n / 10);
      assert s[..|s| - 1] == FormatNat(n / 10);
    }
  }

  /** Printing then parsing an unsigned number gives it back, up to the bound. */
  lemma FormatParseUint(n: nat, limit: nat)
    ensures ParseUint(FormatNat(n), limit) == if n < limit then Some(n) else None
  {
    ValueOfFormat(n);
  }

  lemma FormatParsePositive(n: nat)
    requires n < INT64_LIMIT
    ensures ParseInt(FormatNat(n)) == Some(n)
  {
    assert IsDigit(FormatNat(n)[0]);
    FormatParseUint(n, INT64_LIMIT);
  }

  lemma FormatParseNegative(n: int)
    requires 0 <= n <= INT64_LIMIT
    ensures ParseInt("-" + FormatNat(n)) == Some(-n)
  {
    assert ("-" + FormatNat(n))[1..] == FormatNat(n);
    FormatParseUint(n, INT64_LIMIT + 1);
  }

  /** Printing then parsing any `int64` gives it back. */
  lemma FormatParseInt(n: int)
    requires IsInt64(n)
    ensures ParseInt(FormatInt(n)) == Some(n)
  {
    if n < 0 {
      FormatParseNegative(-n);
    } else {
      FormatParsePositive(n);
    }
  }

  /** Different numbers print differently. */
  lemma FormatInjective(a: nat, b: nat)
    requires FormatNat(a) == FormatNat(b)
    ensures a == b
  {
    ValueOfFormat(a);
    ValueOfFormat(b);
  }

  /** Digits are written with the most significant first. */
  lemma OneMoreDigit(n: nat, d: nat)
    requires d < 10
    ensures n > 0 ==> FormatNat(10 * n + d) == FormatNat(n) + FormatNat(d)
    ensures FormatNat(d) == ["0123456789"[d]]
  {
  }
}
