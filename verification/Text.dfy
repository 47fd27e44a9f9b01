/** Byte strings (one `char` per byte) and the small pieces of Go's strings and
    strconv packages that several components share. */
module Text {

  datatype Option<+T> = None | Some(value: T)

  // ---- White space -------------------------------------------------------

  predicate IsSpace(c: char) {
    c == ' ' || c == '\t' || c == '\n' || c == '\r' || c == 11 as char || c == 12 as char
  }

  function TrimLeft(s: string): string {
    if s != "" && IsSpace(s[0]) then TrimLeft(s[1..]) else s
  }

  function TrimRight(s: string): string {
    if s != "" && IsSpace(s[|s| - 1]) then TrimRight(s[..|s| - 1]) else s
  }

  /** strings.TrimSpace on single-byte characters. */
  function TrimSpace(s: string): string {
    TrimRight(TrimLeft(s))
  }

  predicate Trimmed(s: string) {
    s != "" ==> !IsSpace(s[0]) && !IsSpace(s[|s| - 1])
  }

  lemma {:induction false} TrimLeftTrims(s: string)
    ensures TrimLeft(s) != "" ==> !IsSpace(TrimLeft(s)[0])
  {
    if s != "" && IsSpace(s[0]) {
      TrimLeftTrims(s[1..]);
    }
  }

  lemma {:induction false} TrimRightTrims(s: string)
    ensures TrimRight(s) <= s
    ensures TrimRight(s) != "" ==> !IsSpace(TrimRight(s)[|TrimRight(s)| - 1])
  {
    if s != "" && IsSpace(s[|s| - 1]) {
      TrimRightTrims(s[..|s| - 1]);
    }
  }

  lemma TrimSpaceTrims(s: string)
    ensures Trimmed(TrimSpace(s))
  {
    TrimLeftTrims(s);
    TrimRightTrims(TrimLeft(s));
  }

  lemma TrimSpaceKeeps(s: string)
    requires Trimmed(s)
    ensures TrimSpace(s) == s
  {
  }

  // ---- Searching ---------------------------------------------------------

  predicate OccursAt(s: string, m: string, i: int) {
    0 <= i && i + |m| <= |s| && s[i..i + |m|] == m
  }

  /** bytes.LastIndex: the greatest position of m in s, or -1. */
  function LastIndex(s: string, m: string): (r: int)
    ensures -1 <= r
    ensures r >= 0 ==> OccursAt(s, m, r)
  {
    LastIndexFrom(s, m, |s|)
  }

  function LastIndexFrom(s: string, m: string, from: nat): (r: int)
    ensures -1 <= r <= from
    ensures r >= 0 ==> OccursAt(s, m, r)
  {
    if OccursAt(s, m, from) then from
    else if from == 0 then -1
    else LastIndexFrom(s, m, from - 1)
  }

  lemma {:induction false} LastIndexIs(s: string, m: string, at: nat, from: nat)
    requires OccursAt(s, m, at) && at <= from
    requires forall i | at < i <= from :: !OccursAt(s, m, i)
    ensures LastIndexFrom(s, m, from) == at
  {
    if at < from {
      LastIndexIs(s, m, at, from - 1);
    }
  }

  // ---- Numerals ----------------------------------------------------------

  predicate IsDigit(c: char, base: nat) {
    '0' <= c && c as int - '0' as int < base
  }

  predicate AllDigits(s: string, base: nat) {
    forall i | 0 <= i < |s| :: IsDigit(s[i], base)
  }

  /** strconv.FormatUint(n, 10). */
  function Decimal(n: nat): (s: string)
    ensures s != "" && AllDigits(s, 10)
  {
    if n < 10 then [DigitChar(n)] else Decimal(n / 10) + [DigitChar(n % 10)]
  }

  function DigitChar(d: nat): (c: char)
    requires d < 10
    ensures IsDigit(c, 10) && c as int - '0' as int == d
  {
    (d + '0' as int) as char
  }

  function NumeralValue(s: string, base: nat): nat
    requires AllDigits(s, base)
  {
    if s == "" then 0
    else NumeralValue(s[..|s| - 1], base) * base + (s[|s| - 1] as int - '0' as int)
  }

  /** strconv.ParseUint without its width check: digits only, at least one. */
  function ParseNumeral(s: string, base: nat): Option<nat> {
    if s == "" || !AllDigits(s, base) then None else Some(NumeralValue(s, base))
  }

  lemma ValueSnoc(s: string, c: char, base: nat)
    requires AllDigits(s, base) && IsDigit(c, base)
    ensures AllDigits(s + [c], base)
    ensures NumeralValue(s + [c], base) == NumeralValue(s, base) * base + (c as int - '0' as int)
  {
  }

  lemma {:induction false} DecimalRoundTrip(n: nat)
    ensures ParseNumeral(Decimal(n), 10) == Some(n)
  {
    if n < 10 {
      ValueSnoc("", DigitChar(n), 10);
      assert "" + [DigitChar(n)] == [DigitChar(n)];
    } else {
      DecimalRoundTrip(n / 10);
      ValueSnoc(Decimal(n / 10), DigitChar(n % 10), 10);
    }
  }

  lemma DecimalInjective(m: nat, n: nat)
    requires Decimal(m) == Decimal(n)
    ensures m == n
  {
    DecimalRoundTrip(m);
    DecimalRoundTrip(n);
  }

  function Pow10(k: nat): nat { if k == 0 then 1 else 10 * Pow10(k - 1) }

  lemma {:induction false} DecimalLength(n: nat, k: nat)
    requires 1 <= k && n < Pow10(k)
    ensures |Decimal(n)| <= k
  {
    if n >= 10 {
      assert n / 10 < Pow10(k - 1);
      assert k > 1;
      DecimalLength(n / 10, k - 1);
    }
  }

  // ---- Cutting -----------------------------------------------------------

  /** Index of the first c in s, or |s| when there is none. */
  function IndexOf(s: string, c: char): (i: nat)
    ensures i <= |s|
    ensures i < |s| ==> s[i] == c
    ensures forall j | 0 <= j < i :: s[j] != c
  {
    if s == "" || s[0] == c then 0 else
      var i := 1 + IndexOf(s[1..], c);
      assert forall j | 1 <= j < i :: s[j] == s[1..][j - 1];
      i
  }

  lemma IndexOfConcat(a: string, c: char, b: string)
    requires c !in a
    ensures IndexOf(a + [c] + b, c) == |a|
    ensures (a + [c] + b)[..|a|] == a
    ensures (a + [c] + b)[|a| + 1..] == b
  {
    var s := a + [c] + b;
    assert s[|a|] == c;
    assert forall i | 0 <= i < |a| :: s[i] == a[i];
  }
}
