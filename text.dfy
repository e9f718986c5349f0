/**
 * The parts of Python's `str` that the drug-name normalisers rely on,
 * over ASCII: `isspace`, `lower`, `strip`, `split()[0]` and `int(...)`.
 */
module Text {
  import opened Wrappers

  /** `str.isspace()` on ASCII: space, the controls 0x09..0x0D and the
      separators 0x1C..0x1F. */
  predicate IsSpace(c: char)
    ensures IsSpace(c) ==> !('0' <= c <= '9') && !('A' <= c <= 'Z') && c != ',' && c != '-' && c != '('
  {
    c == ' ' || (9 <= c as int <= 13) || (28 <= c as int <= 31)
  }

  predicate IsDigit(c: char) { '0' <= c <= '9' }

  predicate IsUpper(c: char) { 'A' <= c <= 'Z' }

  predicate HasNonSpace(s: string) {
    exists k :: 0 <= k < |s| && !IsSpace(s[k])
  }

  predicate AllDigits(s: string) {
    forall k :: 0 <= k < |s| ==> IsDigit(s[k])
  }

  function LowerChar(c: char): (r: char)
    ensures !IsUpper(r)
    ensures !IsUpper(c) ==> r == c
    ensures IsSpace(r) <==> IsSpace(c)
  {
    if IsUpper(c) then (c as int + 32) as char else c
  }

  /** `str.lower()`: every ASCII capital becomes its small letter. */
  function Lower(s: string): (r: string)
    ensures |r| == |s|
    ensures forall k :: 0 <= k < |s| ==> r[k] == LowerChar(s[k])
  {
    seq(|s|, k requires 0 <= k < |s| => LowerChar(s[k]))
  }

  /** Number of whitespace characters that open `s`. */
  function LeadingSpace(s: string): (i: nat)
    ensures i <= |s|
    ensures forall k :: 0 <= k < i ==> IsSpace(s[k])
    ensures i < |s| ==> !IsSpace(s[i])
  {
    if s != [] && IsSpace(s[0]) then 1 + LeadingSpace(s[1..]) else 0
  }

  /** Index at which the whitespace run that closes `s` starts. */
  function TrailingSpace(s: string): (j: nat)
    ensures j <= |s|
    ensures forall k :: j <= k < |s| ==> IsSpace(s[k])
    ensures 0 < j ==> !IsSpace(s[j - 1])
  {
    if s != [] && IsSpace(s[|s| - 1]) then TrailingSpace(s[..|s| - 1]) else |s|
  }

  /** `str.strip()`: the longest slice of `s` that neither starts nor ends
      with whitespace, found after dropping whitespace at both ends. */
  function Strip(s: string): (r: string)
    ensures LeadingSpace(s) + |r| <= |s|
    ensures r == s[LeadingSpace(s)..LeadingSpace(s) + |r|]
    ensures forall k :: LeadingSpace(s) + |r| <= k < |s| ==> IsSpace(s[k])
    ensures r == [] || (!IsSpace(r[0]) && !IsSpace(r[|r| - 1]))
    ensures r == [] <==> !HasNonSpace(s)
    ensures s == [] || (!IsSpace(s[0]) && !IsSpace(s[|s| - 1])) ==> r == s
  {
    var i := LeadingSpace(s);
    var j := TrailingSpace(s);
    if HasNonSpace(s) then
      var k :| 0 <= k < |s| && !IsSpace(s[k]);
      assert i <= k < j;
      s[i..j]
    else
      []
  }

  /** Length of the run of non-whitespace characters that opens `s`. */
  function WordLength(s: string): (n: nat)
    ensures n <= |s|
    ensures forall k :: 0 <= k < n ==> !IsSpace(s[k])
    ensures n < |s| ==> IsSpace(s[n])
  {
    if s != [] && !IsSpace(s[0]) then 1 + WordLength(s[1..]) else 0
  }

  /** `str.split()[0]`: the first whitespace-separated word. Python raises
      IndexError when `s` has no word, hence the precondition. */
  function FirstWord(s: string): (r: string)
    requires HasNonSpace(s)
    ensures r != []
    ensures forall c :: c in r ==> !IsSpace(c)
    ensures LeadingSpace(s) + |r| <= |s|
    ensures r == s[LeadingSpace(s)..LeadingSpace(s) + |r|]
    ensures LeadingSpace(s) + |r| == |s| || IsSpace(s[LeadingSpace(s) + |r|])
  {
    var i := LeadingSpace(s);
    var n := WordLength(s[i..]);
    s[i..i + n]
  }

  function DigitValue(c: char): (d: nat)
    requires IsDigit(c)
    ensures d < 10
  {
    c as int - '0' as int
  }

  function DigitChar(d: nat): (c: char)
    requires d < 10
    ensures IsDigit(c) && DigitValue(c) == d
  {
    ('0' as int + d) as char
  }

  /** The value of a string of decimal digits, most significant first. */
  function DecimalValue(ds: string): nat
    requires AllDigits(ds)
  {
    if ds == [] then 0
    else 10 * DecimalValue(ds[..|ds| - 1]) + DigitValue(ds[|ds| - 1])
  }

  /** Python's `int(s)` for ASCII decimal text: surrounding whitespace, an
      optional sign, then at least one digit; anything else is a
      ValueError, here `None`. */
  function ParseInt(s: string): (r: Option<int>)
    ensures r.Some? ==> exists k :: 0 <= k < |s| && IsDigit(s[k])
  {
    var t := Strip(s);
    if t != [] && (t[0] == '+' || t[0] == '-') then
      var ds := t[1..];
      if ds != [] && AllDigits(ds) then
        assert IsDigit(s[LeadingSpace(s) + 1]);
        Some(if t[0] == '-' then -(DecimalValue(ds) as int) else DecimalValue(ds))
      else None
    else if t != [] && AllDigits(t) then
      assert IsDigit(s[LeadingSpace(s)]);
      Some(DecimalValue(t))
    else None
  }

  /** `"{}".format(n)` for a natural number. */
  function NatToDecimal(n: nat): (r: string)
    ensures r != [] && AllDigits(r)
  {
    if n < 10 then [DigitChar(n)] else NatToDecimal(n / 10) + [DigitChar(n % 10)]
  }

  /** `"{}".format(n)` for an integer. */
  function IntToDecimal(n: int): (r: string)
    ensures n >= 0 ==> r != [] && AllDigits(r)
    ensures n < 0 ==> |r| >= 2 && r[0] == '-' && AllDigits(r[1..])
  {
    if n < 0 then "-" + NatToDecimal(-n) else NatToDecimal(n)
  }

  /** Reading back a printed natural number gives that number. */
  lemma {:induction false} DecimalRoundTrip(n: nat)
    ensures DecimalValue(NatToDecimal(n)) == n
  {
    if n >= 10 {
      var ds := NatToDecimal(n);
      assert ds[..|ds| - 1] == NatToDecimal(n / 10);
      DecimalRoundTrip(n / 10);
    }
  }

  /** `int(str(n)) == n`: the operator can type back any number the
      program prints. */
  lemma ParsePrintedInt(n: int)
    ensures ParseInt(IntToDecimal(n)) == Some(n)
  {
    var t := IntToDecimal(n);
    var ds := NatToDecimal(if n < 0 then -n else n);
    DecimalRoundTrip(if n < 0 then -n else n);
    assert !IsSpace(t[0]) && !IsSpace(t[|t| - 1]) by {
      assert t[|t| - 1] == ds[|ds| - 1];
    }
    assert Strip(t) == t;
    if n < 0 {
      assert t[0] == '-' && t[1..] == ds;
    } else {
      assert t == ds && !(t[0] == '+' || t[0] == '-');
    }
  }
}
