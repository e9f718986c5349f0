/**
 * Row cleaning and the three drug-name normalisers of match_meds.py.
 * A `re.split(pattern, s)[0]` is the prefix of `s` before the earliest
 * position at which the pattern matches.
 */
module Names {
  import opened Text

  // ---------------------------------------------------------------- rows

  /** The rows other than the blank row `[]`, in order. */
  function NonBlank(rows: seq<seq<string>>): (r: seq<seq<string>>)
    ensures |r| + CountBlank(rows) == |rows|
    ensures forall row :: row in r ==> row in rows && row != []
  {
    if rows == [] then []
    else (if rows[0] == [] then [] else [rows[0]]) + NonBlank(rows[1..])
  }

  /** How many rows are blank. */
  function CountBlank(rows: seq<seq<string>>): nat {
    if rows == [] then 0
    else (if rows[0] == [] then 1 else 0) + CountBlank(rows[1..])
  }

  /** Filtering distributes over concatenation, so it keeps input order. */
  lemma {:induction false} NonBlankAppend(a: seq<seq<string>>, b: seq<seq<string>>)
    ensures NonBlank(a + b) == NonBlank(a) + NonBlank(b)
  {
    if a != [] {
      assert (a + b)[1..] == a[1..] + b;
      NonBlankAppend(a[1..], b);
    } else {
      assert a + b == b;
    }
  }

  /** `clean_csv_list`: drops the blank rows and then the header, the first
      row that remains. */
  function CleanCsvList(rows: seq<seq<string>>): (r: seq<seq<string>>)
    ensures forall row :: row in r ==> row in rows && row != []
    ensures |r| == if CountBlank(rows) == |rows| then 0 else |rows| - CountBlank(rows) - 1
  {
    var kept := NonBlank(rows);
    if kept == [] then [] else
      assert forall row :: row in kept[1..] ==> row in kept;
      kept[1..]
  }

  /** When row `h` is the first non-blank row (the header), the result is
      every non-blank row after it, in order. */
  lemma {:induction false} CleanCsvListDropsHeader(rows: seq<seq<string>>, h: nat)
    requires h < |rows| && rows[h] != []
    requires forall k :: 0 <= k < h ==> rows[k] == []
    ensures CleanCsvList(rows) == NonBlank(rows[h + 1..])
  {
    assert rows == rows[..h] + [rows[h]] + rows[h + 1..];
    NonBlankAppend(rows[..h] + [rows[h]], rows[h + 1..]);
    NonBlankAppend(rows[..h], [rows[h]]);
    AllBlank(rows[..h]);
    assert NonBlank([rows[h]]) == [rows[h]] by {
      assert [rows[h]][1..] == [];
    }
  }

  lemma {:induction false} AllBlank(rows: seq<seq<string>>)
    requires forall k :: 0 <= k < |rows| ==> rows[k] == []
    ensures NonBlank(rows) == []
  {
    if rows != [] {
      AllBlank(rows[1..]);
    }
  }

  // ----------------------------------------------------------- CIEL names

  /** `clean_ciel_drug_name`: lower-casing only. */
  function CleanCielDrugName(name: string): (r: string)
    ensures |r| == |name|
    ensures forall k :: 0 <= k < |r| ==> !IsUpper(r[k])
    ensures forall k :: 0 <= k < |r| && !IsUpper(name[k]) ==> r[k] == name[k]
  {
    Lower(name)
  }

  // ------------------------------------------------------------ HUM names

  /** The delimiters of `re.split(r",|\d", ...)`. */
  predicate HumDelim(c: char) { c == ',' || IsDigit(c) }

  /** `k` is where the first piece of the HUM split ends: no delimiter
      before it, and a delimiter at it unless it is the end. */
  predicate IsFirstHumDelim(s: string, k: nat) {
    && k <= |s|
    && (forall j :: 0 <= j < k ==> !HumDelim(s[j]))
    && (k < |s| ==> HumDelim(s[k]))
  }

  function FirstHumDelimFrom(s: string, i: nat): (k: nat)
    requires i <= |s|
    requires forall j :: 0 <= j < i ==> !HumDelim(s[j])
    ensures IsFirstHumDelim(s, k)
    decreases |s| - i
  {
    if i == |s| || HumDelim(s[i]) then i else FirstHumDelimFrom(s, i + 1)
  }

  lemma FirstHumDelimUnique(s: string, k1: nat, k2: nat)
    requires IsFirstHumDelim(s, k1) && IsFirstHumDelim(s, k2)
    ensures k1 == k2
  {
  }

  predicate NoHumDelim(s: string) {
    forall j :: 0 <= j < |s| ==> !HumDelim(s[j])
  }

  /** `clean_hum_drug_name`: lower-case, keep the part before the first
      comma or digit, strip whitespace. */
  function CleanHumDrugName(name: string): (r: string)
    ensures forall c :: c in r ==> !HumDelim(c) && !IsUpper(c)
    ensures r == [] || (!IsSpace(r[0]) && !IsSpace(r[|r| - 1]))
  {
    var t := Lower(name);
    var k := FirstHumDelimFrom(t, 0);
    LowerHasNoUpper(name);
    StripKeepsChars(t[..k]);
    Strip(t[..k])
  }

  /** Whatever the first delimiter of the lower-cased name is, the clean
      name is the stripped text before it; with no delimiter at all it is
      the whole stripped lower-cased name. */
  lemma CleanHumDrugNameIsStrippedHead(name: string, k: nat)
    requires IsFirstHumDelim(Lower(name), k)
    ensures CleanHumDrugName(name) == Strip(Lower(name)[..k])
    ensures NoHumDelim(Lower(name)) ==> CleanHumDrugName(name) == Strip(Lower(name))
  {
    var t := Lower(name);
    FirstHumDelimUnique(t, k, FirstHumDelimFrom(t, 0));
    assert NoHumDelim(t) ==> k == |t| && t[..k] == t;
  }

  // ------------------------------------------------------------ SSA names

  /** A match of `,|de|-|\(|\d` starts at position `k`. */
  predicate SsaDelimAt(s: string, k: nat)
    requires k < |s|
  {
    || s[k] == ',' || s[k] == '-' || s[k] == '(' || IsDigit(s[k])
    || (s[k] == 'd' && k + 1 < |s| && s[k + 1] == 'e')
  }

  predicate NoSsaDelim(s: string) {
    forall j :: 0 <= j < |s| ==> !SsaDelimAt(s, j)
  }

  predicate IsFirstSsaDelim(s: string, k: nat) {
    && k <= |s|
    && (forall j :: 0 <= j < k ==> !SsaDelimAt(s, j))
    && (k < |s| ==> SsaDelimAt(s, k))
  }

  function FirstSsaDelimFrom(s: string, i: nat): (k: nat)
    requires i <= |s|
    requires forall j :: 0 <= j < i ==> !SsaDelimAt(s, j)
    ensures IsFirstSsaDelim(s, k)
    decreases |s| - i
  {
    if i == |s| || SsaDelimAt(s, i) then i else FirstSsaDelimFrom(s, i + 1)
  }

  lemma FirstSsaDelimUnique(s: string, k1: nat, k2: nat)
    requires IsFirstSsaDelim(s, k1) && IsFirstSsaDelim(s, k2)
    ensures k1 == k2
  {
  }

  /** A slice of `s` that ends at or before its first delimiter contains
      no delimiter of its own, not even a `de` that straddles the cut. */
  lemma {:induction false} PrefixSliceHasNoSsaDelim(s: string, k: nat, a: nat, b: nat)
    requires IsFirstSsaDelim(s, k) && a <= b <= k
    ensures NoSsaDelim(s[a..b])
  {
    var r := s[a..b];
    forall j | 0 <= j < |r| ensures !SsaDelimAt(r, j) {
      assert r[j] == s[a + j];
      assert !SsaDelimAt(s, a + j);
      if j + 1 < |r| {
        assert r[j + 1] == s[a + j + 1];
      }
    }
  }

  /** `clean_ssa_drug_name`: lower-case, keep the part before the earliest
      `,`, `de`, `-`, `(` or digit and strip it; when that is empty, fall
      back to the first word of the lower-cased name. Python raises
      IndexError on a name with no word at all, hence the precondition. */
  function CleanSsaDrugName(name: string): (r: string)
    requires HasNonSpace(name)
    ensures r != []
    ensures forall c :: c in r ==> !IsUpper(c)
  {
    var t := Lower(name);
    var k := FirstSsaDelimFrom(t, 0);
    LowerHasNoUpper(name);
    LowerKeepsWords(name);
    StripKeepsChars(t[..k]);
    FirstWordKeepsChars(t);
    SsaHeadOrWord(t, k)
  }

  /** With `k` the earliest delimiter of the lower-cased name: a non-empty
      stripped head is the result and holds no delimiter; an empty one
      gives way to the first word. With no delimiter at all the result is
      the whole stripped lower-cased name. */
  lemma CleanSsaDrugNameIsHeadOrFirstWord(name: string, k: nat)
    requires HasNonSpace(name)
    requires IsFirstSsaDelim(Lower(name), k)
    ensures var head := Strip(Lower(name)[..k]);
      && (head != [] ==> CleanSsaDrugName(name) == head && NoSsaDelim(head))
      && (head == [] ==> HasNonSpace(Lower(name)) && CleanSsaDrugName(name) == FirstWord(Lower(name)))
    ensures NoSsaDelim(Lower(name)) ==> CleanSsaDrugName(name) == Strip(Lower(name))
  {
    var t := Lower(name);
    LowerKeepsWords(name);
    FirstSsaDelimUnique(t, k, FirstSsaDelimFrom(t, 0));
    SsaHeadHasNoDelim(t, k);
    assert NoSsaDelim(t) ==> k == |t| && t[..k] == t;
  }

  /** The stripped text before position `k`, or the first word of `t`
      when that is empty. */
  function SsaHeadOrWord(t: string, k: nat): string
    requires k <= |t| && HasNonSpace(t)
  {
    var head := Strip(t[..k]);
    if head != [] then head else FirstWord(t)
  }

  lemma SsaHeadHasNoDelim(t: string, k: nat)
    requires IsFirstSsaDelim(t, k)
    ensures NoSsaDelim(Strip(t[..k]))
  {
    var head := Strip(t[..k]);
    var a := LeadingSpace(t[..k]);
    assert head == t[a..a + |head|];
    PrefixSliceHasNoSsaDelim(t, k, a, a + |head|);
  }

  lemma FirstWordKeepsChars(s: string)
    requires HasNonSpace(s)
    ensures forall c :: c in FirstWord(s) ==> c in s
  {
    var a := LeadingSpace(s);
    assert FirstWord(s) == s[a..a + |FirstWord(s)|];
  }

  lemma StripKeepsChars(s: string)
    ensures forall c :: c in Strip(s) ==> c in s
  {
    var r := Strip(s);
    var a := LeadingSpace(s);
    assert r == s[a..a + |r|];
  }

  lemma LowerHasNoUpper(s: string)
    ensures forall c :: c in Lower(s) ==> !IsUpper(c)
  {
  }

  lemma LowerKeepsWords(s: string)
    ensures HasNonSpace(s) ==> HasNonSpace(Lower(s))
  {
    if HasNonSpace(s) {
      var k :| 0 <= k < |s| && !IsSpace(s[k]);
      assert !IsSpace(Lower(s)[k]);
    }
  }
}
