/**
 * The two automatic stages, `extract_good_matches_hum` and
 * `extract_good_matches_ciel`: every SSA line is scored against a
 * reference mapping, lines whose best score is strictly above a limit
 * become matches, and the remainder is the lines whose clean name no
 * good match has.
 */
module AutoMatch {
  import opened Fuzzy
  import opened Records
  import Names

  const HumMatchScoreLimit: int := 80
  const CielMatchScoreLimit: int := 70

  /** `process.extractOne(l[3], mapping, scorer=...)` */
  function Best(line: SsaLine, mapping: Mapping, scorer: Scorer): Candidate
    requires mapping != []
  {
    ExtractOne(line.cleanName, mapping, scorer)
  }

  /** `m[1][1] > limit` */
  predicate IsGood(line: SsaLine, mapping: Mapping, scorer: Scorer, limit: int)
    requires mapping != []
  {
    Best(line, mapping, scorer).score > limit
  }

  /** `[ssa_code, ssa_name, moa, concept_code, ref_name, score]` */
  function Formatted(line: SsaLine, c: Candidate): MatchRow {
    MatchRow(line.code, line.name, line.moa, c.code, c.name, Auto(c.score))
  }

  /** The lines of `good_matches`, in input order. */
  function GoodLines(lines: seq<SsaLine>, mapping: Mapping, scorer: Scorer, limit: int): (good: seq<SsaLine>)
    requires lines == [] || mapping != []
    ensures |good| <= |lines|
    ensures forall l :: l in good <==> l in lines && IsGood(l, mapping, scorer, limit)
  {
    if lines == [] then []
    else
      var rest := GoodLines(lines[1..], mapping, scorer, limit);
      assert forall l :: l in lines <==> l == lines[0] || l in lines[1..];
      if IsGood(lines[0], mapping, scorer, limit) then [lines[0]] + rest else rest
  }

  /** The lines whose best score does not pass the limit, in input order. */
  function NotGoodLines(lines: seq<SsaLine>, mapping: Mapping, scorer: Scorer, limit: int): (bad: seq<SsaLine>)
    requires lines == [] || mapping != []
    ensures |bad| <= |lines|
    ensures forall l :: l in bad <==> l in lines && !IsGood(l, mapping, scorer, limit)
  {
    if lines == [] then []
    else
      var rest := NotGoodLines(lines[1..], mapping, scorer, limit);
      assert forall l :: l in lines <==> l == lines[0] || l in lines[1..];
      if IsGood(lines[0], mapping, scorer, limit) then rest else [lines[0]] + rest
  }

  /** `[l[0][3] for l in good_matches]` */
  function CleanNames(lines: seq<SsaLine>): (names: seq<string>)
    ensures forall n :: n in names <==> exists l :: l in lines && l.cleanName == n
  {
    var names := seq(|lines|, k requires 0 <= k < |lines| => lines[k].cleanName);
    assert forall l :: l in lines ==> l.cleanName in names by {
      forall l | l in lines ensures l.cleanName in names {
        var k :| 0 <= k < |lines| && lines[k] == l;
        assert names[k] == l.cleanName;
      }
    }
    names
  }

  /** `[l for l in ssa_lines if l[3] not in names]` */
  function WithoutNames(lines: seq<SsaLine>, names: seq<string>): (r: seq<SsaLine>)
    ensures |r| <= |lines|
    ensures forall l :: l in r <==> l in lines && l.cleanName !in names
  {
    if lines == [] then []
    else
      var rest := WithoutNames(lines[1..], names);
      assert forall l :: l in lines <==> l == lines[0] || l in lines[1..];
      if lines[0].cleanName in names then rest else [lines[0]] + rest
  }

  function MatchRows(good: seq<SsaLine>, mapping: Mapping, scorer: Scorer): (rows: seq<MatchRow>)
    requires good == [] || mapping != []
    ensures |rows| == |good|
    ensures forall k :: 0 <= k < |good| ==> rows[k] == Formatted(good[k], Best(good[k], mapping, scorer))
  {
    seq(|good|, k requires 0 <= k < |good| => Formatted(good[k], Best(good[k], mapping, scorer)))
  }

  /** What one automatic stage returns. */
  datatype Split = Split(matches: seq<MatchRow>, remainder: seq<SsaLine>)

  /** `extract_good_matches_*` for a reference mapping, a scorer and a
      limit. `extractOne` on an empty mapping gives `None`, on which the
      source fails, so a non-empty input needs a non-empty mapping. */
  function ExtractGoodMatches(lines: seq<SsaLine>, mapping: Mapping, scorer: Scorer, limit: int): (s: Split)
    requires lines == [] || mapping != []
    ensures |s.matches| <= |lines|
    ensures forall r :: r in s.matches ==>
      r.score.Auto? && r.score.value > limit && Entry(r.refCode, r.refName) in mapping
  {
    var good := GoodLines(lines, mapping, scorer, limit);
    var matches := MatchRows(good, mapping, scorer);
    forall r | r in matches
      ensures r.score.Auto? && r.score.value > limit && Entry(r.refCode, r.refName) in mapping
    {
      var k :| 0 <= k < |matches| && matches[k] == r;
      assert good[k] in good;
    }
    Split(matches, WithoutNames(lines, CleanNames(good)))
  }

  /** A line has a match row, its own best candidate with its score,
      exactly when that score is strictly above the limit. */
  lemma GoodMatchIffAboveLimit(lines: seq<SsaLine>, mapping: Mapping, scorer: Scorer, limit: int, l: SsaLine)
    requires mapping != [] && l in lines
    ensures Formatted(l, Best(l, mapping, scorer)) in ExtractGoodMatches(lines, mapping, scorer, limit).matches
        <==> Best(l, mapping, scorer).score > limit
  {
    var good := GoodLines(lines, mapping, scorer, limit);
    var matches := MatchRows(good, mapping, scorer);
    if Best(l, mapping, scorer).score > limit {
      var k :| 0 <= k < |good| && good[k] == l;
      assert matches[k] == Formatted(l, Best(l, mapping, scorer));
    }
  }

  /** Every match row is the formatted best candidate of an input line. */
  lemma MatchRowsComeFromLines(lines: seq<SsaLine>, mapping: Mapping, scorer: Scorer, limit: int, r: MatchRow)
    requires lines == [] || mapping != []
    requires r in ExtractGoodMatches(lines, mapping, scorer, limit).matches
    ensures exists l :: l in lines && IsGood(l, mapping, scorer, limit) && r == Formatted(l, Best(l, mapping, scorer))
  {
    var good := GoodLines(lines, mapping, scorer, limit);
    var matches := MatchRows(good, mapping, scorer);
    var k :| 0 <= k < |matches| && matches[k] == r;
    assert good[k] in good;
  }

  /** The best candidate depends on a line only through its clean name. */
  lemma SameCleanNameSameBest(a: SsaLine, b: SsaLine, mapping: Mapping, scorer: Scorer)
    requires mapping != [] && a.cleanName == b.cleanName
    ensures Best(a, mapping, scorer) == Best(b, mapping, scorer)
  {
  }

  /** The remainder is exactly the lines that are not good matches, in
      input order. */
  lemma {:induction false} RemainderIsNotGood(lines: seq<SsaLine>, mapping: Mapping, scorer: Scorer, limit: int)
    requires lines == [] || mapping != []
    ensures ExtractGoodMatches(lines, mapping, scorer, limit).remainder == NotGoodLines(lines, mapping, scorer, limit)
  {
    var names := CleanNames(GoodLines(lines, mapping, scorer, limit));
    SuffixWithoutNames(lines, mapping, scorer, limit, names, 0);
  }

  lemma {:induction false} SuffixWithoutNames(lines: seq<SsaLine>, mapping: Mapping, scorer: Scorer, limit: int,
                                              names: seq<string>, i: nat)
    requires lines == [] || mapping != []
    requires names == CleanNames(GoodLines(lines, mapping, scorer, limit))
    requires i <= |lines|
    ensures WithoutNames(lines[i..], names) == NotGoodLines(lines[i..], mapping, scorer, limit)
    decreases |lines| - i
  {
    if i < |lines| {
      SuffixWithoutNames(lines, mapping, scorer, limit, names, i + 1);
      var l := lines[i];
      assert lines[i..][1..] == lines[i + 1..];
      assert l in lines;
      if l.cleanName in names {
        var g :| g in GoodLines(lines, mapping, scorer, limit) && g.cleanName == l.cleanName;
        SameCleanNameSameBest(g, l, mapping, scorer);
      }
    }
  }

  /** Good lines and the rest add up to the input. */
  lemma {:induction false} GoodAndNotGoodCount(lines: seq<SsaLine>, mapping: Mapping, scorer: Scorer, limit: int)
    requires lines == [] || mapping != []
    ensures |GoodLines(lines, mapping, scorer, limit)| + |NotGoodLines(lines, mapping, scorer, limit)| == |lines|
  {
    if lines != [] {
      GoodAndNotGoodCount(lines[1..], mapping, scorer, limit);
    }
  }

  /** Every input line is either matched or left over, never both. */
  lemma AutoStagePartition(lines: seq<SsaLine>, mapping: Mapping, scorer: Scorer, limit: int)
    requires lines == [] || mapping != []
    ensures var s := ExtractGoodMatches(lines, mapping, scorer, limit);
      && |s.matches| + |s.remainder| == |lines|
      && (forall l :: l in s.remainder <==> l in lines && !IsGood(l, mapping, scorer, limit))
  {
    RemainderIsNotGood(lines, mapping, scorer, limit);
    GoodAndNotGoodCount(lines, mapping, scorer, limit);
  }

  /** Running a stage again on its own remainder matches nothing more. */
  lemma AutoStageIdempotent(lines: seq<SsaLine>, mapping: Mapping, scorer: Scorer, limit: int)
    requires lines == [] || mapping != []
    ensures var s := ExtractGoodMatches(lines, mapping, scorer, limit);
      var again := ExtractGoodMatches(s.remainder, mapping, scorer, limit);
      again.matches == [] && again.remainder == s.remainder
  {
    var s := ExtractGoodMatches(lines, mapping, scorer, limit);
    AutoStagePartition(lines, mapping, scorer, limit);
    AutoStagePartition(s.remainder, mapping, scorer, limit);
    NotGoodFixed(s.remainder, mapping, scorer, limit);
    RemainderIsNotGood(s.remainder, mapping, scorer, limit);
  }

  lemma {:induction false} NotGoodFixed(lines: seq<SsaLine>, mapping: Mapping, scorer: Scorer, limit: int)
    requires lines == [] || mapping != []
    requires forall l :: l in lines ==> !IsGood(l, mapping, scorer, limit)
    ensures NotGoodLines(lines, mapping, scorer, limit) == lines
    ensures GoodLines(lines, mapping, scorer, limit) == []
  {
    if lines != [] {
      assert forall l :: l in lines[1..] ==> l in lines;
      NotGoodFixed(lines[1..], mapping, scorer, limit);
      assert lines[0] in lines;
    }
  }

  /** `extract_good_matches_hum`: the default scorer against the HUM
      mapping, above 80. */
  function ExtractGoodMatchesHum(lines: seq<SsaLine>, humRows: seq<seq<string>>, wratio: Scorer): (s: Split)
    requires HumRows(humRows) && (lines == [] || humRows != [])
    ensures forall r :: r in s.matches ==>
      r.score.Auto? && r.score.value > HumMatchScoreLimit &&
      exists k :: 0 <= k < |humRows| && humRows[k][3] == r.refCode
  {
    var mapping := HumMapping(humRows);
    var s := ExtractGoodMatches(lines, mapping, wratio, HumMatchScoreLimit);
    forall r | r in s.matches ensures exists k :: 0 <= k < |humRows| && humRows[k][3] == r.refCode {
      assert Entry(r.refCode, r.refName) in mapping;
      assert r.refCode in Codes(mapping);
    }
    s
  }

  /** `extract_good_matches_ciel`: token-sort ratio against the CIEL
      mapping, above 70. */
  function ExtractGoodMatchesCiel(lines: seq<SsaLine>, items: seq<CielItem>, tokenSort: Scorer): (s: Split)
    requires lines == [] || items != []
    ensures forall r :: r in s.matches ==>
      r.score.Auto? && r.score.value > CielMatchScoreLimit &&
      exists k :: 0 <= k < |items| && CielCode(items[k]) == r.refCode
  {
    var mapping := CielMapping(items);
    var s := ExtractGoodMatches(lines, mapping, tokenSort, CielMatchScoreLimit);
    forall r | r in s.matches ensures exists k :: 0 <= k < |items| && CielCode(items[k]) == r.refCode {
      assert Entry(r.refCode, r.refName) in mapping;
      assert r.refCode in Codes(mapping);
    }
    s
  }

  /** The two automatic stages in a row lose no line: HUM matches, CIEL
      matches and the CIEL remainder add up to the SSA lines. */
  lemma TwoStagesConserveLines(lines: seq<SsaLine>, humRows: seq<seq<string>>, items: seq<CielItem>,
                               wratio: Scorer, tokenSort: Scorer)
    requires HumRows(humRows) && (lines == [] || humRows != [])
    requires ExtractGoodMatchesHum(lines, humRows, wratio).remainder == [] || items != []
    ensures var hum := ExtractGoodMatchesHum(lines, humRows, wratio);
      var ciel := ExtractGoodMatchesCiel(hum.remainder, items, tokenSort);
      |hum.matches| + |ciel.matches| + |ciel.remainder| == |lines|
  {
    AutoStagePartition(lines, HumMapping(humRows), wratio, HumMatchScoreLimit);
    var hum := ExtractGoodMatchesHum(lines, humRows, wratio);
    AutoStagePartition(hum.remainder, CielMapping(items), tokenSort, CielMatchScoreLimit);
  }
}
