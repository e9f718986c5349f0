/**
 * The fuzzywuzzy calls match_meds.py makes, over an abstract scorer.
 * A reference mapping is a Python dict from concept code to clean name;
 * it is modelled as the sequence of its entries in dict order, with no
 * code twice.
 */
module Fuzzy {

  /** A similarity score. */
  type Percent = x: int | 0 <= x <= 100

  /** A fuzzy scorer (`fuzz.WRatio`, `fuzz.token_sort_ratio`, including the
      default processor): query and candidate to a score. */
  type Scorer = (string, string) -> Percent

  datatype Entry = Entry(code: string, name: string)

  /** fuzzywuzzy's result triple `(choice, score, key)`. */
  datatype Candidate = Candidate(name: string, score: Percent, code: string)

  type Mapping = seq<Entry>

  predicate UniqueCodes(m: Mapping) {
    forall i, j :: 0 <= i < j < |m| ==> m[i].code != m[j].code
  }

  /** A Python dict: no code twice. */
  type Dict = m: Mapping | UniqueCodes(m) witness []

  function Codes(m: Mapping): set<string> {
    set e | e in m :: e.code
  }

  // ------------------------------------------------ building the mapping

  function IndexOfCode(m: Mapping, code: string): (i: nat)
    ensures i <= |m|
    ensures i < |m| ==> m[i].code == code
    ensures forall j :: 0 <= j < i ==> m[j].code != code
  {
    if m == [] then 0
    else if m[0].code == code then 0
    else 1 + IndexOfCode(m[1..], code)
  }

  /** `d[e.code] = e.name`: a known code keeps its place and takes the new
      name; a new code goes at the end. */
  function Insert(m: Mapping, e: Entry): (r: Mapping)
    ensures e in r
    ensures |r| == |m| || (|r| == |m| + 1 && r[|m|] == e && e.code !in Codes(m))
    ensures forall j :: 0 <= j < |m| && m[j].code != e.code ==> r[j] == m[j]
  {
    var i := IndexOfCode(m, e.code);
    if i < |m| then
      assert m[i := e][i] == e;
      m[i := e]
    else
      assert (m + [e])[|m|] == e;
      m + [e]
  }

  /** A dict comprehension `{code: name for ...}` over `pairs`. */
  function BuildMapping(pairs: seq<Entry>): (m: Mapping)
    ensures UniqueCodes(m)
    ensures Codes(m) == Codes(pairs)
  {
    if pairs == [] then []
    else
      var prev := BuildMapping(pairs[..|pairs| - 1]);
      var e := pairs[|pairs| - 1];
      assert pairs == pairs[..|pairs| - 1] + [e];
      assert Codes(pairs) == Codes(pairs[..|pairs| - 1]) + {e.code};
      InsertFacts(prev, e);
      Insert(prev, e)
  }

  lemma InsertFacts(m: Mapping, e: Entry)
    requires UniqueCodes(m)
    ensures UniqueCodes(Insert(m, e))
    ensures Codes(Insert(m, e)) == Codes(m) + {e.code}
    ensures e in Insert(m, e)
    ensures forall x :: x in m && x.code != e.code ==> x in Insert(m, e)
    ensures forall x :: x in Insert(m, e) ==> x == e || (x in m && x.code != e.code)
  {
    var i := IndexOfCode(m, e.code);
    var r := Insert(m, e);
    if i < |m| {
      forall x | x in m && x.code != e.code ensures x in r {
        var j :| 0 <= j < |m| && m[j] == x;
        assert r[j] == x;
      }
      forall x | x in r ensures x == e || (x in m && x.code != e.code) {
        var j :| 0 <= j < |r| && r[j] == x;
        if j != i { assert x == m[j]; }
      }
      assert Codes(r) == Codes(m) + {e.code} by {
        forall c | c in Codes(m) ensures c in Codes(r) {
          var x :| x in m && x.code == c;
          if c != e.code { assert x in r; } else { assert r[i] == e; }
        }
      }
    } else {
      assert Codes(r) == Codes(m) + {e.code} by {
        assert forall x :: x in r <==> x in m || x == e;
      }
    }
  }

  /** `e` is the last pair in `pairs` with its code. */
  ghost predicate IsLastFor(pairs: seq<Entry>, e: Entry) {
    exists j :: 0 <= j < |pairs| && pairs[j] == e &&
      forall j' :: j < j' < |pairs| ==> pairs[j'].code != e.code
  }

  /** Duplicate codes: the last pair with a code decides its name. */
  lemma {:induction false} BuildMappingLastWins(pairs: seq<Entry>)
    ensures forall e :: e in BuildMapping(pairs) ==> IsLastFor(pairs, e)
  {
    if pairs != [] {
      var n := |pairs| - 1;
      var front := pairs[..n];
      var prev := BuildMapping(front);
      var last := pairs[n];
      BuildMappingLastWins(front);
      InsertFacts(prev, last);
      forall e | e in BuildMapping(pairs) ensures IsLastFor(pairs, e) {
        if e == last {
          assert pairs[n] == e;
        } else {
          assert e in prev && e.code != last.code;
          assert IsLastFor(front, e);
          var j :| 0 <= j < |front| && front[j] == e &&
            forall j' :: j < j' < |front| ==> front[j'].code != e.code;
          assert pairs[j] == e;
          assert forall j' :: j < j' < |pairs| ==> pairs[j'].code != e.code by {
            forall j' | j < j' < |pairs| ensures pairs[j'].code != e.code {
              if j' < n { assert pairs[j'] == front[j']; }
            }
          }
        }
      }
    }
  }

  // ------------------------------------------------------ the extractors

  function CandidateOf(query: string, e: Entry, scorer: Scorer): Candidate {
    Candidate(e.name, scorer(query, e.name), e.code)
  }

  /** Python's `max` over the scored entries: the first one whose score no
      other entry beats. */
  function ArgMax(query: string, m: Mapping, scorer: Scorer): (i: nat)
    requires m != []
    ensures i < |m|
    ensures forall j :: 0 <= j < |m| ==> scorer(query, m[j].name) <= scorer(query, m[i].name)
    ensures forall j :: 0 <= j < i ==> scorer(query, m[j].name) < scorer(query, m[i].name)
  {
    if |m| == 1 then 0
    else
      var k := 1 + ArgMax(query, m[1..], scorer);
      assert forall j :: 1 <= j < |m| ==> m[j] == m[1..][j - 1];
      if scorer(query, m[0].name) >= scorer(query, m[k].name) then 0 else k
  }

  /** `process.extractOne(query, mapping, scorer=...)` on a non-empty
      mapping (Python gives `None` on an empty one). */
  function ExtractOne(query: string, m: Mapping, scorer: Scorer): (c: Candidate)
    requires m != []
    ensures Entry(c.code, c.name) in m
    ensures c.score == scorer(query, c.name)
    ensures forall e :: e in m ==> scorer(query, e.name) <= c.score
  {
    CandidateOf(query, m[ArgMax(query, m, scorer)], scorer)
  }

  function RemoveAt(m: Mapping, i: nat): (r: Mapping)
    requires i < |m|
    ensures |r| == |m| - 1
    ensures forall j :: 0 <= j < |r| ==> r[j] == if j < i then m[j] else m[j + 1]
  {
    m[..i] + m[i + 1..]
  }

  /** `m[i]` scores at least as well as every entry of `m`. */
  predicate IsBest(query: string, m: Mapping, scorer: Scorer, i: nat)
    requires i < |m|
  {
    forall j :: 0 <= j < |m| ==> scorer(query, m[j].name) <= scorer(query, m[i].name)
  }

  /** Every candidate in `cs` is an entry of `m` with its score. */
  predicate ScoredFrom(query: string, m: Mapping, scorer: Scorer, cs: seq<Candidate>) {
    forall j :: 0 <= j < |cs| ==> Entry(cs[j].code, cs[j].name) in m && cs[j].score == scorer(query, cs[j].name)
  }

  predicate NonIncreasing(cs: seq<Candidate>) {
    forall i, j :: 0 <= i < j < |cs| ==> cs[j].score <= cs[i].score
  }

  /** No entry outside `cs` scores above any candidate in `cs`. */
  predicate KeepsTheBest(query: string, m: Mapping, scorer: Scorer, cs: seq<Candidate>) {
    forall e, j :: e in m && CandidateOf(query, e, scorer) !in cs && 0 <= j < |cs| ==>
      scorer(query, e.name) <= cs[j].score
  }

  function CandidateCodes(cs: seq<Candidate>): set<string> {
    set c | c in cs :: c.code
  }

  predicate DistinctCodes(cs: seq<Candidate>) {
    forall a, b :: 0 <= a < b < |cs| ==> cs[a].code != cs[b].code
  }

  /** `cs` lists higher scores first, and equal scores in dict order. */
  predicate InRankOrder(m: Mapping, cs: seq<Candidate>) {
    forall a, b :: 0 <= a < b < |cs| ==>
      cs[b].score < cs[a].score ||
      (cs[b].score == cs[a].score && IndexOfCode(m, cs[a].code) < IndexOfCode(m, cs[b].code))
  }

  /** Every entry left out of `cs` ranks after every candidate in it: it
      scores lower, or the same and comes later in the dict. */
  predicate LeftOutRankAfter(query: string, m: Mapping, scorer: Scorer, cs: seq<Candidate>) {
    forall x, j :: 0 <= x < |m| && m[x].code !in CandidateCodes(cs) && 0 <= j < |cs| ==>
      scorer(query, m[x].name) < cs[j].score ||
      (scorer(query, m[x].name) == cs[j].score && IndexOfCode(m, cs[j].code) < x)
  }

  /** `process.extract(query, mapping, limit=k)`: the `k` best entries in
      descending score, ties in dict order (`heapq.nlargest` is stable). */
  function TopK(query: string, m: Mapping, scorer: Scorer, k: nat): (cs: seq<Candidate>)
    requires UniqueCodes(m)
    ensures |cs| == if k < |m| then k else |m|
    ensures ScoredFrom(query, m, scorer, cs)
    ensures DistinctCodes(cs)
    ensures NonIncreasing(cs)
    ensures KeepsTheBest(query, m, scorer, cs)
    ensures InRankOrder(m, cs)
    ensures LeftOutRankAfter(query, m, scorer, cs)
    decreases k
  {
    if k == 0 || m == [] then []
    else
      var i := ArgMax(query, m, scorer);
      RemoveAtUnique(m, i);
      var rest := TopK(query, RemoveAt(m, i), scorer, k - 1);
      TopKCons(query, m, scorer, i, rest);
      TopKConsRank(query, m, scorer, i, rest);
      TopKConsLeftOut(query, m, scorer, i, rest);
      RankedCodesDistinct(query, m, scorer, [CandidateOf(query, m[i], scorer)] + rest);
      [CandidateOf(query, m[i], scorer)] + rest
  }

  lemma RemoveAtUnique(m: Mapping, i: nat)
    requires i < |m| && UniqueCodes(m)
    ensures UniqueCodes(RemoveAt(m, i))
    ensures forall e :: e in RemoveAt(m, i) ==> e.code != m[i].code
  {
    var m' := RemoveAt(m, i);
    forall a, b | 0 <= a < b < |m'| ensures m'[a].code != m'[b].code {
      assert m'[a] == m[if a < i then a else a + 1];
      assert m'[b] == m[if b < i then b else b + 1];
    }
    forall e | e in m' ensures e.code != m[i].code {
      var x :| 0 <= x < |m'| && m'[x] == e;
      assert m'[x] == m[if x < i then x else x + 1];
    }
  }

  /** In a dict, the position of an entry's code is the entry's own. */
  lemma IndexOfCodeAt(m: Mapping, x: nat)
    requires x < |m| && UniqueCodes(m)
    ensures IndexOfCode(m, m[x].code) == x
  {
  }

  /** A candidate drawn from `m` without its `i`-th entry sits in `m` one
      place further on when it came at or after `i`. */
  lemma PositionAfterRemove(m: Mapping, i: nat, x': nat)
    requires i < |m| && UniqueCodes(m) && x' < |m| - 1
    ensures var x := if x' < i then x' else x' + 1;
      && RemoveAt(m, i)[x'] == m[x] && x != i
      && IndexOfCode(m, m[x].code) == x
      && IndexOfCode(RemoveAt(m, i), m[x].code) == x'
  {
    RemoveAtUnique(m, i);
    IndexOfCodeAt(m, if x' < i then x' else x' + 1);
    IndexOfCodeAt(RemoveAt(m, i), x');
  }

  /** The entry of a candidate drawn from a dict. */
  lemma EntryPosition(query: string, m: Mapping, scorer: Scorer, cs: seq<Candidate>, b: nat)
    returns (y: nat)
    requires UniqueCodes(m) && ScoredFrom(query, m, scorer, cs) && b < |cs|
    ensures y < |m| && m[y] == Entry(cs[b].code, cs[b].name) && IndexOfCode(m, cs[b].code) == y
    ensures cs[b].score == scorer(query, m[y].name)
  {
    assert Entry(cs[b].code, cs[b].name) in m;
    y :| 0 <= y < |m| && m[y] == Entry(cs[b].code, cs[b].name);
    IndexOfCodeAt(m, y);
  }

  /** Ranked candidates from a dict have distinct codes: two with one code
      would be one entry, with one score and one position. */
  lemma RankedCodesDistinct(query: string, m: Mapping, scorer: Scorer, cs: seq<Candidate>)
    requires UniqueCodes(m) && ScoredFrom(query, m, scorer, cs) && InRankOrder(m, cs)
    ensures DistinctCodes(cs)
  {
    forall a, b | 0 <= a < b < |cs| ensures cs[a].code != cs[b].code {
      var x := EntryPosition(query, m, scorer, cs, a);
      var y := EntryPosition(query, m, scorer, cs, b);
    }
  }

  /** The first best entry in front of the ranked others is ranked. */
  lemma TopKConsRank(query: string, m: Mapping, scorer: Scorer, i: nat, rest: seq<Candidate>)
    requires UniqueCodes(m) && m != [] && i == ArgMax(query, m, scorer)
    requires ScoredFrom(query, RemoveAt(m, i), scorer, rest)
    requires InRankOrder(RemoveAt(m, i), rest)
    ensures InRankOrder(m, [CandidateOf(query, m[i], scorer)] + rest)
  {
    var c0 := CandidateOf(query, m[i], scorer);
    IndexOfCodeAt(m, i);
    forall b | 0 <= b < |rest|
      ensures rest[b].score < c0.score || (rest[b].score == c0.score && i < IndexOfCode(m, rest[b].code))
    {
      RankHead(query, m, scorer, i, rest, b);
    }
    forall a, b | 0 <= a < b < |rest|
      ensures rest[b].score < rest[a].score ||
              (rest[b].score == rest[a].score && IndexOfCode(m, rest[a].code) < IndexOfCode(m, rest[b].code))
    {
      RankTail(query, m, scorer, i, rest, a, b);
    }
    ConsRanked(m, c0, rest, i);
  }

  lemma ConsRanked(m: Mapping, c0: Candidate, rest: seq<Candidate>, i: nat)
    requires IndexOfCode(m, c0.code) == i
    requires forall b :: 0 <= b < |rest| ==>
      rest[b].score < c0.score || (rest[b].score == c0.score && i < IndexOfCode(m, rest[b].code))
    requires InRankOrder(m, rest)
    ensures InRankOrder(m, [c0] + rest)
  {
    var cs := [c0] + rest;
    forall a, b | 0 <= a < b < |cs|
      ensures cs[b].score < cs[a].score ||
              (cs[b].score == cs[a].score && IndexOfCode(m, cs[a].code) < IndexOfCode(m, cs[b].code))
    {
      assert cs[b] == rest[b - 1];
      if a > 0 {
        assert cs[a] == rest[a - 1];
      }
    }
  }

  lemma RankHead(query: string, m: Mapping, scorer: Scorer, i: nat, rest: seq<Candidate>, b: nat)
    requires UniqueCodes(m) && m != [] && i == ArgMax(query, m, scorer) && b < |rest|
    requires ScoredFrom(query, RemoveAt(m, i), scorer, rest)
    ensures rest[b].score < scorer(query, m[i].name) ||
            (rest[b].score == scorer(query, m[i].name) && i < IndexOfCode(m, rest[b].code))
  {
    var y' := EntryPosition(query, RemoveAt(m, i), scorer, rest, b);
    PositionAfterRemove(m, i, y');
    BestComesFirst(query, m, scorer, i, if y' < i then y' else y' + 1);
  }

  lemma RankTail(query: string, m: Mapping, scorer: Scorer, i: nat, rest: seq<Candidate>, a: nat, b: nat)
    requires UniqueCodes(m) && i < |m| && a < b < |rest|
    requires ScoredFrom(query, RemoveAt(m, i), scorer, rest)
    requires InRankOrder(RemoveAt(m, i), rest)
    ensures rest[b].score < rest[a].score ||
            (rest[b].score == rest[a].score && IndexOfCode(m, rest[a].code) < IndexOfCode(m, rest[b].code))
  {
    var m' := RemoveAt(m, i);
    var x' := EntryPosition(query, m', scorer, rest, a);
    var y' := EntryPosition(query, m', scorer, rest, b);
    PositionAfterRemove(m, i, x');
    PositionAfterRemove(m, i, y');
  }

  /** No entry outscores the first best one, and one that scores the same
      comes after it. */
  lemma BestComesFirst(query: string, m: Mapping, scorer: Scorer, i: nat, y: nat)
    requires m != [] && i == ArgMax(query, m, scorer) && y < |m| && y != i
    ensures scorer(query, m[y].name) < scorer(query, m[i].name) ||
            (scorer(query, m[y].name) == scorer(query, m[i].name) && i < y)
  {
  }

  /** Putting the first best entry in front keeps every entry left out
      ranked after the candidates. */
  lemma TopKConsLeftOut(query: string, m: Mapping, scorer: Scorer, i: nat, rest: seq<Candidate>)
    requires UniqueCodes(m) && m != [] && i == ArgMax(query, m, scorer)
    requires ScoredFrom(query, RemoveAt(m, i), scorer, rest)
    requires LeftOutRankAfter(query, RemoveAt(m, i), scorer, rest)
    ensures LeftOutRankAfter(query, m, scorer, [CandidateOf(query, m[i], scorer)] + rest)
  {
    var c0 := CandidateOf(query, m[i], scorer);
    IndexOfCodeAt(m, i);
    forall x | 0 <= x < |m| && x != i
      ensures scorer(query, m[x].name) < c0.score || (scorer(query, m[x].name) == c0.score && i < x)
    {
      BestComesFirst(query, m, scorer, i, x);
    }
    forall x, j | 0 <= x < |m| && x != i && m[x].code !in CandidateCodes(rest) && 0 <= j < |rest|
      ensures scorer(query, m[x].name) < rest[j].score ||
              (scorer(query, m[x].name) == rest[j].score && IndexOfCode(m, rest[j].code) < x)
    {
      LeftOutStep(query, m, scorer, i, rest, x, j);
    }
    ConsLeftOut(query, m, scorer, c0, rest, i);
  }

  lemma ConsLeftOut(query: string, m: Mapping, scorer: Scorer, c0: Candidate, rest: seq<Candidate>, i: nat)
    requires i < |m| && m[i].code == c0.code && IndexOfCode(m, c0.code) == i
    requires forall x :: 0 <= x < |m| && x != i ==>
      scorer(query, m[x].name) < c0.score || (scorer(query, m[x].name) == c0.score && i < x)
    requires forall x, j :: 0 <= x < |m| && x != i && m[x].code !in CandidateCodes(rest) && 0 <= j < |rest| ==>
      scorer(query, m[x].name) < rest[j].score ||
      (scorer(query, m[x].name) == rest[j].score && IndexOfCode(m, rest[j].code) < x)
    ensures LeftOutRankAfter(query, m, scorer, [c0] + rest)
  {
    var cs := [c0] + rest;
    forall x, j | 0 <= x < |m| && m[x].code !in CandidateCodes(cs) && 0 <= j < |cs|
      ensures scorer(query, m[x].name) < cs[j].score ||
              (scorer(query, m[x].name) == cs[j].score && IndexOfCode(m, cs[j].code) < x)
    {
      assert c0 in cs;
      assert x != i;
      if j > 0 {
        assert cs[j] == rest[j - 1];
        assert m[x].code !in CandidateCodes(rest) by {
          forall c | c in rest ensures c.code != m[x].code {
            assert c in cs;
          }
        }
      }
    }
  }

  lemma LeftOutStep(query: string, m: Mapping, scorer: Scorer, i: nat, rest: seq<Candidate>, x: nat, j: nat)
    requires UniqueCodes(m) && i < |m| && x < |m| && x != i && j < |rest|
    requires ScoredFrom(query, RemoveAt(m, i), scorer, rest)
    requires LeftOutRankAfter(query, RemoveAt(m, i), scorer, rest)
    requires m[x].code !in CandidateCodes(rest)
    ensures scorer(query, m[x].name) < rest[j].score ||
            (scorer(query, m[x].name) == rest[j].score && IndexOfCode(m, rest[j].code) < x)
  {
    var m' := RemoveAt(m, i);
    var x' := if x < i then x else x - 1;
    PositionAfterRemove(m, i, x');
    var y' := EntryPosition(query, m', scorer, rest, j);
    PositionAfterRemove(m, i, y');
  }

  /** Putting the best entry in front of the best of the others. */
  lemma TopKCons(query: string, m: Mapping, scorer: Scorer, i: nat, rest: seq<Candidate>)
    requires i < |m| && IsBest(query, m, scorer, i)
    requires ScoredFrom(query, RemoveAt(m, i), scorer, rest)
    requires NonIncreasing(rest)
    requires KeepsTheBest(query, RemoveAt(m, i), scorer, rest)
    ensures var cs := [CandidateOf(query, m[i], scorer)] + rest;
      && ScoredFrom(query, m, scorer, cs)
      && NonIncreasing(cs)
      && KeepsTheBest(query, m, scorer, cs)
  {
    RemoveAtSubset(m, i);
    ConsScoredFrom(query, m, scorer, i, rest);
    RestBelowBest(query, m, scorer, i, rest);
    ConsNonIncreasing(query, m, scorer, i, rest);
    ConsKeepsTheBest(query, m, scorer, i, rest);
  }

  lemma RemoveAtSubset(m: Mapping, i: nat)
    requires i < |m|
    ensures forall e :: e in RemoveAt(m, i) ==> e in m
  {
    var m' := RemoveAt(m, i);
    forall e | e in m' ensures e in m {
      var x :| 0 <= x < |m'| && m'[x] == e;
      assert m[if x < i then x else x + 1] == e;
    }
  }

  lemma ConsScoredFrom(query: string, m: Mapping, scorer: Scorer, i: nat, rest: seq<Candidate>)
    requires i < |m|
    requires forall e :: e in RemoveAt(m, i) ==> e in m
    requires ScoredFrom(query, RemoveAt(m, i), scorer, rest)
    ensures ScoredFrom(query, m, scorer, [CandidateOf(query, m[i], scorer)] + rest)
  {
    var cs := [CandidateOf(query, m[i], scorer)] + rest;
    forall j | 0 <= j < |cs|
      ensures Entry(cs[j].code, cs[j].name) in m && cs[j].score == scorer(query, cs[j].name)
    {
      if j > 0 {
        assert cs[j] == rest[j - 1];
      }
    }
  }

  /** No candidate drawn from the other entries beats the best entry. */
  lemma RestBelowBest(query: string, m: Mapping, scorer: Scorer, i: nat, rest: seq<Candidate>)
    requires i < |m| && IsBest(query, m, scorer, i)
    requires forall e :: e in RemoveAt(m, i) ==> e in m
    requires ScoredFrom(query, RemoveAt(m, i), scorer, rest)
    ensures forall b :: 0 <= b < |rest| ==> rest[b].score <= scorer(query, m[i].name)
  {
    forall b | 0 <= b < |rest| ensures rest[b].score <= scorer(query, m[i].name) {
      var e := Entry(rest[b].code, rest[b].name);
      assert e in m;
      var x :| 0 <= x < |m| && m[x] == e;
    }
  }

  lemma ConsNonIncreasing(query: string, m: Mapping, scorer: Scorer, i: nat, rest: seq<Candidate>)
    requires i < |m|
    requires forall b :: 0 <= b < |rest| ==> rest[b].score <= scorer(query, m[i].name)
    requires NonIncreasing(rest)
    ensures NonIncreasing([CandidateOf(query, m[i], scorer)] + rest)
  {
    var cs := [CandidateOf(query, m[i], scorer)] + rest;
    forall a, b | 0 <= a < b < |cs| ensures cs[b].score <= cs[a].score {
      assert cs[b] == rest[b - 1];
      if a > 0 {
        assert cs[a] == rest[a - 1];
      }
    }
  }

  lemma ConsKeepsTheBest(query: string, m: Mapping, scorer: Scorer, i: nat, rest: seq<Candidate>)
    requires i < |m| && IsBest(query, m, scorer, i)
    requires KeepsTheBest(query, RemoveAt(m, i), scorer, rest)
    ensures KeepsTheBest(query, m, scorer, [CandidateOf(query, m[i], scorer)] + rest)
  {
    var cs := [CandidateOf(query, m[i], scorer)] + rest;
    var m' := RemoveAt(m, i);
    forall e, j | e in m && CandidateOf(query, e, scorer) !in cs && 0 <= j < |cs|
      ensures scorer(query, e.name) <= cs[j].score
    {
      var x :| 0 <= x < |m| && m[x] == e;
      if j > 0 {
        assert cs[j] == rest[j - 1];
        assert x != i;
        assert m'[if x < i then x else x - 1] == e;
        assert CandidateOf(query, e, scorer) !in rest;
      }
    }
  }

  /** The best of `extract` is `extractOne` with the same scorer. */
  lemma TopKStartsWithExtractOne(query: string, m: Mapping, scorer: Scorer, k: nat)
    requires m != [] && k > 0 && UniqueCodes(m)
    ensures TopK(query, m, scorer, k)[0] == ExtractOne(query, m, scorer)
  {
  }
}
