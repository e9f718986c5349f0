/**
 * The interactive stage, `extract_user_chosen_matches`: for every SSA
 * line left over, the operator is shown the two best HUM names, the best
 * CIEL name by token-sort ratio and the six best CIEL names, and types a
 * number. The operator's input is a sequence of lines; running out of
 * it is `input()` raising `EOFError`.
 */
module Choice {
  import opened Wrappers
  import opened Text
  import opened Fuzzy
  import opened Records
  import opened Files
  import AutoMatch

  const HumMatchLimit: nat := 2
  const CielMatchLimit: nat := 6

  /** The two reference mappings and the two scorers the stage uses. */
  datatype References = References(hum: Dict, ciel: Dict, wratio: Scorer, tokenSort: Scorer)

  /** What the operator is shown for one line. */
  datatype Options = Options(hum: seq<Candidate>, cielBest: Candidate, ciel: seq<Candidate>)

  /** `hum_matches`, `ciel_sorted_match` and `ciel_matches`. The CIEL
      `extractOne` result is printed, which fails on `None`, so the CIEL
      mapping must not be empty. */
  function OptionsFor(line: SsaLine, refs: References): (o: Options)
    requires refs.ciel != []
    ensures |o.hum| <= HumMatchLimit && |o.ciel| <= CielMatchLimit
    ensures |o.hum| == HumMatchLimit || |o.hum| == |refs.hum|
    ensures |o.ciel| == CielMatchLimit || |o.ciel| == |refs.ciel|
    ensures o.cielBest.score == refs.tokenSort(line.cleanName, o.cielBest.name)
    ensures forall e :: e in refs.ciel ==> refs.tokenSort(line.cleanName, e.name) <= o.cielBest.score
  {
    Options(TopK(line.cleanName, refs.hum, refs.wratio, HumMatchLimit),
            ExtractOne(line.cleanName, refs.ciel, refs.tokenSort),
            TopK(line.cleanName, refs.ciel, refs.wratio, CielMatchLimit))
  }

  /** The options shown for each line. */
  function Menus(lines: seq<SsaLine>, refs: References): (menus: seq<Options>)
    requires lines == [] || refs.ciel != []
    ensures |menus| == |lines|
    ensures forall k :: 0 <= k < |lines| ==> menus[k] == OptionsFor(lines[k], refs)
  {
    seq(|lines|, k requires 0 <= k < |lines| => OptionsFor(lines[k], refs))
  }

  lemma MenusSuffix(lines: seq<SsaLine>, refs: References, d: nat)
    requires lines == [] || refs.ciel != []
    requires d <= |lines|
    ensures Menus(lines[d..], refs) == Menus(lines, refs)[d..]
  {
  }

  /** What a typed integer selects: nothing, a candidate, or a slot past
      the end of its list (an `IndexError` in the source). */
  datatype Pick = NoChoice | Take(c: Candidate) | Missing

  /** The selection for the integer `n` the operator typed, with
      `choice_num = n - 1`. */
  function Choose(n: int, o: Options): (p: Pick)
    ensures 1 <= n <= 2 ==> p == if n - 1 < |o.hum| then Take(o.hum[n - 1]) else Missing
    ensures n == 3 ==> p == Take(o.cielBest)
    ensures 4 <= n <= 9 ==> p == if n - 4 < |o.ciel| then Take(o.ciel[n - 4]) else Missing
    ensures n < 1 || 9 < n ==> p == NoChoice
  {
    var choiceNum := n - 1;
    if 0 <= choiceNum < HumMatchLimit then
      if choiceNum < |o.hum| then Take(o.hum[choiceNum]) else Missing
    else if choiceNum == HumMatchLimit then
      Take(o.cielBest)
    else if HumMatchLimit + 1 <= choiceNum < HumMatchLimit + 1 + CielMatchLimit then
      var j := choiceNum - (HumMatchLimit + 1);
      if j < |o.ciel| then Take(o.ciel[j]) else Missing
    else
      NoChoice
  }

  /** The number printed in front of the `i`-th HUM candidate. */
  function HumLabel(i: nat): int { i + 1 }

  /** The number printed in front of the token-sort CIEL candidate. */
  function CielBestLabel(): int { HumMatchLimit + 1 }

  /** The number printed in front of the `i`-th CIEL candidate. */
  function CielLabel(i: nat): int { i + 1 + HumMatchLimit + 1 }

  /** Typing back a printed number selects the candidate printed with it,
      and typing `0` selects nothing. */
  lemma PrintedLabelsSelectTheirCandidates(o: Options)
    requires |o.hum| <= HumMatchLimit && |o.ciel| <= CielMatchLimit
    ensures forall i :: 0 <= i < |o.hum| ==>
      ParseInt(IntToDecimal(HumLabel(i))) == Some(HumLabel(i)) && Choose(HumLabel(i), o) == Take(o.hum[i])
    ensures ParseInt(IntToDecimal(CielBestLabel())) == Some(CielBestLabel())
    ensures Choose(CielBestLabel(), o) == Take(o.cielBest)
    ensures forall i :: 0 <= i < |o.ciel| ==>
      ParseInt(IntToDecimal(CielLabel(i))) == Some(CielLabel(i)) && Choose(CielLabel(i), o) == Take(o.ciel[i])
    ensures Choose(0, o) == NoChoice
  {
    forall i | 0 <= i < |o.hum|
      ensures ParseInt(IntToDecimal(HumLabel(i))) == Some(HumLabel(i))
    {
      ParsePrintedInt(HumLabel(i));
    }
    ParsePrintedInt(CielBestLabel());
    forall i | 0 <= i < |o.ciel|
      ensures ParseInt(IntToDecimal(CielLabel(i))) == Some(CielLabel(i))
    {
      ParsePrintedInt(CielLabel(i));
    }
  }

  /** The labels of the candidates are all different. */
  lemma LabelsAreDistinct(i: nat, j: nat)
    requires i < HumMatchLimit && j < CielMatchLimit
    ensures HumLabel(i) != CielBestLabel() && CielLabel(j) != CielBestLabel() && HumLabel(i) != CielLabel(j)
    ensures 1 <= HumLabel(i) && CielLabel(j) <= HumMatchLimit + 1 + CielMatchLimit
  {
  }

  // --------------------------------------------------- reading a number

  /** What `int()` makes of each line the operator types. */
  function Answers(inputs: seq<string>): (r: seq<Option<int>>)
    ensures |r| == |inputs|
  {
    if inputs == [] then [] else [ParseInt(inputs[0])] + Answers(inputs[1..])
  }

  lemma {:induction false} AnswerAt(inputs: seq<string>, k: nat)
    requires k < |inputs|
    ensures Answers(inputs)[k] == ParseInt(inputs[k])
  {
    if k > 0 {
      AnswerAt(inputs[1..], k - 1);
    }
  }

  lemma {:induction false} AnswersAppend(a: seq<string>, b: seq<string>)
    ensures Answers(a + b) == Answers(a) + Answers(b)
  {
    if a != [] {
      assert (a + b)[1..] == a[1..] + b;
      AnswersAppend(a[1..], b);
    } else {
      assert a + b == b;
    }
  }

  // ------------------------------------------------- deciding one line

  /** Why a session stopped before its last line. */
  datatype Stop = EndOfInput | MissingCandidate

  /** The outcome for one line: a row or none, and the answers left, or a
      halt. */
  datatype Step = Decided(row: Option<MatchRow>, rest: seq<Option<int>>) | Halted(stop: Stop)

  /** `[ssa_line[0], ssa_line[1], ssa_line[2], choice[2], choice[0], "-"]` */
  function ChosenRow(line: SsaLine, c: Candidate): MatchRow {
    MatchRow(line.code, line.name, line.moa, c.code, c.name, Chosen)
  }

  predicate RowFor(line: SsaLine, row: MatchRow) {
    row.ssaCode == line.code && row.ssaName == line.name && row.moa == line.moa && row.score == Chosen
  }

  /** The decision a pick that names a slot makes: the row built from the
      candidate, or no row. */
  function Picked(line: SsaLine, p: Pick): Option<MatchRow>
    requires !p.Missing?
  {
    if p.Take? then Some(ChosenRow(line, p.c)) else None
  }

  /** What the integer `n` does for `line`: `choice_matches.append(...)`
      for a candidate, nothing for no choice. */
  function Apply(line: SsaLine, o: Options, n: int, rest: seq<Option<int>>): (s: Step)
    ensures s.Decided? ==> s.rest == rest
    ensures s != Halted(EndOfInput)
  {
    var p := Choose(n, o);
    if p.Missing? then Halted(MissingCandidate) else Decided(Picked(line, p), rest)
  }

  /** One pass of the `for` body for `line`: answers `int()` refuses are
      prompted again, the first integer decides. */
  function Decide(line: SsaLine, o: Options, answers: seq<Option<int>>): (s: Step)
    ensures s.Decided? ==> |s.rest| < |answers|
    decreases |answers|
  {
    if answers == [] then Halted(EndOfInput)
    else if answers[0].None? then Decide(line, o, answers[1..])
    else Apply(line, o, answers[0].value, answers[1..])
  }

  /** A chosen row is a row for its line, and the session halts for want
      of input exactly when no answer is an integer. */
  lemma {:induction false} DecideFacts(line: SsaLine, o: Options, answers: seq<Option<int>>)
    ensures var s := Decide(line, o, answers);
      && (s.Decided? && s.row.Some? ==> RowFor(line, s.row.value))
      && (s == Halted(EndOfInput) <==> forall k :: 0 <= k < |answers| ==> answers[k].None?)
    decreases |answers|
  {
    if answers != [] && answers[0].None? {
      DecideFacts(line, o, answers[1..]);
      assert forall k :: 1 <= k < |answers| ==> answers[k] == answers[1..][k - 1];
    }
  }

  /** Refused answers are skipped. */
  lemma {:induction false} DecideSkips(line: SsaLine, o: Options, answers: seq<Option<int>>, k: nat)
    requires k <= |answers|
    requires forall j :: 0 <= j < k ==> answers[j].None?
    ensures Decide(line, o, answers) == Decide(line, o, answers[k..])
    decreases k
  {
    if k > 0 {
      assert answers[1..][k - 1..] == answers[k..];
      DecideSkips(line, o, answers[1..], k - 1);
    }
  }

  // ------------------------------------------------------- the session

  /** The decisions made, one per line from the first, why the session
      stopped early if it did, and the answers it left unread when it got
      to the end. */
  datatype Session = Session(decisions: seq<Option<MatchRow>>, halted: Option<Stop>, left: seq<Option<int>>)

  function Continue(decided: seq<Option<MatchRow>>, s: Session): Session {
    Session(decided + s.decisions, s.halted, s.left)
  }

  /** The whole `for` loop over `lines`, shown `menus`, with the
      operator's `answers`. */
  function ChoiceRun(lines: seq<SsaLine>, menus: seq<Options>, answers: seq<Option<int>>): (s: Session)
    requires |menus| == |lines|
    ensures |s.decisions| <= |lines|
    ensures s.halted.None? <==> |s.decisions| == |lines|
    decreases |lines|
  {
    if lines == [] then Session([], None, answers)
    else
      match Decide(lines[0], menus[0], answers)
      case Halted(stop) => Session([], Some(stop), [])
      case Decided(row, rest) => Continue([row], ChoiceRun(lines[1..], menus[1..], rest))
  }

  /** The `k`-th decision, when it chose something, is a row for the
      `k`-th line. */
  lemma {:induction false} DecisionsAreForTheirLines(lines: seq<SsaLine>, menus: seq<Options>, answers: seq<Option<int>>)
    requires |menus| == |lines|
    ensures var s := ChoiceRun(lines, menus, answers);
      forall k :: 0 <= k < |s.decisions| && s.decisions[k].Some? ==> RowFor(lines[k], s.decisions[k].value)
    decreases |lines|
  {
    if lines != [] {
      var step := Decide(lines[0], menus[0], answers);
      DecideFacts(lines[0], menus[0], answers);
      if step.Decided? {
        var whole := ChoiceRun(lines, menus, answers);
        var s := ChoiceRun(lines[1..], menus[1..], step.rest);
        DecisionsAreForTheirLines(lines[1..], menus[1..], step.rest);
        assert whole.decisions == [step.row] + s.decisions;
        forall k | 0 <= k < |whole.decisions| && whole.decisions[k].Some?
          ensures RowFor(lines[k], whole.decisions[k].value)
        {
          if k > 0 {
            assert whole.decisions[k] == s.decisions[k - 1];
            assert lines[k] == lines[1..][k - 1];
          }
        }
      }
    }
  }

  /** The session for the `inputs` the operator types. */
  function SessionFor(lines: seq<SsaLine>, refs: References, inputs: seq<string>): (s: Session)
    requires lines == [] || refs.ciel != []
    ensures |s.decisions| <= |lines|
    ensures s.halted.None? <==> |s.decisions| == |lines|
  {
    ChoiceRun(lines, Menus(lines, refs), Answers(inputs))
  }

  /** `choice_matches`: the rows chosen, in line order. */
  function ChosenRows(decisions: seq<Option<MatchRow>>): (rows: seq<MatchRow>)
    ensures |rows| <= |decisions|
  {
    if decisions == [] then []
    else if decisions[0].Some? then [decisions[0].value] + ChosenRows(decisions[1..])
    else ChosenRows(decisions[1..])
  }

  /** A row is in `choice_matches` exactly when some line's decision chose
      it. */
  lemma {:induction false} ChosenRowsAreTheChoices(decisions: seq<Option<MatchRow>>, r: MatchRow)
    ensures r in ChosenRows(decisions) <==> Some(r) in decisions
  {
    if decisions != [] {
      ChosenRowsAreTheChoices(decisions[1..], r);
      assert Some(r) in decisions <==> Some(r) == decisions[0] || Some(r) in decisions[1..];
    }
  }

  lemma ChosenRowsAppend(a: seq<Option<MatchRow>>, b: seq<Option<MatchRow>>)
    ensures ChosenRows(a + b) == ChosenRows(a) + ChosenRows(b)
  {
    if a != [] {
      assert (a + b)[0] == a[0];
      assert (a + b)[1..] == a[1..] + b;
      ChosenRowsAppend(a[1..], b);
    } else {
      assert a + b == b;
    }
  }

  /** The lines the operator chose a candidate for. */
  function ChosenLines(lines: seq<SsaLine>, decisions: seq<Option<MatchRow>>): (r: seq<SsaLine>)
    requires |decisions| == |lines|
    ensures forall l :: l in r <==> exists k :: 0 <= k < |lines| && lines[k] == l && decisions[k].Some?
  {
    if lines == [] then []
    else
      var rest := ChosenLines(lines[1..], decisions[1..]);
      assert forall k :: 1 <= k < |lines| ==> lines[k] == lines[1..][k - 1] && decisions[k] == decisions[1..][k - 1];
      if decisions[0].Some? then [lines[0]] + rest else rest
  }

  /** The lines the operator chose nothing for, in order. */
  function UnchosenLines(lines: seq<SsaLine>, decisions: seq<Option<MatchRow>>): (r: seq<SsaLine>)
    requires |decisions| == |lines|
    ensures forall l :: l in r <==> exists k :: 0 <= k < |lines| && lines[k] == l && decisions[k].None?
  {
    if lines == [] then []
    else
      var rest := UnchosenLines(lines[1..], decisions[1..]);
      assert forall k :: 1 <= k < |lines| ==> lines[k] == lines[1..][k - 1] && decisions[k] == decisions[1..][k - 1];
      if decisions[0].None? then [lines[0]] + rest else rest
  }

  lemma {:induction false} ChosenAndUnchosenCount(lines: seq<SsaLine>, decisions: seq<Option<MatchRow>>)
    requires |decisions| == |lines|
    ensures |ChosenLines(lines, decisions)| + |UnchosenLines(lines, decisions)| == |lines|
    ensures |ChosenRows(decisions)| == |ChosenLines(lines, decisions)|
  {
    if lines != [] {
      ChosenAndUnchosenCount(lines[1..], decisions[1..]);
    }
  }

  // ------------------------------------------------------ the remainder

  /** `[l[1] for l in choice_matches]`: the display names of the chosen
      rows. */
  function SsaNames(rows: seq<MatchRow>): (names: seq<string>)
    ensures |names| == |rows|
    ensures forall n :: n in names <==> exists r :: r in rows && r.ssaName == n
  {
    var names := seq(|rows|, k requires 0 <= k < |rows| => rows[k].ssaName);
    assert forall r :: r in rows ==> r.ssaName in names by {
      forall r | r in rows ensures r.ssaName in names {
        var k :| 0 <= k < |rows| && rows[k] == r;
        assert names[k] == r.ssaName;
      }
    }
    names
  }

  /** Lines 249-251 as written: the lines whose clean name (`l[3]`) is
      not among the display names (`l[1]`) of the chosen rows, in input
      order. */
  function AsWrittenRemainder(lines: seq<SsaLine>, chosen: seq<MatchRow>): (r: seq<SsaLine>)
    ensures |r| <= |lines|
    ensures forall l :: l in r <==> l in lines && forall row :: row in chosen ==> row.ssaName != l.cleanName
  {
    AutoMatch.WithoutNames(lines, SsaNames(chosen))
  }

  /** As written, when no line's clean name is the display name of a line
      (a display name with a capital, a dose or a comma never is), the
      remainder is the whole input: every line the operator matched is
      also written to the unmatched file, so chosen rows and remainder
      together outnumber the lines by the number of rows chosen. */
  lemma {:induction false} AsWrittenRemainderKeepsEveryLine(lines: seq<SsaLine>, menus: seq<Options>,
                                                             answers: seq<Option<int>>)
    requires |menus| == |lines|
    requires forall i, j :: 0 <= i < |lines| && 0 <= j < |lines| ==> lines[i].cleanName != lines[j].name
    ensures var s := ChoiceRun(lines, menus, answers);
      && AsWrittenRemainder(lines, ChosenRows(s.decisions)) == lines
      && |ChosenRows(s.decisions)| + |AsWrittenRemainder(lines, ChosenRows(s.decisions))| == |lines| + |ChosenRows(s.decisions)|
  {
    var s := ChoiceRun(lines, menus, answers);
    var chosen := ChosenRows(s.decisions);
    DecisionsAreForTheirLines(lines, menus, answers);
    forall row | row in chosen ensures exists j :: 0 <= j < |lines| && row.ssaName == lines[j].name {
      ChosenRowsAreTheChoices(s.decisions, row);
      var k :| 0 <= k < |s.decisions| && s.decisions[k] == Some(row);
      assert RowFor(lines[k], row);
    }
    WithoutAbsentNames(lines, SsaNames(chosen));
  }

  /** A filter by names none of the lines has keeps every line. */
  lemma {:induction false} WithoutAbsentNames(lines: seq<SsaLine>, names: seq<string>)
    requires forall l :: l in lines ==> l.cleanName !in names
    ensures AutoMatch.WithoutNames(lines, names) == lines
  {
    if lines != [] {
      assert lines[0] in lines;
      assert forall l :: l in lines[1..] ==> l in lines;
      WithoutAbsentNames(lines[1..], names);
    }
  }

  /** A line the operator matched stays in the remainder as written. */
  lemma AsWrittenRemainderKeepsChosenLine()
    ensures var line := SsaLine("S1", "Aspirin 100mg", "oral", "aspirin");
      var c := Candidate("aspirin", 90, "CIEL:1");
      var chosen := [ChosenRow(line, c)];
      AsWrittenRemainder([line], chosen) == [line] && chosen[0].ssaName != line.cleanName
  {
    var line := SsaLine("S1", "Aspirin 100mg", "oral", "aspirin");
    var chosen := [ChosenRow(line, Candidate("aspirin", 90, "CIEL:1"))];
    assert SsaNames(chosen) == ["Aspirin 100mg"];
    assert "aspirin" != "Aspirin 100mg" by { assert "aspirin"[0] != "Aspirin 100mg"[0]; }
  }

  /** The remainder as the comment at line 248 intends it: the lines
      whose clean name is not that of a chosen line. */
  function Remainder(lines: seq<SsaLine>, decisions: seq<Option<MatchRow>>): (r: seq<SsaLine>)
    requires |decisions| == |lines|
    ensures forall k :: 0 <= k < |lines| && decisions[k].Some? ==> lines[k] !in r
    ensures forall l :: l in r ==> l in UnchosenLines(lines, decisions)
  {
    var chosenLines := ChosenLines(lines, decisions);
    var r := AutoMatch.WithoutNames(lines, AutoMatch.CleanNames(chosenLines));
    forall k | 0 <= k < |lines| && decisions[k].Some? ensures lines[k] !in r {
      assert lines[k] in chosenLines;
    }
    forall l | l in r ensures l in UnchosenLines(lines, decisions) {
      var k :| 0 <= k < |lines| && lines[k] == l;
    }
    r
  }

  predicate DistinctCleanNames(lines: seq<SsaLine>) {
    forall i, j :: 0 <= i < j < |lines| ==> lines[i].cleanName != lines[j].cleanName
  }

  /** With distinct clean names, the remainder is exactly the lines left
      without a choice, in order, so chosen rows and remainder add up to
      the input. */
  lemma RemainderIsUnchosen(lines: seq<SsaLine>, decisions: seq<Option<MatchRow>>)
    requires |decisions| == |lines| && DistinctCleanNames(lines)
    ensures Remainder(lines, decisions) == UnchosenLines(lines, decisions)
    ensures |ChosenRows(decisions)| + |Remainder(lines, decisions)| == |lines|
  {
    var names := AutoMatch.CleanNames(ChosenLines(lines, decisions));
    SuffixWithoutChosen(lines, decisions, names, 0);
    ChosenAndUnchosenCount(lines, decisions);
  }

  lemma {:induction false} SuffixWithoutChosen(lines: seq<SsaLine>, decisions: seq<Option<MatchRow>>,
                                               names: seq<string>, i: nat)
    requires |decisions| == |lines| && DistinctCleanNames(lines)
    requires names == AutoMatch.CleanNames(ChosenLines(lines, decisions))
    requires i <= |lines|
    ensures AutoMatch.WithoutNames(lines[i..], names) == UnchosenLines(lines[i..], decisions[i..])
    decreases |lines| - i
  {
    if i < |lines| {
      SuffixWithoutChosen(lines, decisions, names, i + 1);
      assert lines[i..][1..] == lines[i + 1..];
      assert decisions[i..][1..] == decisions[i + 1..];
      if decisions[i].Some? {
        assert lines[i] in ChosenLines(lines, decisions);
      } else {
        forall l | l in ChosenLines(lines, decisions) ensures l.cleanName != lines[i].cleanName {
          var k :| 0 <= k < |lines| && lines[k] == l && decisions[k].Some?;
        }
      }
    }
  }

  // ----------------------------------------------------- the checkpoint

  /** The files after the records in `decisions` were decided: the chosen
      rows so far (only once one was chosen) and the lines after the last
      decided one. */
  function CheckpointFiles(files: FileMap, lines: seq<SsaLine>, decisions: seq<Option<MatchRow>>): (r: FileMap)
    requires |decisions| <= |lines|
    ensures files.Keys <= r.Keys <= files.Keys + {ChoiceMatchesIntermediate, UnmatchedChoiceIntermediate}
    ensures decisions != [] ==> UnmatchedChoiceIntermediate in r
    ensures ChoiceMatchesIntermediate in r && ChoiceMatchesIntermediate !in files ==> ChosenRows(decisions) != []
  {
    if decisions == [] then files
    else
      var f := if ChosenRows(decisions) == [] then files
               else files[ChoiceMatchesIntermediate := MatchesFile(ChosenRows(decisions))];
      f[UnmatchedChoiceIntermediate := LinesFile(lines[|decisions|..])]
  }

  /** Once a line is decided, the checkpoint holds the lines not yet
      decided, and the chosen rows file holds every row chosen so far. */
  lemma CheckpointHoldsUndecided(files: FileMap, lines: seq<SsaLine>, decisions: seq<Option<MatchRow>>)
    requires 0 < |decisions| <= |lines|
    ensures LinesIn(CheckpointFiles(files, lines, decisions), UnmatchedChoiceIntermediate) == Some(lines[|decisions|..])
    ensures ChosenRows(decisions) != [] ==>
      CheckpointFiles(files, lines, decisions)[ChoiceMatchesIntermediate] == MatchesFile(ChosenRows(decisions))
    ensures forall p :: p in files && p != UnmatchedChoiceIntermediate && p != ChoiceMatchesIntermediate ==>
      CheckpointFiles(files, lines, decisions)[p] == files[p]
  {
  }

  // ------------------------------------------------------- resumption

  /** After answers that are all refused, only the later ones count. */
  lemma {:induction false} DecideAfterSkipped(line: SsaLine, o: Options, a: seq<Option<int>>, b: seq<Option<int>>)
    requires Decide(line, o, a) == Halted(EndOfInput)
    ensures Decide(line, o, a + b) == Decide(line, o, b)
    decreases |a|
  {
    if a == [] {
      assert a + b == b;
    } else {
      assert (a + b)[0] == a[0] && (a + b)[1..] == a[1..] + b;
      DecideAfterSkipped(line, o, a[1..], b);
    }
  }

  /** Extra answers after a decided line are left for the next ones. */
  lemma {:induction false} DecideBeforeMore(line: SsaLine, o: Options, a: seq<Option<int>>, b: seq<Option<int>>)
    requires Decide(line, o, a).Decided?
    ensures Decide(line, o, a + b) == Decided(Decide(line, o, a).row, Decide(line, o, a).rest + b)
    decreases |a|
  {
    assert (a + b)[0] == a[0] && (a + b)[1..] == a[1..] + b;
    if a[0].None? {
      DecideBeforeMore(line, o, a[1..], b);
    }
  }

  lemma {:induction false} ChoiceRunAppend(lines: seq<SsaLine>, menus: seq<Options>,
                                           a: seq<Option<int>>, b: seq<Option<int>>)
    requires |menus| == |lines|
    requires ChoiceRun(lines, menus, a).halted == Some(EndOfInput)
    ensures var s1 := ChoiceRun(lines, menus, a);
      ChoiceRun(lines, menus, a + b) ==
        Continue(s1.decisions, ChoiceRun(lines[|s1.decisions|..], menus[|s1.decisions|..], b))
    decreases |lines|
  {
    var o := menus[0];
    var step := Decide(lines[0], o, a);
    if step.Halted? {
      HaltedAtFirstLine(lines, menus, a, b);
    } else {
      DecideBeforeMore(lines[0], o, a, b);
      ChoiceRunAppend(lines[1..], menus[1..], step.rest, b);
      var s := ChoiceRun(lines[1..], menus[1..], step.rest);
      var t := ChoiceRun(lines[1 + |s.decisions|..], menus[1 + |s.decisions|..], b);
      assert lines[1..][|s.decisions|..] == lines[1 + |s.decisions|..];
      assert menus[1..][|s.decisions|..] == menus[1 + |s.decisions|..];
      assert [step.row] + (s.decisions + t.decisions) == ([step.row] + s.decisions) + t.decisions;
    }
  }

  lemma HaltedAtFirstLine(lines: seq<SsaLine>, menus: seq<Options>, a: seq<Option<int>>, b: seq<Option<int>>)
    requires |menus| == |lines| && lines != []
    requires Decide(lines[0], menus[0], a) == Halted(EndOfInput)
    ensures ChoiceRun(lines, menus, a).decisions == []
    ensures ChoiceRun(lines, menus, a + b) == Continue([], ChoiceRun(lines, menus, b))
  {
    DecideAfterSkipped(lines[0], menus[0], a, b);
    var t := ChoiceRun(lines, menus, b);
    assert [] + t.decisions == t.decisions;
  }

  /** A session that ran out of input, resumed from its checkpoint with
      more input, decides the same as one session given all the input at
      once. */
  lemma ResumeAfterEndOfInput(lines: seq<SsaLine>, refs: References, inputs1: seq<string>, inputs2: seq<string>)
    requires lines == [] || refs.ciel != []
    requires SessionFor(lines, refs, inputs1).halted == Some(EndOfInput)
    ensures var s1 := SessionFor(lines, refs, inputs1);
      SessionFor(lines, refs, inputs1 + inputs2) == Continue(s1.decisions, SessionFor(lines[|s1.decisions|..], refs, inputs2))
  {
    AnswersAppend(inputs1, inputs2);
    ChoiceRunAppend(lines, Menus(lines, refs), Answers(inputs1), Answers(inputs2));
    MenusSuffix(lines, refs, |SessionFor(lines, refs, inputs1).decisions|);
  }

  // ------------------------------------------------------- the method

  /** One more line of the session. */
  lemma ChoiceRunStep(lines: seq<SsaLine>, menus: seq<Options>, i: nat, answers: seq<Option<int>>)
    requires i < |lines| && |menus| == |lines|
    ensures var step := Decide(lines[i], menus[i], answers);
      && (step.Halted? ==> ChoiceRun(lines[i..], menus[i..], answers) == Session([], Some(step.stop), []))
      && (step.Decided? ==>
            ChoiceRun(lines[i..], menus[i..], answers) ==
              Continue([step.row], ChoiceRun(lines[i + 1..], menus[i + 1..], step.rest)))
  {
    assert lines[i..][0] == lines[i] && lines[i..][1..] == lines[i + 1..];
    assert menus[i..][0] == menus[i] && menus[i..][1..] == menus[i + 1..];
  }

  lemma CheckpointStep(files: FileMap, lines: seq<SsaLine>, decisions: seq<Option<MatchRow>>, row: Option<MatchRow>)
    requires |decisions| < |lines|
    ensures var before := CheckpointFiles(files, lines, decisions);
      var f := if row.Some? then before[ChoiceMatchesIntermediate := MatchesFile(ChosenRows(decisions + [row]))] else before;
      CheckpointFiles(files, lines, decisions + [row]) == f[UnmatchedChoiceIntermediate := LinesFile(lines[|decisions| + 1..])]
  {
    var d' := decisions + [row];
    ChosenRowsAppend(decisions, [row]);
    assert ChosenRows([row]) == if row.Some? then [row.value] else [] by {
      assert [row][1..] == [];
    }
    if row.Some? {
      CheckpointStepChosen(files, lines, decisions, row);
    } else {
      CheckpointStepSkipped(files, lines, decisions, row);
    }
  }

  lemma CheckpointStepSkipped(files: FileMap, lines: seq<SsaLine>, decisions: seq<Option<MatchRow>>, row: Option<MatchRow>)
    requires |decisions| < |lines| && row.None?
    requires ChosenRows(decisions + [row]) == ChosenRows(decisions)
    ensures CheckpointFiles(files, lines, decisions + [row]) ==
      CheckpointFiles(files, lines, decisions)[UnmatchedChoiceIntermediate := LinesFile(lines[|decisions| + 1..])]
  {
  }

  lemma CheckpointStepChosen(files: FileMap, lines: seq<SsaLine>, decisions: seq<Option<MatchRow>>, row: Option<MatchRow>)
    requires |decisions| < |lines| && row.Some?
    requires ChosenRows(decisions + [row]) != []
    ensures CheckpointFiles(files, lines, decisions + [row]) ==
      CheckpointFiles(files, lines, decisions)[ChoiceMatchesIntermediate := MatchesFile(ChosenRows(decisions + [row]))]
                                              [UnmatchedChoiceIntermediate := LinesFile(lines[|decisions| + 1..])]
  {
    if decisions != [] {
      var g := if ChosenRows(decisions) == [] then files
               else files[ChoiceMatchesIntermediate := MatchesFile(ChosenRows(decisions))];
      UpdateBoth(files, g, ChoiceMatchesIntermediate, UnmatchedChoiceIntermediate, LinesFile(lines[|decisions|..]),
                 MatchesFile(ChosenRows(decisions + [row])), LinesFile(lines[|decisions| + 1..]));
    }
  }

  /** Writing `p` and then `q` again hides an earlier write of `q` and of `p`. */
  lemma UpdateBoth(files: FileMap, g: FileMap, p: Path, q: Path, y: Contents, z: Contents, w: Contents)
    requires p != q
    requires g == files || (p in g && g == files[p := g[p]])
    ensures g[q := y][p := z][q := w] == files[p := z][q := w]
  {
  }

  /** The `while choice_num is None` loop from input line `from`, over
      what `int()` made of each line: the position of the first number, or
      `|answers|` when the input runs out first. */
  method ReadChoice(answers: seq<Option<int>>, from: nat) returns (k: nat, n: int)
    requires from <= |answers|
    ensures from <= k <= |answers|
    ensures k < |answers| ==> answers[k] == Some(n)
    ensures forall j :: from <= j < k ==> answers[j].None?
  {
    k := from;
    n := 0;
    while k < |answers| && answers[k].None?
      invariant from <= k <= |answers|
      invariant forall j :: from <= j < k ==> answers[j].None?
    {
      k := k + 1;
    }
    if k < |answers| {
      n := answers[k].value;
    }
  }

  /** The session after line `i` is decided by the answer at `k`. */
  lemma OneLine(lines: seq<SsaLine>, menus: seq<Options>, i: nat, answers: seq<Option<int>>,
                pos: nat, k: nat, n: int, decisions: seq<Option<MatchRow>>)
    requires |menus| == |lines| && i < |lines|
    requires pos <= k <= |answers|
    requires forall j :: pos <= j < k ==> answers[j].None?
    requires k < |answers| ==> answers[k] == Some(n)
    ensures var now := Continue(decisions, ChoiceRun(lines[i..], menus[i..], answers[pos..]));
      var p := Choose(n, menus[i]);
      && (k == |answers| ==> now == Session(decisions, Some(EndOfInput), []))
      && (k < |answers| && p.Missing? ==> now == Session(decisions, Some(MissingCandidate), []))
      && (k < |answers| && !p.Missing? ==>
            now == Continue(decisions + [Picked(lines[i], p)], ChoiceRun(lines[i + 1..], menus[i + 1..], answers[k + 1..])))
  {
    var here := answers[pos..];
    assert forall j :: 0 <= j < k - pos ==> here[j] == answers[pos + j];
    DecideSkips(lines[i], menus[i], here, k - pos);
    assert here[k - pos..] == answers[k..];
    ChoiceRunStep(lines, menus, i, here);
    if k < |answers| {
      assert answers[k..][1..] == answers[k + 1..];
      var p := Choose(n, menus[i]);
      if !p.Missing? {
        var later := ChoiceRun(lines[i + 1..], menus[i + 1..], answers[k + 1..]);
        assert decisions + ([Picked(lines[i], p)] + later.decisions) == (decisions + [Picked(lines[i], p)]) + later.decisions;
      }
    }
  }

  /** The two writes after a decided line: the rows chosen so far, when
      there are any, then the lines still to decide. */
  method SaveCheckpoint(store: Store, ghost base: FileMap, lines: seq<SsaLine>,
                        decisions: seq<Option<MatchRow>>, chosen: seq<MatchRow>, row: Option<MatchRow>)
    returns (chosen': seq<MatchRow>)
    requires |decisions| < |lines|
    requires chosen == ChosenRows(decisions)
    requires store.files == CheckpointFiles(base, lines, decisions)
    modifies store
    ensures chosen' == ChosenRows(decisions + [row])
    ensures store.files == CheckpointFiles(base, lines, decisions + [row])
  {
    CheckpointStep(base, lines, decisions, row);
    ChosenRowsAppend(decisions, [row]);
    assert ChosenRows([row]) == if row.Some? then [row.value] else [] by {
      assert [row][1..] == [];
    }
    chosen' := chosen;
    if row.Some? {
      chosen' := chosen + [row.value];
      store.Write(ChoiceMatchesIntermediate, MatchesFile(chosen'));
    }
    store.Write(UnmatchedChoiceIntermediate, LinesFile(lines[|decisions| + 1..]));
  }

  /** The `for` loop of `extract_user_chosen_matches` over `lines`, shown
      `menus`: the decisions made, the rows chosen and why the loop stopped
      early if it did; after each decided line the checkpoint files are
      rewritten. */
  method AskOperator(store: Store, lines: seq<SsaLine>, menus: seq<Options>, answers: seq<Option<int>>)
    returns (decisions: seq<Option<MatchRow>>, chosen: seq<MatchRow>, halted: Option<Stop>, used: nat)
    requires |menus| == |lines|
    modifies store
    ensures used <= |answers|
    ensures ChoiceRun(lines, menus, answers) == Session(decisions, halted, if halted.None? then answers[used..] else [])
    ensures chosen == ChosenRows(decisions)
    ensures store.files == CheckpointFiles(old(store.files), lines, decisions)
  {
    ghost var whole := ChoiceRun(lines, menus, answers);
    decisions := [];
    chosen := [];
    halted := None;
    used := 0;
    var i := 0;
    assert lines[0..] == lines && menus[0..] == menus && answers[0..] == answers;
    while i < |lines| && halted.None?
      invariant 0 <= i <= |lines| && |decisions| == i && used <= |answers|
      invariant halted.None? ==> whole == Continue(decisions, ChoiceRun(lines[i..], menus[i..], answers[used..]))
      invariant halted.Some? ==> whole == Session(decisions, halted, [])
      invariant chosen == ChosenRows(decisions)
      invariant store.files == CheckpointFiles(old(store.files), lines, decisions)
      decreases |lines| - i, if halted.None? then 1 else 0
    {
      var k, n := ReadChoice(answers, used);
      OneLine(lines, menus, i, answers, used, k, n, decisions);
      if k == |answers| {
        halted := Some(EndOfInput);
      } else {
        var pick := Choose(n, menus[i]);
        if pick.Missing? {
          halted := Some(MissingCandidate);
        } else {
          var row: Option<MatchRow> := None;
          if pick.Take? {
            row := Some(ChosenRow(lines[i], pick.c));
          }
          assert row == Picked(lines[i], pick);
          chosen := SaveCheckpoint(store, old(store.files), lines, decisions, chosen, row);
          decisions := decisions + [row];
          used := k + 1;
          i := i + 1;
        }
      }
    }
  }

  /** `extract_user_chosen_matches`: the chosen rows, the remainder and
      why the session stopped early if it did, with the checkpoint files
      written as the lines are decided, and how many answers it read.
      `answers` is what `int()` made of each line the operator typed. */
  method ExtractUserChosenMatches(store: Store, lines: seq<SsaLine>, refs: References, answers: seq<Option<int>>)
    returns (chosen: seq<MatchRow>, remainder: seq<SsaLine>, halted: Option<Stop>, used: nat)
    requires lines == [] || refs.ciel != []
    modifies store
    ensures var s := ChoiceRun(lines, Menus(lines, refs), answers);
      && chosen == ChosenRows(s.decisions)
      && halted == s.halted
      && remainder == (if halted.None? then AsWrittenRemainder(lines, chosen) else lines[|s.decisions|..])
      && used <= |answers| && (halted.None? ==> s.left == answers[used..])
      && store.files == CheckpointFiles(old(store.files), lines, s.decisions)
  {
    var menus := Menus(lines, refs);
    var decisions;
    decisions, chosen, halted, used := AskOperator(store, lines, menus, answers);
    if halted.None? {
      remainder := AsWrittenRemainder(lines, chosen);
    } else {
      remainder := lines[|decisions|..];
    }
  }
}
