/**
 * `main`: the HUM stage, the CIEL stage and the operator's stage in a
 * row, each skipped or fed from a file when an earlier run left its
 * files behind. The operator's input is one stream of lines: the
 * `Enter 'p' ...` prompt of every `save_matches_and_unmatched` reads one
 * line of it, the choice prompts read the rest.
 */
module Pipeline {
  import opened Wrappers
  import opened Names
  import opened Fuzzy
  import opened Records
  import opened Files
  import opened AutoMatch
  import opened Choice

  /** Why a run stops early. `NoReference` is the `TypeError` of
      indexing the `None` that `extractOne` returns on an empty mapping;
      `OutOfInput` is `input()` raising `EOFError`; `NoSuchCandidate` is
      the `IndexError` of a number past a short candidate list;
      `NoLinesFile` is `csv_as_list` on a file that is not there. */
  datatype Failure = NoReference | OutOfInput | NoSuchCandidate | NoLinesFile(path: Path)

  datatype Outcome = Completed | Crashed(failure: Failure)

  /** How a run ends, and the files it leaves. */
  datatype Ending = Ending(outcome: Outcome, files: FileMap)

  /** The test that decides whether the CIEL stage is skipped: as the
      source writes it, the CIEL matches file alone; or both CIEL files,
      as for the HUM stage. */
  datatype CielTest = MatchesFileOnly | BothFiles

  /** Between two stages: the files, the remainder the stage left in
      `unmatched_ssa_lines` (`None` when it was skipped) and the input
      not yet read; or a stop. */
  datatype Progress = Running(files: FileMap, remainder: Option<seq<SsaLine>>, inputs: seq<string>)
                    | Stopped(failure: Failure, at: FileMap)

  /** Where the operator's stage finds its lines. */
  datatype Lines = Got(lines: seq<SsaLine>) | Lacking(failure: Failure)

  predicate SkipsHum(files: FileMap) {
    MatchesHumAuto in files && UnmatchedHumAuto in files
  }

  predicate SkipsCiel(files: FileMap, test: CielTest) {
    MatchesCielAuto in files && (test == MatchesFileOnly || UnmatchedCielAuto in files)
  }

  /** `save_matches_and_unmatched` after an automatic stage: the prompt
      reads a line, then the two files are written. */
  function SaveStage(files: FileMap, split: Split, matchesPath: Path, unmatchedPath: Path,
                     inputs: seq<string>): (p: Progress)
    requires matchesPath != unmatchedPath
    ensures p.Stopped? <==> inputs == []
    ensures p.Stopped? ==> p == Stopped(OutOfInput, files)
    ensures p.Running? ==>
      && p.remainder == Some(split.remainder) && p.inputs == inputs[1..]
      && p.files == Saved(files, split.matches, split.remainder, matchesPath, unmatchedPath)
  {
    if inputs == [] then Stopped(OutOfInput, files)
    else Running(Saved(files, split.matches, split.remainder, matchesPath, unmatchedPath),
                 Some(split.remainder), inputs[1..])
  }

  /** Lines 42-52. */
  function HumStage(files: FileMap, lines: seq<SsaLine>, humRows: seq<seq<string>>, wratio: Scorer,
                    inputs: seq<string>): (p: Progress)
    requires HumRows(humRows)
    ensures p.Running? && p.remainder.None? <==> SkipsHum(files)
    ensures p.Stopped? <==> !SkipsHum(files) && ((lines != [] && humRows == []) || inputs == [])
    ensures p.Stopped? ==> p.at == files
    ensures p.Running? ==>
      && MatchesHumAuto in p.files && UnmatchedHumAuto in p.files
      && p.inputs == (if SkipsHum(files) then inputs else inputs[1..])
    ensures p.Running? && p.remainder.Some? ==> LinesIn(p.files, UnmatchedHumAuto) == p.remainder
    ensures p.Running? ==> files.Keys <= p.files.Keys
  {
    if SkipsHum(files) then Running(files, None, inputs)
    else if lines != [] && humRows == [] then Stopped(NoReference, files)
    else SaveStage(files, ExtractGoodMatchesHum(lines, humRows, wratio), MatchesHumAuto, UnmatchedHumAuto, inputs)
  }

  /** Lines 59-68, for a CIEL stage that is not skipped: the HUM
      remainder, or the HUM remainder file when the HUM stage was
      skipped. */
  function CielStage(files: FileMap, humRemainder: Option<seq<SsaLine>>, items: seq<CielItem>,
                     tokenSort: Scorer, inputs: seq<string>): (p: Progress)
    ensures p.Stopped? ==> p.at == files
    ensures p.Stopped? && p.failure.NoLinesFile? <==> humRemainder.None? && LinesIn(files, UnmatchedHumAuto).None?
    ensures p.Running? ==>
      && MatchesCielAuto in p.files && p.remainder.Some? && LinesIn(p.files, UnmatchedCielAuto) == p.remainder
      && inputs != [] && p.inputs == inputs[1..]
    ensures p.Running? ==> files.Keys <= p.files.Keys
  {
    var input := if humRemainder.Some? then humRemainder else LinesIn(files, UnmatchedHumAuto);
    if input.None? then Stopped(NoLinesFile(UnmatchedHumAuto), files)
    else if input.value != [] && items == [] then Stopped(NoReference, files)
    else SaveStage(files, ExtractGoodMatchesCiel(input.value, items, tokenSort), MatchesCielAuto, UnmatchedCielAuto, inputs)
  }

  /** Lines 72-79: the checkpoint if there is one, else the CIEL
      remainder file when the CIEL stage was skipped, else the CIEL
      remainder. */
  function ChoiceLines(files: FileMap, cielRemainder: Option<seq<SsaLine>>): (r: Lines)
    ensures UnmatchedChoiceIntermediate in files ==>
      match LinesIn(files, UnmatchedChoiceIntermediate)
      case Some(ls) => r == Got(ls)
      case None => r == Lacking(NoLinesFile(UnmatchedChoiceIntermediate))
    ensures UnmatchedChoiceIntermediate !in files && cielRemainder.Some? ==> r == Got(cielRemainder.value)
    ensures UnmatchedChoiceIntermediate !in files && cielRemainder.None? ==>
      match LinesIn(files, UnmatchedCielAuto)
      case Some(ls) => r == Got(ls)
      case None => r == Lacking(NoLinesFile(UnmatchedCielAuto))
  {
    var path := if UnmatchedChoiceIntermediate in files then UnmatchedChoiceIntermediate else UnmatchedCielAuto;
    if UnmatchedChoiceIntermediate !in files && cielRemainder.Some? then Got(cielRemainder.value)
    else match LinesIn(files, path)
      case Some(lines) => Got(lines)
      case None => Lacking(NoLinesFile(path))
  }

  /** The references of the operator's stage. */
  function ReferencesFor(humRows: seq<seq<string>>, items: seq<CielItem>, wratio: Scorer, tokenSort: Scorer): References
    requires HumRows(humRows)
  {
    References(HumMapping(humRows), CielMapping(items), wratio, tokenSort)
  }

  /** Lines 81-86: the operator's session over the lines, then the last
      prompt and the last two files. */
  function ChoiceStage(files: FileMap, lines: seq<SsaLine>, refs: References, inputs: seq<string>): (e: Ending)
    requires lines == [] || refs.ciel != []
    ensures e.outcome.Crashed? ==> e.outcome.failure.OutOfInput? || e.outcome.failure.NoSuchCandidate?
    ensures files.Keys <= e.files.Keys
    ensures e.outcome.Completed? ==> MatchesChoice in e.files && Unmatched in e.files
  {
    ChoiceEnding(files, lines, SessionFor(lines, refs, inputs))
  }

  /** How the operator's stage ends once the session is known. */
  function ChoiceEnding(files: FileMap, lines: seq<SsaLine>, s: Session): (e: Ending)
    requires |s.decisions| <= |lines|
    requires s.halted.None? <==> |s.decisions| == |lines|
    ensures e.outcome.Crashed? ==> e.outcome.failure.OutOfInput? || e.outcome.failure.NoSuchCandidate?
    ensures e.outcome.Completed? <==> s.halted.None? && s.left != []
    ensures files.Keys <= e.files.Keys
    ensures !e.outcome.Completed? ==> e.files == CheckpointFiles(files, lines, s.decisions)
    ensures e.outcome.Completed? ==>
      && MatchesChoice in e.files && e.files[MatchesChoice] == MatchesFile(ChosenRows(s.decisions))
      && LinesIn(e.files, Unmatched) == Some(AsWrittenRemainder(lines, ChosenRows(s.decisions)))
  {
    var f := CheckpointFiles(files, lines, s.decisions);
    match s.halted
    case Some(EndOfInput) => Ending(Crashed(OutOfInput), f)
    case Some(MissingCandidate) => Ending(Crashed(NoSuchCandidate), f)
    case None =>
      if s.left == [] then Ending(Crashed(OutOfInput), f)
      else Ending(Completed, Saved(f, ChosenRows(s.decisions), AsWrittenRemainder(lines, ChosenRows(s.decisions)),
                                   MatchesChoice, Unmatched))
  }

  /** Lines 70-86 from the files and remainder the automatic stages left. */
  function FinalStage(files: FileMap, cielRemainder: Option<seq<SsaLine>>, humRows: seq<seq<string>>,
                      items: seq<CielItem>, wratio: Scorer, tokenSort: Scorer, inputs: seq<string>): (e: Ending)
    requires HumRows(humRows)
    ensures e.outcome.Crashed? && e.outcome.failure.NoLinesFile? <==> ChoiceLines(files, cielRemainder).Lacking?
    ensures files.Keys <= e.files.Keys
    ensures e.outcome.Completed? ==> MatchesChoice in e.files && Unmatched in e.files
  {
    match ChoiceLines(files, cielRemainder)
    case Lacking(f) => Ending(Crashed(f), files)
    case Got(lines) =>
      if lines != [] && items == [] then Ending(Crashed(NoReference), files)
      else ChoiceStage(files, lines, ReferencesFor(humRows, items, wratio, tokenSort), inputs)
  }

  /** `main` after its first lines: on the SSA lines and the cleaned HUM
      rows, the CIEL items, the files an earlier run left and the
      operator's input. */
  function MainRun(files: FileMap, lines: seq<SsaLine>, humRows: seq<seq<string>>, items: seq<CielItem>,
                   wratio: Scorer, tokenSort: Scorer, inputs: seq<string>, test: CielTest): (e: Ending)
    requires HumRows(humRows)
    ensures files.Keys <= e.files.Keys
    ensures e.outcome.Completed? ==>
      && MatchesHumAuto in e.files && UnmatchedHumAuto in e.files && MatchesCielAuto in e.files
      && MatchesChoice in e.files && Unmatched in e.files
  {
    match HumStage(files, lines, humRows, wratio, inputs)
    case Stopped(f, at) => Ending(Crashed(f), at)
    case Running(files1, humRemainder, inputs1) =>
      if SkipsCiel(files1, test) then FinalStage(files1, None, humRows, items, wratio, tokenSort, inputs1)
      else match CielStage(files1, humRemainder, items, tokenSort, inputs1)
        case Stopped(f, at) => Ending(Crashed(f), at)
        case Running(files2, cielRemainder, inputs2) =>
          FinalStage(files2, cielRemainder, humRows, items, wratio, tokenSort, inputs2)
  }

  /** The checkpoint writes of the operator's stage keep the files well
      kinded. */
  lemma CheckpointWellKinded(files: FileMap, lines: seq<SsaLine>, decisions: seq<Option<MatchRow>>)
    requires |decisions| <= |lines| && WellKinded(files)
    ensures WellKinded(CheckpointFiles(files, lines, decisions))
  {
  }

  /** Finding, as written (line 55 tests the CIEL matches file alone): with
      both HUM files and the CIEL matches file but no CIEL remainder file,
      the CIEL stage is skipped and the operator's stage reads the CIEL
      remainder file, which is not there. */
  lemma AsWrittenCielTestReadsMissingFile(lines: seq<SsaLine>, humRows: seq<seq<string>>, items: seq<CielItem>,
                                          wratio: Scorer, tokenSort: Scorer, inputs: seq<string>)
    requires HumRows(humRows)
    ensures var files := map[MatchesHumAuto := MatchesFile([]), UnmatchedHumAuto := LinesFile([]),
                             MatchesCielAuto := MatchesFile([])];
      && WellKinded(files)
      && MainRun(files, lines, humRows, items, wratio, tokenSort, inputs, MatchesFileOnly)
         == Ending(Crashed(NoLinesFile(UnmatchedCielAuto)), files)
  {
    var files := map[MatchesHumAuto := MatchesFile([]), UnmatchedHumAuto := LinesFile([]),
                     MatchesCielAuto := MatchesFile([])];
    assert HumStage(files, lines, humRows, wratio, inputs) == Running(files, None, inputs);
    assert ChoiceLines(files, None) == Lacking(NoLinesFile(UnmatchedCielAuto));
  }

  /** The operator's stage finds its lines when the files are well kinded
      and, if no CIEL remainder is passed on, the CIEL remainder file is
      there. */
  lemma {:induction false} FinalStageFindsLines(files: FileMap, cielRemainder: Option<seq<SsaLine>>,
                                                 humRows: seq<seq<string>>, items: seq<CielItem>,
                                                 wratio: Scorer, tokenSort: Scorer, inputs: seq<string>)
    requires HumRows(humRows) && WellKinded(files)
    requires cielRemainder.None? ==> UnmatchedCielAuto in files
    ensures var o := FinalStage(files, cielRemainder, humRows, items, wratio, tokenSort, inputs).outcome;
      !(o.Crashed? && o.failure.NoLinesFile?)
  {
    if UnmatchedChoiceIntermediate in files {
      assert files[UnmatchedChoiceIntermediate].LinesFile?;
    } else if cielRemainder.None? {
      assert files[UnmatchedCielAuto].LinesFile?;
    }
  }

  /** The HUM stage keeps the files well kinded, and when it is skipped
      the HUM remainder file can be read. */
  lemma HumStageKeepsKinds(files: FileMap, lines: seq<SsaLine>, humRows: seq<seq<string>>, wratio: Scorer,
                           inputs: seq<string>)
    requires HumRows(humRows) && WellKinded(files)
    ensures var p := HumStage(files, lines, humRows, wratio, inputs);
      p.Running? ==> WellKinded(p.files) && (p.remainder.None? ==> LinesIn(p.files, UnmatchedHumAuto).Some?)
  {
    var p := HumStage(files, lines, humRows, wratio, inputs);
    if p.Running? && !SkipsHum(files) {
      var split := ExtractGoodMatchesHum(lines, humRows, wratio);
      SavedWellKinded(files, split.matches, split.remainder, MatchesHumAuto, UnmatchedHumAuto);
    } else if p.Running? {
      assert files[UnmatchedHumAuto].LinesFile?;
    }
  }

  /** The CIEL stage keeps the files well kinded. */
  lemma CielStageKeepsKinds(files: FileMap, humRemainder: Option<seq<SsaLine>>, items: seq<CielItem>,
                            tokenSort: Scorer, inputs: seq<string>)
    requires WellKinded(files)
    ensures var p := CielStage(files, humRemainder, items, tokenSort, inputs);
      p.Running? ==> WellKinded(p.files)
  {
    var p := CielStage(files, humRemainder, items, tokenSort, inputs);
    if p.Running? {
      var input := if humRemainder.Some? then humRemainder.value else files[UnmatchedHumAuto].lines;
      var split := ExtractGoodMatchesCiel(input, items, tokenSort);
      SavedWellKinded(files, split.matches, split.remainder, MatchesCielAuto, UnmatchedCielAuto);
    }
  }

  /** Corrected (line 55 testing both CIEL files, as line 43 does for
      HUM): from well kinded files, no stage ever reads a file that is
      not there. */
  lemma {:induction false} EveryStageFindsItsInput(files: FileMap, lines: seq<SsaLine>, humRows: seq<seq<string>>,
                                                     items: seq<CielItem>, wratio: Scorer, tokenSort: Scorer,
                                                     inputs: seq<string>)
    requires HumRows(humRows) && WellKinded(files)
    ensures var o := MainRun(files, lines, humRows, items, wratio, tokenSort, inputs, BothFiles).outcome;
      !(o.Crashed? && o.failure.NoLinesFile?)
  {
    var p1 := HumStage(files, lines, humRows, wratio, inputs);
    HumStageKeepsKinds(files, lines, humRows, wratio, inputs);
    if p1.Running? {
      if SkipsCiel(p1.files, BothFiles) {
        FinalStageFindsLines(p1.files, None, humRows, items, wratio, tokenSort, p1.inputs);
      } else {
        var p2 := CielStage(p1.files, p1.remainder, items, tokenSort, p1.inputs);
        CielStageKeepsKinds(p1.files, p1.remainder, items, tokenSort, p1.inputs);
        if p2.Running? {
          FinalStageFindsLines(p2.files, p2.remainder, humRows, items, wratio, tokenSort, p2.inputs);
        }
      }
    }
  }

  /** A run that finds the files of both automatic stages goes straight
      to the operator's stage, with all of the input. */
  lemma SkipsToOperator(files: FileMap, lines: seq<SsaLine>, humRows: seq<seq<string>>,
                        items: seq<CielItem>, wratio: Scorer, tokenSort: Scorer, inputs: seq<string>,
                        test: CielTest)
    requires HumRows(humRows)
    requires SkipsHum(files) && SkipsCiel(files, test)
    ensures MainRun(files, lines, humRows, items, wratio, tokenSort, inputs, test)
         == FinalStage(files, None, humRows, items, wratio, tokenSort, inputs)
  {
    assert HumStage(files, lines, humRows, wratio, inputs)
        == Running(files, None, inputs);
  }

  /** Resuming: with both automatic stages done and a checkpoint left, the
      run hands the checkpoint and the whole of the operator's input to
      the operator's stage. By `ChoiceEnding`, the rows it saves are those
      of this session alone, whatever the choice matches checkpoint held. */
  lemma ResumeFromCheckpoint(files: FileMap, lines: seq<SsaLine>, humRows: seq<seq<string>>,
                             items: seq<CielItem>, wratio: Scorer, tokenSort: Scorer, inputs: seq<string>,
                             rest: seq<SsaLine>, test: CielTest)
    requires HumRows(humRows)
    requires SkipsHum(files) && SkipsCiel(files, test)
    requires LinesIn(files, UnmatchedChoiceIntermediate) == Some(rest)
    requires rest == [] || items != []
    ensures var refs := ReferencesFor(humRows, items, wratio, tokenSort);
      MainRun(files, lines, humRows, items, wratio, tokenSort, inputs, test) == ChoiceStage(files, rest, refs, inputs)
  {
    SkipsToOperator(files, lines, humRows, items, wratio, tokenSort, inputs, test);
    assert ChoiceLines(files, None) == Got(rest);
  }

  /** The HUM stage when it is not skipped and does not fail. */
  lemma HumStageRuns(files: FileMap, lines: seq<SsaLine>, humRows: seq<seq<string>>, wratio: Scorer,
                     inputs: seq<string>)
    requires HumRows(humRows) && (lines == [] || humRows != []) && inputs != [] && !SkipsHum(files)
    ensures var hum := ExtractGoodMatchesHum(lines, humRows, wratio);
      HumStage(files, lines, humRows, wratio, inputs)
      == Running(Saved(files, hum.matches, hum.remainder, MatchesHumAuto, UnmatchedHumAuto),
                 Some(hum.remainder), inputs[1..])
  {
  }

  /** The CIEL stage on a HUM remainder, when it does not fail. */
  lemma CielStageRuns(files: FileMap, humRemainder: seq<SsaLine>, items: seq<CielItem>, tokenSort: Scorer,
                      inputs: seq<string>)
    requires (humRemainder == [] || items != []) && inputs != []
    ensures var ciel := ExtractGoodMatchesCiel(humRemainder, items, tokenSort);
      CielStage(files, Some(humRemainder), items, tokenSort, inputs)
      == Running(Saved(files, ciel.matches, ciel.remainder, MatchesCielAuto, UnmatchedCielAuto),
                 Some(ciel.remainder), inputs[1..])
  {
  }

  /** A run that does both automatic stages hands the CIEL remainder to
      the operator's stage. */
  lemma RunsBothStages(files: FileMap, lines: seq<SsaLine>, humRows: seq<seq<string>>, items: seq<CielItem>,
                       wratio: Scorer, tokenSort: Scorer, inputs: seq<string>, test: CielTest,
                       files1: FileMap, humRemainder: seq<SsaLine>, inputs1: seq<string>,
                       files2: FileMap, cielRemainder: seq<SsaLine>, inputs2: seq<string>)
    requires HumRows(humRows)
    requires HumStage(files, lines, humRows, wratio, inputs) == Running(files1, Some(humRemainder), inputs1)
    requires !SkipsCiel(files1, test)
    requires CielStage(files1, Some(humRemainder), items, tokenSort, inputs1) == Running(files2, Some(cielRemainder), inputs2)
    requires UnmatchedChoiceIntermediate !in files2
    ensures MainRun(files, lines, humRows, items, wratio, tokenSort, inputs, test)
         == (if cielRemainder != [] && items == [] then Ending(Crashed(NoReference), files2)
             else ChoiceStage(files2, cielRemainder, ReferencesFor(humRows, items, wratio, tokenSort), inputs2))
  {
    assert ChoiceLines(files2, Some(cielRemainder)) == Got(cielRemainder);
  }

  /** The files of a run interrupted after its earlier session chose
      `row` for the last line: both automatic stages done, the choice
      matches checkpoint holding `row`, no line left to decide. */
  function InterruptedAfterLastChoice(row: MatchRow): (files: FileMap)
    ensures WellKinded(files) && SkipsHum(files) && SkipsCiel(files, MatchesFileOnly)
    ensures LinesIn(files, UnmatchedChoiceIntermediate) == Some([])
    ensures ChoiceMatchesIntermediate in files && files[ChoiceMatchesIntermediate] == MatchesFile([row])
  {
    map[MatchesHumAuto := MatchesFile([]), UnmatchedHumAuto := LinesFile([]),
        MatchesCielAuto := MatchesFile([]), UnmatchedCielAuto := LinesFile([]),
        ChoiceMatchesIntermediate := MatchesFile([row]),
        UnmatchedChoiceIntermediate := LinesFile([])]
  }

  /** Finding, as written: a resumed run starts `choice_matches` empty
      (line 192), so the rows an interrupted session chose are missing
      from the final matches file. */
  lemma AsWrittenResumeDropsEarlierChoices(humRows: seq<seq<string>>, items: seq<CielItem>,
                                           wratio: Scorer, tokenSort: Scorer, row: MatchRow)
    requires HumRows(humRows)
    ensures var files := InterruptedAfterLastChoice(row);
      var e := MainRun(files, [], humRows, items, wratio, tokenSort, ["p"], MatchesFileOnly);
      && files[ChoiceMatchesIntermediate] == MatchesFile([row])
      && e.outcome == Completed && e.files[MatchesChoice] == MatchesFile([])
  {
    var files := InterruptedAfterLastChoice(row);
    ResumeFromCheckpoint(files, [], humRows, items, wratio, tokenSort, ["p"], [], MatchesFileOnly);
    EmptyChoiceStage(files, ReferencesFor(humRows, items, wratio, tokenSort), ["p"]);
  }

  /** With no lines left, the operator's stage only saves: no rows. */
  lemma EmptyChoiceStage(files: FileMap, refs: References, inputs: seq<string>)
    requires inputs != []
    ensures var e := ChoiceStage(files, [], refs, inputs);
      e.outcome == Completed && e.files[MatchesChoice] == MatchesFile([])
  {
    assert |Answers(inputs)| == |inputs|;
    var s := SessionFor([], refs, inputs);
    assert s == Session([], None, Answers(inputs));
    assert ChosenRows(s.decisions) == [];
  }

  /** The rows the choice matches checkpoint carries over to a resumed
      run, none when there is no such file. */
  function CarriedRows(files: FileMap): (rows: seq<MatchRow>)
    ensures rows != [] ==> ChoiceMatchesIntermediate in files && files[ChoiceMatchesIntermediate] == MatchesFile(rows)
  {
    if ChoiceMatchesIntermediate in files && files[ChoiceMatchesIntermediate].MatchesFile?
    then files[ChoiceMatchesIntermediate].rows else []
  }

  /** Corrected (`choice_matches` starting from the rows the checkpoint
      carries): a session that ran out of input, resumed on the lines it
      left with more input, ends with the rows one session given all the
      input would choose. */
  lemma {:induction false} CarriedRowsCompleteTheSession(files: FileMap, lines: seq<SsaLine>, refs: References,
                                                         inputs1: seq<string>, inputs2: seq<string>)
    requires lines == [] || refs.ciel != []
    requires ChoiceMatchesIntermediate !in files
    requires SessionFor(lines, refs, inputs1).halted == Some(EndOfInput)
    ensures var s1 := SessionFor(lines, refs, inputs1);
      var s2 := SessionFor(lines[|s1.decisions|..], refs, inputs2);
      CarriedRows(CheckpointFiles(files, lines, s1.decisions)) + ChosenRows(s2.decisions)
        == ChosenRows(SessionFor(lines, refs, inputs1 + inputs2).decisions)
  {
    var s1 := SessionFor(lines, refs, inputs1);
    var s2 := SessionFor(lines[|s1.decisions|..], refs, inputs2);
    ResumeAfterEndOfInput(lines, refs, inputs1, inputs2);
    ChosenRowsAppend(s1.decisions, s2.decisions);
    CheckpointCarriesChosenRows(files, lines, s1.decisions);
  }

  /** The checkpoint of a first session carries exactly its chosen rows. */
  lemma CheckpointCarriesChosenRows(files: FileMap, lines: seq<SsaLine>, decisions: seq<Option<MatchRow>>)
    requires |decisions| <= |lines| && ChoiceMatchesIntermediate !in files
    ensures CarriedRows(CheckpointFiles(files, lines, decisions)) == ChosenRows(decisions)
  {
    var f := CheckpointFiles(files, lines, decisions);
    if ChosenRows(decisions) != [] {
      CheckpointHoldsUndecided(files, lines, decisions);
    }
  }

  /** The files a stage leaves. */
  function FilesAfter(p: Progress): FileMap {
    if p.Running? then p.files else p.at
  }

  /** Lines 42-52 against the store. */
  method HumStep(store: Store, lines: seq<SsaLine>, humRows: seq<seq<string>>, wratio: Scorer, inputs: seq<string>)
    returns (p: Progress)
    requires HumRows(humRows)
    modifies store
    ensures p == HumStage(old(store.files), lines, humRows, wratio, inputs)
    ensures store.files == FilesAfter(p)
  {
    if store.IsFile(MatchesHumAuto) && store.IsFile(UnmatchedHumAuto) {
      return Running(store.files, None, inputs);
    }
    if lines != [] && humRows == [] {
      return Stopped(NoReference, store.files);
    }
    var split := ExtractGoodMatchesHum(lines, humRows, wratio);
    if inputs == [] {
      return Stopped(OutOfInput, store.files);
    }
    store.SaveMatchesAndUnmatched(split.matches, split.remainder, MatchesHumAuto, UnmatchedHumAuto);
    p := Running(store.files, Some(split.remainder), inputs[1..]);
  }

  /** Lines 59-68 against the store. */
  method CielStep(store: Store, humRemainder: Option<seq<SsaLine>>, items: seq<CielItem>, tokenSort: Scorer,
                  inputs: seq<string>) returns (p: Progress)
    modifies store
    ensures p == CielStage(old(store.files), humRemainder, items, tokenSort, inputs)
    ensures store.files == FilesAfter(p)
  {
    var input := humRemainder;
    if input.None? {
      input := LinesIn(store.files, UnmatchedHumAuto);
      if input.None? {
        return Stopped(NoLinesFile(UnmatchedHumAuto), store.files);
      }
    }
    if input.value != [] && items == [] {
      return Stopped(NoReference, store.files);
    }
    var split := ExtractGoodMatchesCiel(input.value, items, tokenSort);
    if inputs == [] {
      return Stopped(OutOfInput, store.files);
    }
    store.SaveMatchesAndUnmatched(split.matches, split.remainder, MatchesCielAuto, UnmatchedCielAuto);
    p := Running(store.files, Some(split.remainder), inputs[1..]);
  }

  /** Lines 72-86 against the store. */
  method FinalStep(store: Store, cielRemainder: Option<seq<SsaLine>>, humRows: seq<seq<string>>,
                   items: seq<CielItem>, wratio: Scorer, tokenSort: Scorer, inputs: seq<string>)
    returns (outcome: Outcome)
    requires HumRows(humRows)
    modifies store
    ensures var e := FinalStage(old(store.files), cielRemainder, humRows, items, wratio, tokenSort, inputs);
      outcome == e.outcome && store.files == e.files
  {
    var lines: seq<SsaLine>;
    if store.IsFile(UnmatchedChoiceIntermediate) || cielRemainder.None? {
      var path := if store.IsFile(UnmatchedChoiceIntermediate) then UnmatchedChoiceIntermediate else UnmatchedCielAuto;
      var read := LinesIn(store.files, path);
      if read.None? {
        return Crashed(NoLinesFile(path));
      }
      lines := read.value;
    } else {
      lines := cielRemainder.value;
    }
    if lines != [] && items == [] {
      return Crashed(NoReference);
    }
    outcome := ChoiceStep(store, lines, ReferencesFor(humRows, items, wratio, tokenSort), inputs);
  }

  /** Lines 81-86: the operator's stage and the final save. */
  method ChoiceStep(store: Store, lines: seq<SsaLine>, refs: References, inputs: seq<string>)
    returns (outcome: Outcome)
    requires lines == [] || refs.ciel != []
    modifies store
    ensures var e := ChoiceStage(old(store.files), lines, refs, inputs);
      outcome == e.outcome && store.files == e.files
  {
    ghost var before := store.files;
    ghost var s := ChoiceRun(lines, Menus(lines, refs), Answers(inputs));
    assert ChoiceStage(before, lines, refs, inputs) == ChoiceEnding(before, lines, s);
    var chosen, remainder, halted, used := ExtractUserChosenMatches(store, lines, refs, Answers(inputs));
    ghost var f := CheckpointFiles(before, lines, s.decisions);
    assert store.files == f && halted == s.halted;
    match halted
    case Some(EndOfInput) =>
      assert ChoiceEnding(before, lines, s) == Ending(Crashed(OutOfInput), f);
      return Crashed(OutOfInput);
    case Some(MissingCandidate) =>
      assert ChoiceEnding(before, lines, s) == Ending(Crashed(NoSuchCandidate), f);
      return Crashed(NoSuchCandidate);
    case None =>
      assert s.left == Answers(inputs)[used..];
      if used == |inputs| {
        assert ChoiceEnding(before, lines, s) == Ending(Crashed(OutOfInput), f);
        return Crashed(OutOfInput);
      }
      assert chosen == ChosenRows(s.decisions) && remainder == AsWrittenRemainder(lines, chosen);
      store.SaveMatchesAndUnmatched(chosen, remainder, MatchesChoice, Unmatched);
      assert ChoiceEnding(before, lines, s) == Ending(Completed, store.files);
      return Completed;
  }

  /** `main` against the store: the HUM stage unless both HUM files are
      there, the CIEL stage unless the CIEL matches file is there, then the
      operator's stage. */
  method MatchMeds(store: Store, ssaRaw: seq<seq<string>>, humRaw: seq<seq<string>>, items: seq<CielItem>,
                  wratio: Scorer, tokenSort: Scorer, inputs: seq<string>) returns (outcome: Outcome)
    requires SsaRows(CleanCsvList(ssaRaw)) && HumRows(CleanCsvList(humRaw))
    modifies store
    ensures var e := MainRun(old(store.files), SsaLines(CleanCsvList(ssaRaw)), CleanCsvList(humRaw), items, wratio,
                             tokenSort, inputs, MatchesFileOnly);
      outcome == e.outcome && store.files == e.files
  {
    var ssaCsv := CleanCsvList(ssaRaw);
    var humCsv := CleanCsvList(humRaw);
    var ssaLines := SsaLines(ssaCsv);
    var afterHum := HumStep(store, ssaLines, humCsv, wratio, inputs);
    if afterHum.Stopped? {
      return Crashed(afterHum.failure);
    }
    var afterCiel := Running(store.files, None, afterHum.inputs);
    if !store.IsFile(MatchesCielAuto) {
      afterCiel := CielStep(store, afterHum.remainder, items, tokenSort, afterHum.inputs);
      if afterCiel.Stopped? {
        return Crashed(afterCiel.failure);
      }
    }
    outcome := FinalStep(store, afterCiel.remainder, humCsv, items, wratio, tokenSort, afterCiel.inputs);
  }
}
