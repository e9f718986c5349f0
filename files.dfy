/**
 * The files match_meds.py reads back on a later run, as an abstract
 * store from path to contents. CSV encoding is not modelled: a file
 * holds the rows it was written with.
 */
module Files {
  import opened Wrappers
  import opened Records

  /** The output and intermediate files of match_meds.py (lines 21-29). */
  datatype Path =
    | MatchesHumAuto             // ./output/meds-matches-hum-auto.csv
    | UnmatchedHumAuto           // ./intermediates/no-match-hum-auto.csv
    | MatchesCielAuto            // ./output/meds-matches-ciel-auto.csv
    | UnmatchedCielAuto          // ./intermediates/no-match-ciel-auto.csv
    | ChoiceMatchesIntermediate  // ./intermediates/choice-matches.csv
    | MatchesChoice              // ./output/meds-matches-choice.csv
    | UnmatchedChoiceIntermediate  // ./intermediates/no-match-choice.csv
    | Unmatched                  // ./ouput/meds-unmatched.csv

  /** A file of SSA lines or a file of match rows. */
  datatype Contents = LinesFile(lines: seq<SsaLine>) | MatchesFile(rows: seq<MatchRow>)

  type FileMap = map<Path, Contents>

  /** `csv_as_list(path)` for a file of SSA lines; `None` when there is
      no such file (the source raises `FileNotFoundError`). */
  function LinesIn(files: FileMap, p: Path): (r: Option<seq<SsaLine>>)
    ensures r.Some? <==> p in files && files[p].LinesFile?
    ensures r.Some? ==> files[p] == LinesFile(r.value)
  {
    if p in files && files[p].LinesFile? then Some(files[p].lines) else None
  }

  /** The files after `save_matches_and_unmatched`. */
  function Saved(files: FileMap, matches: seq<MatchRow>, unmatched: seq<SsaLine>,
                 matchesPath: Path, unmatchedPath: Path): (r: FileMap)
    requires matchesPath != unmatchedPath
    ensures r.Keys == files.Keys + {matchesPath, unmatchedPath}
    ensures r[matchesPath] == MatchesFile(matches) && LinesIn(r, unmatchedPath) == Some(unmatched)
    ensures forall p :: p in files && p != matchesPath && p != unmatchedPath ==> r[p] == files[p]
  {
    files[matchesPath := MatchesFile(matches)][unmatchedPath := LinesFile(unmatched)]
  }

  /** The paths the program writes SSA lines to; the others get match
      rows. */
  predicate HoldsLines(p: Path) {
    p.UnmatchedHumAuto? || p.UnmatchedCielAuto? || p.UnmatchedChoiceIntermediate? || p.Unmatched?
  }

  /** Every file holds the kind of rows the program writes to its path. */
  predicate WellKinded(files: FileMap) {
    forall p :: p in files ==> (files[p].LinesFile? <==> HoldsLines(p))
  }

  /** Saving to a matches path and a lines path keeps the files well
      kinded, and the lines file can be read back. */
  lemma SavedWellKinded(files: FileMap, matches: seq<MatchRow>, unmatched: seq<SsaLine>,
                        matchesPath: Path, unmatchedPath: Path)
    requires WellKinded(files) && !HoldsLines(matchesPath) && HoldsLines(unmatchedPath)
    ensures WellKinded(Saved(files, matches, unmatched, matchesPath, unmatchedPath))
  {
  }

  /** The directory match_meds.py runs in. */
  class Store {
    var files: FileMap

    constructor (initial: FileMap)
      ensures files == initial
    {
      files := initial;
    }

    /** `os.path.isfile(p)` */
    predicate IsFile(p: Path)
      reads this
    {
      p in files
    }

    /** `write_to_csv(data, p)`: replaces the whole file. */
    method Write(p: Path, c: Contents)
      modifies this
      ensures files == old(files)[p := c]
    {
      files := files[p := c];
    }

    /** `save_matches_and_unmatched`: the matches file, then the
        remainder file. */
    method SaveMatchesAndUnmatched(matches: seq<MatchRow>, unmatched: seq<SsaLine>,
                                   matchesPath: Path, unmatchedPath: Path)
      requires matchesPath != unmatchedPath
      modifies this
      ensures files == Saved(old(files), matches, unmatched, matchesPath, unmatchedPath)
    {
      Write(matchesPath, MatchesFile(matches));
      Write(unmatchedPath, LinesFile(unmatched));
    }
  }
}
