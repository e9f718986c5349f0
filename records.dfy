/**
 * The rows that flow through match_meds.py and the two reference
 * mappings built from the HUM drug list and the CIEL concept list.
 */
module Records {
  import opened Text
  import Names
  import opened Fuzzy

  /** `(ssa_code, ssa_name, moa, clean_ssa_name)`, built in `main`. */
  datatype SsaLine = SsaLine(code: string, name: string, moa: string, cleanName: string)

  /** A match's score column: an automatic score, or `"-"` for one the
      operator chose. */
  datatype MatchScore = Auto(value: Percent) | Chosen

  /** `[ssa_code, ssa_name, moa, concept_code, concept_name, score]` */
  datatype MatchRow = MatchRow(
    ssaCode: string, ssaName: string, moa: string,
    refCode: string, refName: string, score: MatchScore)

  /** One object of the CIEL JSON list: its `id` as text and its
      `display_name`. */
  datatype CielItem = CielItem(id: string, displayName: string)

  /** A row of the SSA CSV that `main` can index: code, name, moa, and a
      name with at least one word for `clean_ssa_drug_name`. */
  predicate SsaRows(rows: seq<seq<string>>) {
    forall k :: 0 <= k < |rows| ==> |rows[k]| >= 3 && HasNonSpace(rows[k][1])
  }

  /** A row of the HUM CSV carries the drug name in column 2 and the
      concept code in column 3. */
  predicate HumRows(rows: seq<seq<string>>) {
    forall k :: 0 <= k < |rows| ==> |rows[k]| >= 4
  }

  /** `[(l[0], l[1], l[2], clean_ssa_drug_name(l[1])) for l in ssa_csv]` */
  function SsaLines(rows: seq<seq<string>>): (lines: seq<SsaLine>)
    requires SsaRows(rows)
    ensures |lines| == |rows|
    ensures forall k :: 0 <= k < |rows| ==>
      lines[k].code == rows[k][0] && lines[k].name == rows[k][1] && lines[k].moa == rows[k][2]
    ensures forall k :: 0 <= k < |rows| ==> lines[k].cleanName != []
  {
    seq(|rows|, k requires 0 <= k < |rows| =>
      SsaLine(rows[k][0], rows[k][1], rows[k][2], Names.CleanSsaDrugName(rows[k][1])))
  }

  function HumPairs(rows: seq<seq<string>>): seq<Entry>
    requires HumRows(rows)
  {
    seq(|rows|, k requires 0 <= k < |rows| => Entry(rows[k][3], Names.CleanHumDrugName(rows[k][2])))
  }

  /** `{l[3]: clean_hum_drug_name(l[2]) for l in hum_csv}` */
  function HumMapping(rows: seq<seq<string>>): (m: Mapping)
    requires HumRows(rows)
    ensures UniqueCodes(m)
    ensures Codes(m) == set k | 0 <= k < |rows| :: rows[k][3]
    ensures m == [] <==> rows == []
  {
    var pairs := HumPairs(rows);
    assert Codes(pairs) == set k | 0 <= k < |rows| :: rows[k][3] by {
      forall c | c in Codes(pairs) ensures c in set k | 0 <= k < |rows| :: rows[k][3] {
        var e :| e in pairs && e.code == c;
        var k :| 0 <= k < |pairs| && pairs[k] == e;
      }
      forall k | 0 <= k < |rows| ensures rows[k][3] in Codes(pairs) {
        assert pairs[k] in pairs;
      }
    }
    assert rows != [] ==> rows[0][3] in Codes(pairs);
    BuildMapping(pairs)
  }

  /** A duplicated HUM concept code keeps the clean name of its last row. */
  lemma HumMappingLastRowWins(rows: seq<seq<string>>, e: Entry)
    requires HumRows(rows)
    requires e in HumMapping(rows)
    ensures exists k :: 0 <= k < |rows| && rows[k][3] == e.code &&
                        e.name == Names.CleanHumDrugName(rows[k][2]) &&
                        (forall k' :: k < k' < |rows| ==> rows[k'][3] != e.code)
  {
    var pairs := HumPairs(rows);
    BuildMappingLastWins(pairs);
    assert IsLastFor(pairs, e);
    var k :| 0 <= k < |pairs| && pairs[k] == e &&
      forall k' :: k < k' < |pairs| ==> pairs[k'].code != e.code;
    assert forall k' :: k < k' < |rows| ==> rows[k'][3] == pairs[k'].code;
  }

  /** The CIEL concept code of an item: `"CIEL:{}".format(i["id"])`. */
  function CielCode(item: CielItem): (code: string)
    ensures |code| >= 5 && code[..5] == "CIEL:"
  {
    "CIEL:" + item.id
  }

  function CielPairs(items: seq<CielItem>): seq<Entry> {
    seq(|items|, k requires 0 <= k < |items| =>
      Entry(CielCode(items[k]), Names.CleanCielDrugName(items[k].displayName)))
  }

  /** `{"CIEL:{}".format(i["id"]): clean_ciel_drug_name(i["display_name"]) for i in ciel_data}` */
  function CielMapping(items: seq<CielItem>): (m: Mapping)
    ensures UniqueCodes(m)
    ensures Codes(m) == set k | 0 <= k < |items| :: CielCode(items[k])
    ensures m == [] <==> items == []
  {
    var pairs := CielPairs(items);
    assert Codes(pairs) == set k | 0 <= k < |items| :: CielCode(items[k]) by {
      forall c | c in Codes(pairs) ensures c in set k | 0 <= k < |items| :: CielCode(items[k]) {
        var e :| e in pairs && e.code == c;
        var k :| 0 <= k < |pairs| && pairs[k] == e;
      }
      forall k | 0 <= k < |items| ensures CielCode(items[k]) in Codes(pairs) {
        assert pairs[k] in pairs;
      }
    }
    assert items != [] ==> CielCode(items[0]) in Codes(pairs);
    BuildMapping(pairs)
  }

  /** A duplicated CIEL id keeps the display name of its last item. */
  lemma CielMappingLastItemWins(items: seq<CielItem>, e: Entry)
    requires e in CielMapping(items)
    ensures exists k :: 0 <= k < |items| && CielCode(items[k]) == e.code &&
                        e.name == Names.CleanCielDrugName(items[k].displayName) &&
                        (forall k' :: k < k' < |items| ==> CielCode(items[k']) != e.code)
  {
    var pairs := CielPairs(items);
    BuildMappingLastWins(pairs);
    assert IsLastFor(pairs, e);
    var k :| 0 <= k < |pairs| && pairs[k] == e &&
      forall k' :: k < k' < |pairs| ==> pairs[k'].code != e.code;
    assert forall k' :: k < k' < |items| ==> CielCode(items[k']) == pairs[k'].code;
  }
}
