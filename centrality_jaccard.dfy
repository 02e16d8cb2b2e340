/** Comparing the top-ranked users of the naive and the PDI Bluesky
    networks (`006_calculate_centrality_jaccard.py`): the Jaccard
    similarity of two user sets, the parameters read from a centrality
    file name, and the larger set size. */
module CentralityJaccard {
  import opened Wrappers
  import opened PyStrings
  import opened CascadeTree
  import CascadeSimilarity

  /** `calc_jaccard_similarity`: |S1 ∩ S2| / |S1 ∪ S2|, raising when both
      sets are empty. */
  function CalcJaccardSimilarity(s1: set<UserId>, s2: set<UserId>): (r: Result<real>)
    ensures r.Err? <==> s1 == {} && s2 == {}
    ensures r.Err? ==> r.error == ZeroDivisionError
    ensures r.Ok? ==> r.value == (|s1 * s2| as real) / (|s1 + s2| as real)
  {
    var intersection := s1 * s2;
    var union := s1 + s2;
    if |union| == 0 then Err(ZeroDivisionError)
    else Ok((|intersection| as real) / (|union| as real))
  }

  /** The similarity is symmetric, lies in [0, 1], and is 1 exactly when
      the two sets are equal. */
  lemma JaccardProperties(s1: set<UserId>, s2: set<UserId>)
    requires s1 != {} || s2 != {}
    ensures CalcJaccardSimilarity(s1, s2) == CalcJaccardSimilarity(s2, s1)
    ensures 0.0 <= CalcJaccardSimilarity(s1, s2).value <= 1.0
    ensures CalcJaccardSimilarity(s1, s2).value == 1.0 <==> s1 == s2
  {
    assert s1 * s2 == s2 * s1 && s1 + s2 == s2 + s1;
    assert s1 * s2 <= s1 + s2;
    CascadeSimilarity.SubsetCard(s1 * s2, s1 + s2);
    var u := s1 + s2;
    if s1 != {} {
      var e :| e in s1;
      assert e in u;
    } else {
      var e :| e in s2;
      assert e in u;
    }
    CascadeSimilarity.RatioInUnit(|s1 * s2|, |u|);
    if s1 != s2 {
      assert !(s1 <= s2) || !(s2 <= s1);
      var e :| (e in s1 && e !in s2) || (e in s2 && e !in s1);
      CascadeSimilarity.ProperSubsetCard(s1 * s2, u, e);
    } else {
      assert s1 * s2 == u;
      assert (|u| as real) / (|u| as real) == 1.0;
    }
  }

  /** `max(len(naive_set), len(pdi_set))`. */
  function BiggerSetSize(s1: set<UserId>, s2: set<UserId>): (n: nat)
    ensures n >= |s1| && n >= |s2|
    ensures n == |s1| || n == |s2|
  {
    if |s1| >= |s2| then |s1| else |s2|
  }

  /** The parameters of one PDI centrality file. */
  datatype Params = Params(verNum: int, gamma: string, alpha: string)

  /** `extract_params`: drop the directory and the extension, then read
      the text after the last "network_v_", "gamma_" and "alpha_", each up
      to the next "_".  The version must be an integer; gamma and alpha
      are kept as text. */
  function ExtractParams(filePath: string): (r: Result<Params>)
    ensures r.Ok? ==> '_' !in r.value.gamma && '_' !in r.value.alpha
    ensures r.Err? ==> r.error == ValueError
  {
    var basename := SplitExtRoot(Basename(filePath));
    var verText := FieldAfter(basename, "network_v_");
    var gamma := FieldAfter(basename, "gamma_");
    var alpha := FieldAfter(basename, "alpha_");
    match ParseInt(verText)
    case Err(e) => Err(e)
    case Ok(n) => Ok(Params(n, gamma, alpha))
  }

  /** `s.split(marker)[-1].split("_")[0]`. */
  function FieldAfter(s: string, marker: string): (r: string)
    requires |marker| > 0
    ensures '_' !in r
  {
    var parts := Split(Last(Split(s, marker)), "_");
    SplitCharPiecesFree(Last(Split(s, marker)), '_');
    parts[0]
  }

  /** The field after a marker that occurs once, up to the next "_". */
  lemma FieldAfterOf(pre: string, marker: string, field: string, tail: string)
    requires NoSelfOverlap(marker) && '_' !in field
    requires FindFrom(field + tail, marker, 0).None?
    requires tail == "" || tail[0] == '_'
    ensures FieldAfter(pre + marker + field + tail, marker) == field
  {
    assert pre + marker + field + tail == pre + marker + (field + tail);
    LastSplit(pre, marker, field + tail);
    if tail == "" {
      assert field + tail == field;
      SplitCharNone(field, '_');
    } else {
      assert field + tail == field + "_" + tail[1..];
      SplitCharConcat(field, '_', tail[1..]);
    }
  }

  /** The name, without directory and extension, of the centrality file
      of version text `vt` and parameter texts `g` and `a`. */
  function FileStem(vt: string, g: string, a: string): (r: string)
    ensures |r| > 0 && r[0] == 'n'
  {
    "network_v_" + vt + "_gamma_" + g + "_alpha_" + a
  }

  lemma VersionField(vt: string, g: string, a: string)
    requires NumericText(vt) && NumericText(g) && NumericText(a)
    ensures FieldAfter(FileStem(vt, g, a), "network_v_") == vt
  {
    NumericTextLacks(vt);
    NumericTextLacks(g);
    NumericTextLacks(a);
    var tail := "_gamma_" + g + "_alpha_" + a;
    assert 'n' !in vt + tail;
    FindNoneWithoutFirstChar(vt + tail, "network_v_");
    assert FileStem(vt, g, a) == "" + "network_v_" + vt + tail;
    FieldAfterOf("", "network_v_", vt, tail);
  }

  lemma GammaField(vt: string, g: string, a: string)
    requires NumericText(vt) && NumericText(g) && NumericText(a)
    ensures FieldAfter(FileStem(vt, g, a), "gamma_") == g
  {
    NumericTextLacks(g);
    NumericTextLacks(a);
    var tail := "_alpha_" + a;
    assert 'g' !in g + tail;
    FindNoneWithoutFirstChar(g + tail, "gamma_");
    assert FileStem(vt, g, a) == ("network_v_" + vt + "_") + "gamma_" + g + tail;
    FieldAfterOf("network_v_" + vt + "_", "gamma_", g, tail);
  }

  lemma AlphaField(vt: string, g: string, a: string)
    requires NumericText(vt) && NumericText(g) && NumericText(a)
    ensures FieldAfter(FileStem(vt, g, a), "alpha_") == a
  {
    NumericTextLacks(a);
    FindNoneWithoutFirstChar(a + "", "alpha_");
    assert "alpha_"[5] !in "alpha_"[..5];
    assert FileStem(vt, g, a) == ("network_v_" + vt + "_gamma_" + g + "_") + "alpha_" + a + "";
    FieldAfterOf("network_v_" + vt + "_gamma_" + g + "_", "alpha_", a, "");
  }

  /** The file written for version `v` with parameter texts `g` and `a`
      reads back as exactly those parameters, wherever it sits. */
  lemma ExtractParamsRoundTrip(dir: string, v: nat, g: string, a: string)
    requires NumericText(g) && NumericText(a)
    ensures ExtractParams(dir + "/" + FileStem(NatToString(v), g, a) + ".parquet") == Ok(Params(v, g, a))
  {
    var vt := NatToString(v);
    var stem := FileStem(vt, g, a);
    assert NumericText(vt);
    NumericTextLacks(vt);
    NumericTextLacks(g);
    NumericTextLacks(a);
    assert '/' !in stem;
    StemOfPath(dir, stem);
    VersionField(vt, g, a);
    GammaField(vt, g, a);
    AlphaField(vt, g, a);
    ParseZFilledNat(v, 0);
  }

  /** Directory and ".parquet" stripped from a file path. */
  lemma StemOfPath(dir: string, stem: string)
    requires '/' !in stem && |stem| > 0 && stem[0] != '.'
    ensures SplitExtRoot(Basename(dir + "/" + stem + ".parquet")) == stem
  {
    assert dir + "/" + stem + ".parquet" == dir + "/" + (stem + "." + "parquet");
    BasenameOfJoin(dir, stem + "." + "parquet");
    SplitExtRootOf(stem, "parquet");
  }

  lemma NumericTextLacks(t: string)
    requires NumericText(t)
    ensures '_' !in t && '/' !in t && 'n' !in t && 'g' !in t && 'a' !in t
  {
  }

  /** The example of the function's own documentation:
      `network_v_100_gamma_0.5_alpha_1.1.parquet` gives version 100,
      gamma "0.5" and alpha "1.1". */
  lemma ExtractParamsExample(dir: string, g: string, a: string)
    requires g == "0.5" && a == "1.1"
    ensures ExtractParams(dir + "/" + FileStem(NatToString(100), g, a) + ".parquet") == Ok(Params(100, g, a))
  {
    assert NumericText(g) && NumericText(a);
    ExtractParamsRoundTrip(dir, 100, g, a);
  }
}
