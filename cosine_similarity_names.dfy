/** File names of the structure-metric cosine similarities
    (`code/data_analysis/calculate_structure_metrics_cosine_similarity.py`):
    reading gamma and alpha back out of a statistics file name, and naming
    the output file after them. */
module CosineSimilarityNames {
  import opened Wrappers
  import opened PyStrings
  import opened JsonValue

  /** The extension stripped from the base name. */
  const ParquetExt: string := ".parquet"

  /** The underscore-separated words of the fixed beginning of every
      output name, `structure_metrics_cosine_similarity_gamma`. */
  const OutputBaseWords: seq<string> := ["structure", "metrics", "cosine", "similarity", "gamma"]

  const OutputBase: string := Join(OutputBaseWords, "_")

  /** `parts.index(x)`: the first position holding `x`; ValueError when
      there is none. */
  function Index(parts: seq<string>, x: string): (r: Result<nat>)
    ensures r.Err? <==> x !in parts
    ensures r.Err? ==> r.error == ValueError
    ensures r.Ok? ==> r.value < |parts| && parts[r.value] == x && x !in parts[..r.value]
    decreases |parts|
  {
    if |parts| == 0 then Err(ValueError)
    else if parts[0] == x then Ok(0)
    else
      match Index(parts[1..], x)
      case Err(e) => Err(e)
      case Ok(i) =>
        assert parts[..i + 1] == [parts[0]] + parts[1..][..i];
        Ok(i + 1)
  }

  /** The first position of `x` is the position before which `x` does
      not occur. */
  lemma IndexAt(parts: seq<string>, x: string, i: nat)
    requires i < |parts| && parts[i] == x && x !in parts[..i]
    ensures Index(parts, x) == Ok(i)
  {
  }

  /** `".".join(parts[i + 1 : i + 3])`: the two parts after position `i`,
      fewer when the list ends first. */
  function ValueAfter(parts: seq<string>, i: nat): string
    requires i < |parts|
  {
    var hi := if i + 3 <= |parts| then i + 3 else |parts|;
    Join(parts[i + 1..hi], ".")
  }

  /** The parameter values, as the text `float` is applied to. */
  datatype Params = Params(gamma: string, alpha: string)

  /** The base name without the `.parquet` extension. */
  function Stem(path: string): string {
    Replace(Basename(path), ParquetExt, "")
  }

  /** `extract_parameters_from_filename(filename)`: a non-string is a
      ValueError, and so is a name without a `gamma` or an `alpha` part;
      otherwise each value is the two parts after its name, joined by a
      point. */
  function ExtractParametersFromFilename(filename: Json): (r: Result<Params>)
    ensures !filename.JStr? ==> r == Err(ValueError)
    ensures r.Err? ==> r.error == ValueError
    ensures filename.JStr? ==>
              var parts := Split(Stem(filename.s), "_");
              (r.Ok? <==> "gamma" in parts && "alpha" in parts)
  {
    if !filename.JStr? then Err(ValueError)
    else
      var parts := Split(Stem(filename.s), "_");
      var gammaIndex :- Index(parts, "gamma");
      var alphaIndex :- Index(parts, "alpha");
      Ok(Params(ValueAfter(parts, gammaIndex), ValueAfter(parts, alphaIndex)))
  }

  /** What the parts of the stem give: the values after the first `gamma`
      and the first `alpha`. */
  lemma ParamsOfParts(path: string, parts: seq<string>, i: nat, j: nat)
    requires Split(Stem(path), "_") == parts
    requires i + 2 < |parts| && parts[i] == "gamma" && "gamma" !in parts[..i]
    requires j + 2 < |parts| && parts[j] == "alpha" && "alpha" !in parts[..j]
    ensures ExtractParametersFromFilename(JStr(path))
            == Ok(Params(parts[i + 1] + "." + parts[i + 2], parts[j + 1] + "." + parts[j + 2]))
  {
    IndexAt(parts, "gamma", i);
    IndexAt(parts, "alpha", j);
    TwoJoin(parts, i + 1);
    TwoJoin(parts, j + 1);
  }

  lemma TwoJoin(parts: seq<string>, k: nat)
    requires k + 2 <= |parts|
    ensures Join(parts[k..k + 2], ".") == parts[k] + "." + parts[k + 1]
  {
    assert parts[k..k + 2] == [parts[k]] + [parts[k + 1]];
    JoinCons(parts[k], [parts[k + 1]], ".");
  }

  /** The stem of a `.parquet` file whose name has no point of its own is
      the name without the extension, whatever directory it is in. */
  lemma StemOf(dir: string, stem: string)
    requires '/' !in stem && '.' !in stem
    ensures Stem(PathJoin(dir, stem + ParquetExt)) == stem
  {
    BasenameOfPathJoin(dir, stem + ParquetExt);
    FindNoneWithoutFirstChar("", ParquetExt);
    ReplaceOnce(stem, ParquetExt, "", "");
    assert stem + ParquetExt + "" == stem + ParquetExt;
  }

  /** `str(value).replace(".", "_")`. */
  function Underscored(value: string): string {
    Replace(value, ".", "_")
  }

  /** The output file name for one pair of parameters and cascade type:
      the fixed beginning, gamma, `alpha`, alpha and the type, joined by
      underscores. */
  function OutputName(gamma: string, alpha: string, cascadeType: string): string {
    OutputBase + "_" + Underscored(gamma) + "_" + "alpha" + "_" + Underscored(alpha) + "_" + cascadeType + ParquetExt
  }

  /** A value with one point in it is written with an underscore. */
  lemma UnderscoredValue(whole: string, frac: string)
    requires '.' !in whole && '.' !in frac
    ensures Underscored(whole + "." + frac) == whole + "_" + frac
  {
    FindNoneWithoutFirstChar(frac, ".");
    ReplaceOnce(whole, ".", frac, "_");
  }

  /** Words that end in `gamma`, with no earlier `gamma`, no `alpha`, and
      no underscore, point or slash. */
  predicate GammaEnded(words: seq<string>) {
    |words| >= 1 && words[|words| - 1] == "gamma" && "gamma" !in words[..|words| - 1] && "alpha" !in words &&
    forall w :: w in words ==> '_' !in w && '.' !in w && '/' !in w
  }

  lemma OutputBaseGammaEnded()
    ensures GammaEnded(OutputBaseWords)
  {
    assert OutputBaseWords[..4] == ["structure", "metrics", "cosine", "similarity"];
    OutputBaseWordsPlain();
  }

  /** No word of the output base holds an underscore, a point or a slash. */
  lemma OutputBaseWordsPlain()
    ensures forall w :: w in OutputBaseWords ==> '_' !in w && '.' !in w && '/' !in w
  {
    assert forall w :: w in OutputBaseWords ==> forall c :: c in w ==> 'a' <= c <= 'z';
  }

  /** A stem holding the two values: the words, gamma's two halves,
      `alpha` and alpha's two halves, joined by underscores. */
  function ValuesStem(words: seq<string>, g1: string, g2: string, a1: string, a2: string): string {
    Join(words, "_") + "_" + g1 + "_" + g2 + "_" + "alpha" + "_" + a1 + "_" + a2
  }

  lemma ValuesStemParts(words: seq<string>, g1: string, g2: string, a1: string, a2: string)
    requires |words| >= 1 && forall w :: w in words ==> '_' !in w
    requires '_' !in g1 && '_' !in g2 && '_' !in a1 && '_' !in a2
    ensures Split(ValuesStem(words, g1, g2, a1, a2), "_") == words + [g1, g2, "alpha", a1, a2]
  {
    var base := Join(words, "_");
    SplitJoinChar(words, '_');
    SplitCharAppend(base, '_', g1);
    SplitCharNone(g1, '_');
    SplitCharAppend(base + "_" + g1, '_', g2);
    SplitCharNone(g2, '_');
    SplitCharAppend(base + "_" + g1 + "_" + g2, '_', "alpha");
    SplitCharNone("alpha", '_');
    SplitCharAppend(base + "_" + g1 + "_" + g2 + "_" + "alpha", '_', a1);
    SplitCharNone(a1, '_');
    SplitCharAppend(base + "_" + g1 + "_" + g2 + "_" + "alpha" + "_" + a1, '_', a2);
    SplitCharNone(a2, '_');
  }

  /** Reading back a stem made of words that end in `gamma` and values
      written in digits, with whatever underscore-free parts follow. */
  lemma ReadBack(words: seq<string>, dir: string, g1: string, g2: string, a1: string, a2: string, stem: string, rest: seq<string>)
    requires GammaEnded(words)
    requires AllDigits(g1) && AllDigits(g2) && AllDigits(a1) && AllDigits(a2)
    requires '/' !in stem && '.' !in stem
    requires Split(stem, "_") == words + [g1, g2, "alpha", a1, a2] + rest
    ensures ExtractParametersFromFilename(JStr(PathJoin(dir, stem + ParquetExt)))
            == Ok(Params(g1 + "." + g2, a1 + "." + a2))
  {
    StemOf(dir, stem);
    var parts := words + [g1, g2, "alpha", a1, a2] + rest;
    var n := |words|;
    MarkersPlaced(words, g1, g2, a1, a2, rest, parts);
    ParamsOfParts(PathJoin(dir, stem + ParquetExt), parts, n - 1, n + 2);
  }

  /** In the parts of such a stem, `gamma` first appears as the last word
      and `alpha` first appears right after gamma's two halves. */
  lemma MarkersPlaced(words: seq<string>, g1: string, g2: string, a1: string, a2: string, rest: seq<string>,
                      parts: seq<string>)
    requires GammaEnded(words)
    requires AllDigits(g1) && AllDigits(g2)
    requires parts == words + [g1, g2, "alpha", a1, a2] + rest
    ensures |words| + 4 < |parts|
    ensures parts[|words| - 1] == "gamma" && "gamma" !in parts[..|words| - 1]
    ensures parts[|words| + 2] == "alpha" && "alpha" !in parts[..|words| + 2]
    ensures parts[|words|] == g1 && parts[|words| + 1] == g2
    ensures parts[|words| + 3] == a1 && parts[|words| + 4] == a2
  {
    DigitsOnly(g1);
    DigitsOnly(g2);
    var n := |words|;
    assert parts[..n - 1] == words[..n - 1];
    assert parts[..n + 2] == words + [g1, g2];
  }

  /** Reading an output name back: for values written as digits, a point
      and digits, and a cascade type without underscores, points or
      slashes, the parameters come back as they went in. */
  lemma OutputNameRoundTrip(dir: string, g1: string, g2: string, a1: string, a2: string, cascadeType: string)
    requires AllDigits(g1) && AllDigits(g2) && AllDigits(a1) && AllDigits(a2)
    requires '_' !in cascadeType && '.' !in cascadeType && '/' !in cascadeType
    ensures var name := OutputName(g1 + "." + g2, a1 + "." + a2, cascadeType);
            ExtractParametersFromFilename(JStr(PathJoin(dir, name)))
            == Ok(Params(g1 + "." + g2, a1 + "." + a2))
  {
    DigitsOnly(g1);
    DigitsOnly(g2);
    DigitsOnly(a1);
    DigitsOnly(a2);
    UnderscoredValue(g1, g2);
    UnderscoredValue(a1, a2);
    OutputBaseGammaEnded();
    var words := OutputBaseWords;
    var values := ValuesStem(words, g1, g2, a1, a2);
    TypedStemParts(words, g1, g2, a1, a2, cascadeType);
    ReadBack(words, dir, g1, g2, a1, a2, values + "_" + cascadeType, [cascadeType]);
    NameRegrouped(OutputBase, g1, g2, a1, a2, cascadeType);
  }

  /** The stem of an output name, the values followed by the cascade type:
      its parts, and no point or slash in it. */
  lemma TypedStemParts(words: seq<string>, g1: string, g2: string, a1: string, a2: string, cascadeType: string)
    requires GammaEnded(words)
    requires '.' !in g1 && '_' !in g1 && '/' !in g1 && '.' !in g2 && '_' !in g2 && '/' !in g2
    requires '.' !in a1 && '_' !in a1 && '/' !in a1 && '.' !in a2 && '_' !in a2 && '/' !in a2
    requires '_' !in cascadeType && '.' !in cascadeType && '/' !in cascadeType
    ensures var stem := ValuesStem(words, g1, g2, a1, a2) + "_" + cascadeType;
            Split(stem, "_") == words + [g1, g2, "alpha", a1, a2] + [cascadeType] &&
            '/' !in stem && '.' !in stem
  {
    var values := ValuesStem(words, g1, g2, a1, a2);
    ValuesStemParts(words, g1, g2, a1, a2);
    SplitCharAppend(values, '_', cascadeType);
    SplitCharNone(cascadeType, '_');
    JoinCharFree(words, "_", '.');
    JoinCharFree(words, "_", '/');
  }

  /** The words before the values in the docstring's example,
      `cascade_metrics_statistics_gamma_0_25_alpha_1_1.parquet`. */
  const DocstringWords: seq<string> := ["cascade", "metrics", "statistics", "gamma"]

  /** The example of the docstring: `{'gamma': '0.25', 'alpha': '1.1'}`
      (before the conversion to numbers). */
  lemma DocstringExample(words: seq<string>)
    requires words == DocstringWords
    ensures ExtractParametersFromFilename(JStr(ValuesStem(words, "0", "25", "1", "1") + ParquetExt))
            == Ok(Params("0.25", "1.1"))
  {
    DocstringWordsGammaEnded(words);
    DocstringDigits();
    BareStemReadBack(words, "0", "25", "1", "1");
    DocstringValues();
  }

  lemma DocstringDigits()
    ensures AllDigits("0") && AllDigits("25") && AllDigits("1")
  {
  }

  /** A stem of two values without a directory reads back as those values. */
  lemma BareStemReadBack(words: seq<string>, g1: string, g2: string, a1: string, a2: string)
    requires GammaEnded(words)
    requires AllDigits(g1) && AllDigits(g2) && AllDigits(a1) && AllDigits(a2)
    ensures ExtractParametersFromFilename(JStr(ValuesStem(words, g1, g2, a1, a2) + ParquetExt))
            == Ok(Params(g1 + "." + g2, a1 + "." + a2))
  {
    var stem := ValuesStem(words, g1, g2, a1, a2);
    DigitsOnly(g1);
    DigitsOnly(g2);
    DigitsOnly(a1);
    DigitsOnly(a2);
    ValuesStemFree(words, g1, g2, a1, a2);
    ReadBack(words, "", g1, g2, a1, a2, stem, []);
    assert PathJoin("", stem + ParquetExt) == stem + ParquetExt;
  }

  /** The parts of a stem holding two values, and no point or slash in it. */
  lemma ValuesStemFree(words: seq<string>, g1: string, g2: string, a1: string, a2: string)
    requires GammaEnded(words)
    requires '.' !in g1 && '_' !in g1 && '/' !in g1 && '.' !in g2 && '_' !in g2 && '/' !in g2
    requires '.' !in a1 && '_' !in a1 && '/' !in a1 && '.' !in a2 && '_' !in a2 && '/' !in a2
    ensures var stem := ValuesStem(words, g1, g2, a1, a2);
            Split(stem, "_") == words + [g1, g2, "alpha", a1, a2] + [] &&
            '/' !in stem && '.' !in stem
  {
    ValuesStemParts(words, g1, g2, a1, a2);
    assert words + [g1, g2, "alpha", a1, a2] + [] == words + [g1, g2, "alpha", a1, a2];
    JoinCharFree(words, "_", '.');
    JoinCharFree(words, "_", '/');
  }

  lemma DocstringWordsGammaEnded(words: seq<string>)
    requires words == DocstringWords
    ensures GammaEnded(words)
  {
    assert words[..3] == ["cascade", "metrics", "statistics"];
  }

  lemma DocstringValues()
    ensures "0" + "." + "25" == "0.25" && "1" + "." + "1" == "1.1"
  {
  }

  /** The output name with the halves of each value as parts of their own. */
  lemma NameRegrouped(base: string, g1: string, g2: string, a1: string, a2: string, cascadeType: string)
    ensures base + "_" + (g1 + "_" + g2) + "_" + "alpha" + "_" + (a1 + "_" + a2) + "_" + cascadeType + ParquetExt
            == base + "_" + g1 + "_" + g2 + "_" + "alpha" + "_" + a1 + "_" + a2 + "_" + cascadeType + ParquetExt
  {
    var p1 := base + "_";
    assert p1 + (g1 + "_" + g2) == p1 + g1 + "_" + g2;
    var p2 := p1 + g1 + "_" + g2 + "_" + "alpha" + "_";
    assert p2 + (a1 + "_" + a2) == p2 + a1 + "_" + a2;
  }

  /** Digits are none of the separators and no parameter name. */
  lemma DigitsOnly(s: string)
    requires AllDigits(s)
    ensures '.' !in s && '_' !in s && '/' !in s && s != "alpha"
  {
    if |s| > 0 {
      assert IsDigit(s[0]);
    }
  }
}
