/** Naming the midterm networks whose communities are detected
    (`midterm/code/data_analysis/010_detect_communities.py`): the gamma and
    alpha values read back from their directory names, the version read
    from each network's file name, and the list of networks with the naive
    one first.  Values are kept as text; the final `float(...)` is not
    modelled. */
module DetectCommunities {
  import opened Wrappers
  import opened PyStrings

  const GammaDirs: seq<string> := ["gamma_0_5", "gamma_0_25", "gamma_0_75"]
  const AlphaDirs: seq<string> := ["alpha_1_1", "alpha_2_0", "alpha_3_0"]

  /** `convert_dir_name_to_numeric(dir_name, type)`: only "gamma" and
      "alpha" are accepted (the default `None` is not); every "{type}_" is
      removed and the remaining "_" become ".". */
  function ConvertDirNameToNumeric(dirName: string, typ: Option<string>): (r: Result<string>)
    ensures r.Err? <==> typ != Some("gamma") && typ != Some("alpha")
    ensures r.Err? ==> r.error == TypeError
    ensures r.Ok? ==> '_' !in r.value
  {
    if typ != Some("gamma") && typ != Some("alpha") then Err(TypeError)
    else
      var tail := Replace(dirName, typ.value + "_", "");
      SplitCharPiecesFree(tail, '_');
      JoinCharFree(Split(tail, "_"), ".", '_');
      Ok(Join(Split(tail, "_"), "."))
  }

  /** The directory of a parameter value: "{type}_" and the value with
      "." written as "_". */
  function ParamDirName(typ: string, value: string): string {
    typ + "_" + MapChar(value, '.', '_')
  }

  /** A directory name written from a decimal value reads back as that
      value. */
  lemma DirNameRoundTrip(typ: string, value: string)
    requires typ == "gamma" || typ == "alpha"
    requires NumericText(value)
    ensures ConvertDirNameToNumeric(ParamDirName(typ, value), Some(typ)) == Ok(value)
  {
    var m := MapChar(value, '.', '_');
    PrefixRemoved(typ, value);
    ReplaceIsSplitJoin(m, "_", ".");
    ReplaceCharIsMap(m, '_', '.');
    MapCharBack(value, '.', '_');
  }

  /** Removing every "{type}_" from such a directory name leaves the value
      with its points written as underscores. */
  lemma PrefixRemoved(typ: string, value: string)
    requires typ == "gamma" || typ == "alpha"
    requires NumericText(value)
    ensures Replace(ParamDirName(typ, value), typ + "_", "") == MapChar(value, '.', '_')
  {
    assert '_' !in value && typ[0] !in value;
    LeadingPrefixRemoved(typ + "_", MapChar(value, '.', '_'));
  }

  /** A prefix whose first character the rest lacks occurs only once. */
  lemma LeadingPrefixRemoved(pat: string, m: string)
    requires |pat| > 0 && pat[0] !in m
    ensures Replace(pat + m, pat, "") == m
  {
    FindNoneWithoutFirstChar(m, pat);
    ReplaceOnce("", pat, m, "");
    assert "" + pat + m == pat + m;
    assert "" + "" + m == m;
  }

  const GammaValues: seq<string> := ["0.5", "0.25", "0.75"]
  const AlphaValues: seq<string> := ["1.1", "2.0", "3.0"]

  /** The three gamma directories of the script read as 0.5, 0.25 and
      0.75. */
  lemma ScriptGammaDirectories(k: nat)
    requires k < 3
    ensures ConvertDirNameToNumeric(GammaDirs[k], Some("gamma")) == Ok(GammaValues[k])
  {
    var m := MapChar(GammaValues[k], '.', '_');
    if k == 0 {
      assert m == "0_5";
    } else if k == 1 {
      assert m == "0_25";
    } else {
      assert m == "0_75";
    }
    assert GammaDirs[k] == ParamDirName("gamma", GammaValues[k]);
    DirNameRoundTrip("gamma", GammaValues[k]);
  }

  /** The three alpha directories of the script read as 1.1, 2.0 and
      3.0. */
  lemma ScriptAlphaDirectories(k: nat)
    requires k < 3
    ensures ConvertDirNameToNumeric(AlphaDirs[k], Some("alpha")) == Ok(AlphaValues[k])
  {
    var m := MapChar(AlphaValues[k], '.', '_');
    if k == 0 {
      assert m == "1_1";
    } else if k == 1 {
      assert m == "2_0";
    } else {
      assert m == "3_0";
    }
    assert AlphaDirs[k] == ParamDirName("alpha", AlphaValues[k]);
    DirNameRoundTrip("alpha", AlphaValues[k]);
  }

  // ---------------------------------------------------------------------
  // Network versions and the list of networks
  // ---------------------------------------------------------------------

  const VersionPrefix: string := "network_version_"
  const NetworkExt: string := ".gmlz"

  /** The version text of a network file: its basename with every
      "network_version_" and every ".gmlz" removed. */
  function NetVersion(fp: string): (v: string)
    ensures '/' !in v
  {
    var stripped := Replace(Basename(fp), VersionPrefix, "");
    var v := Replace(stripped, NetworkExt, "");
    assert '/' !in stripped by {
      ReplaceIsSplitJoin(Basename(fp), VersionPrefix, "");
      PieceSlashFree(Basename(fp), VersionPrefix);
    }
    assert '/' !in v by {
      ReplaceIsSplitJoin(stripped, NetworkExt, "");
      PieceSlashFree(stripped, NetworkExt);
    }
    v
  }

  /** Removing a separator with no "/" cannot bring one in. */
  lemma PieceSlashFree(s: string, sep: string)
    requires |sep| > 0 && '/' !in s
    ensures '/' !in Join(Split(s, sep), "")
  {
    JoinSplit(s, sep);
    SlashFreeJoin(Split(s, sep), sep);
  }

  lemma {:induction false} SlashFreeJoin(parts: seq<string>, sep: string)
    requires '/' !in Join(parts, sep)
    ensures '/' !in Join(parts, "")
    decreases |parts|
  {
    if |parts| > 1 {
      JoinCons(parts[0], parts[1..], sep);
      JoinCons(parts[0], parts[1..], "");
      assert parts == [parts[0]] + parts[1..];
      assert '/' !in Join(parts[1..], sep) by {
        forall i | 0 <= i < |Join(parts[1..], sep)|
          ensures Join(parts[1..], sep)[i] != '/'
        {
          assert Join(parts, sep)[|parts[0]| + |sep| + i] == Join(parts[1..], sep)[i];
        }
      }
      SlashFreeJoin(parts[1..], sep);
      assert '/' !in parts[0] by {
        forall i | 0 <= i < |parts[0]| ensures parts[0][i] != '/' {
          assert Join(parts, sep)[i] == parts[0][i];
        }
      }
    }
  }

  /** A network file named after its version text reads back as that
      text, in any directory. */
  lemma NetVersionOf(dir: string, v: string)
    requires AllDigits(v)
    ensures NetVersion(dir + "/" + VersionPrefix + v + NetworkExt) == v
  {
    var name := VersionPrefix + v + NetworkExt;
    assert '/' !in name;
    assert dir + "/" + VersionPrefix + v + NetworkExt == dir + "/" + name;
    BasenameOfJoin(dir, name);
    VersionPrefixRemoved(v);
    NetworkExtRemoved(v);
  }

  /** Removing the version prefix from a versioned name leaves the version
      text and the extension. */
  lemma VersionPrefixRemoved(v: string)
    requires AllDigits(v)
    ensures Replace(VersionPrefix + v + NetworkExt, VersionPrefix, "") == v + NetworkExt
  {
    assert 'n' !in v + NetworkExt;
    FindNoneWithoutFirstChar(v + NetworkExt, VersionPrefix);
    assert VersionPrefix + v + NetworkExt == "" + VersionPrefix + (v + NetworkExt);
    ReplaceOnce("", VersionPrefix, v + NetworkExt, "");
    assert "" + "" + (v + NetworkExt) == v + NetworkExt;
  }

  /** Removing the extension then leaves the version text. */
  lemma NetworkExtRemoved(v: string)
    requires AllDigits(v)
    ensures Replace(v + NetworkExt, NetworkExt, "") == v
  {
    assert '.' !in v && '.' !in "";
    FindNoneWithoutFirstChar("", NetworkExt);
    ReplaceOnce(v, NetworkExt, "", "");
    assert v + NetworkExt + "" == v + NetworkExt;
    assert v + "" + "" == v;
  }

  /** The example of the script: "network_version_001.gmlz" is "001". */
  lemma NetVersionExample(dir: string)
    ensures NetVersion(dir + "/network_version_001.gmlz") == "001"
  {
    assert dir + "/network_version_001.gmlz" == dir + "/" + VersionPrefix + "001" + NetworkExt;
    NetVersionOf(dir, "001");
  }

  /** One entry of `file_paths`; the naive network has no version, gamma
      or alpha. */
  datatype NetworkInfo = NetworkInfo(netVersion: Option<string>, gamma: Option<string>, alpha: Option<string>, filePath: string)

  /** The entries of one gamma/alpha directory, for its sorted files. */
  function VersionEntries(fps: seq<string>, gamma: string, alpha: string): (es: seq<NetworkInfo>)
    ensures |es| == |fps|
    ensures forall k :: 0 <= k < |fps| ==>
              es[k] == NetworkInfo(Some(NetVersion(fps[k])), Some(gamma), Some(alpha), fps[k])
  {
    seq(|fps|, k requires 0 <= k < |fps| => NetworkInfo(Some(NetVersion(fps[k])), Some(gamma), Some(alpha), fps[k]))
  }

  /** The entries of every alpha directory under one gamma directory.
      `filesIn(g, a)` stands for the sorted file listing of that directory. */
  function AlphaEntries(gammaDir: string, gamma: string, alphaDirs: seq<string>,
                        filesIn: (string, string) -> seq<string>): (r: Result<seq<NetworkInfo>>)
    decreases |alphaDirs|
  {
    if |alphaDirs| == 0 then Ok([])
    else
      var before :- AlphaEntries(gammaDir, gamma, alphaDirs[..|alphaDirs| - 1], filesIn);
      var alphaDir := alphaDirs[|alphaDirs| - 1];
      var alpha :- ConvertDirNameToNumeric(alphaDir, Some("alpha"));
      Ok(before + VersionEntries(filesIn(gammaDir, alphaDir), gamma, alpha))
  }

  function GammaEntries(gammaDirs: seq<string>, alphaDirs: seq<string>,
                        filesIn: (string, string) -> seq<string>): (r: Result<seq<NetworkInfo>>)
    decreases |gammaDirs|
  {
    if |gammaDirs| == 0 then Ok([])
    else
      var before :- GammaEntries(gammaDirs[..|gammaDirs| - 1], alphaDirs, filesIn);
      var gammaDir := gammaDirs[|gammaDirs| - 1];
      var gamma :- ConvertDirNameToNumeric(gammaDir, Some("gamma"));
      var these :- AlphaEntries(gammaDir, gamma, alphaDirs, filesIn);
      Ok(before + these)
  }

  /** `get_file_path_info`: the naive network first, then every versioned
      network; an Exception when the naive network file is missing. */
  function GetFilePathInfo(networksDir: string, naiveExists: bool, gammaDirs: seq<string>, alphaDirs: seq<string>,
                           filesIn: (string, string) -> seq<string>): (r: Result<seq<NetworkInfo>>)
    ensures !naiveExists ==> r == Err(Exception)
  {
    var naive := PathJoin(networksDir, "naive_network.gmlz");
    if !naiveExists then Err(Exception)
    else
      var rest :- GammaEntries(gammaDirs, alphaDirs, filesIn);
      Ok([NetworkInfo(None, None, None, naive)] + rest)
  }

  /** A versioned entry: both parameters, and the version read from its
      own file name. */
  predicate Versioned(e: NetworkInfo) {
    e.netVersion == Some(NetVersion(e.filePath)) && e.gamma.Some? && e.alpha.Some?
  }

  lemma {:induction false} AlphaEntriesVersioned(gammaDir: string, gamma: string, alphaDirs: seq<string>,
                                                 filesIn: (string, string) -> seq<string>)
    requires AlphaEntries(gammaDir, gamma, alphaDirs, filesIn).Ok?
    ensures forall e :: e in AlphaEntries(gammaDir, gamma, alphaDirs, filesIn).value ==>
              Versioned(e) && e.gamma == Some(gamma)
    decreases |alphaDirs|
  {
    if |alphaDirs| > 0 {
      AlphaEntriesVersioned(gammaDir, gamma, alphaDirs[..|alphaDirs| - 1], filesIn);
    }
  }

  lemma {:induction false} GammaEntriesVersioned(gammaDirs: seq<string>, alphaDirs: seq<string>,
                                                 filesIn: (string, string) -> seq<string>)
    requires GammaEntries(gammaDirs, alphaDirs, filesIn).Ok?
    ensures forall e :: e in GammaEntries(gammaDirs, alphaDirs, filesIn).value ==>
              Versioned(e)
    decreases |gammaDirs|
  {
    if |gammaDirs| > 0 {
      var gammaDir := gammaDirs[|gammaDirs| - 1];
      GammaEntriesVersioned(gammaDirs[..|gammaDirs| - 1], alphaDirs, filesIn);
      var gamma := ConvertDirNameToNumeric(gammaDir, Some("gamma")).value;
      AlphaEntriesVersioned(gammaDir, gamma, alphaDirs, filesIn);
    }
  }

  /** The naive network is the first entry and the only one without a
      version, gamma and alpha; every other entry's version is read from
      its own file name. */
  lemma NaiveFirst(networksDir: string, gammaDirs: seq<string>, alphaDirs: seq<string>,
                   filesIn: (string, string) -> seq<string>)
    requires GetFilePathInfo(networksDir, true, gammaDirs, alphaDirs, filesIn).Ok?
    ensures var es := GetFilePathInfo(networksDir, true, gammaDirs, alphaDirs, filesIn).value;
            |es| >= 1 && es[0] == NetworkInfo(None, None, None, PathJoin(networksDir, "naive_network.gmlz")) &&
            forall k :: 1 <= k < |es| ==> Versioned(es[k])
  {
    var rest := GammaEntries(gammaDirs, alphaDirs, filesIn).value;
    GammaEntriesVersioned(gammaDirs, alphaDirs, filesIn);
    HeadThenRest(NetworkInfo(None, None, None, PathJoin(networksDir, "naive_network.gmlz")), rest);
  }

  lemma HeadThenRest(naive: NetworkInfo, rest: seq<NetworkInfo>)
    requires forall e :: e in rest ==> Versioned(e)
    ensures var es := [naive] + rest;
            forall k :: 1 <= k < |es| ==> Versioned(es[k])
  {
    var es := [naive] + rest;
    forall k | 1 <= k < |es|
      ensures Versioned(es[k])
    {
      assert es[k] == rest[k - 1];
      assert rest[k - 1] in rest;
    }
  }

  lemma {:induction false} AlphaEntriesOk(gammaDir: string, gamma: string, alphaDirs: seq<string>,
                                          filesIn: (string, string) -> seq<string>)
    requires forall a :: a in alphaDirs ==> ConvertDirNameToNumeric(a, Some("alpha")).Ok?
    ensures AlphaEntries(gammaDir, gamma, alphaDirs, filesIn).Ok?
    decreases |alphaDirs|
  {
    if |alphaDirs| > 0 {
      assert alphaDirs[|alphaDirs| - 1] in alphaDirs;
      AlphaEntriesOk(gammaDir, gamma, alphaDirs[..|alphaDirs| - 1], filesIn);
    }
  }

  lemma {:induction false} GammaEntriesOk(gammaDirs: seq<string>, alphaDirs: seq<string>,
                                          filesIn: (string, string) -> seq<string>)
    requires forall g :: g in gammaDirs ==> ConvertDirNameToNumeric(g, Some("gamma")).Ok?
    requires forall a :: a in alphaDirs ==> ConvertDirNameToNumeric(a, Some("alpha")).Ok?
    ensures GammaEntries(gammaDirs, alphaDirs, filesIn).Ok?
    decreases |gammaDirs|
  {
    if |gammaDirs| > 0 {
      var gammaDir := gammaDirs[|gammaDirs| - 1];
      assert gammaDir in gammaDirs;
      GammaEntriesOk(gammaDirs[..|gammaDirs| - 1], alphaDirs, filesIn);
      AlphaEntriesOk(gammaDir, ConvertDirNameToNumeric(gammaDir, Some("gamma")).value, alphaDirs, filesIn);
    }
  }

  /** With the script's directories nothing raises once the naive network
      exists. */
  lemma ScriptDirectoriesAccepted(networksDir: string, filesIn: (string, string) -> seq<string>)
    ensures GetFilePathInfo(networksDir, true, GammaDirs, AlphaDirs, filesIn).Ok?
  {
    forall g | g in GammaDirs ensures ConvertDirNameToNumeric(g, Some("gamma")).Ok? {
      var k :| 0 <= k < 3 && GammaDirs[k] == g;
      ScriptGammaDirectories(k);
    }
    forall a | a in AlphaDirs ensures ConvertDirNameToNumeric(a, Some("alpha")).Ok? {
      var k :| 0 <= k < 3 && AlphaDirs[k] == a;
      ScriptAlphaDirectories(k);
    }
    GammaEntriesOk(GammaDirs, AlphaDirs, filesIn);
  }
}
