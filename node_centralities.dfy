/** Naming in the node-centrality script for the midterm networks
    (`midterm/code/data_analysis/003_calculate_node_centralities.py`): gamma
    and alpha read from the directories of a network's path, the version
    read from its file name, and the name of the centrality file written
    for it.  Values are kept as text; the final `float(...)` is not
    modelled. */
module NodeCentralities {
  import opened Wrappers
  import opened PyStrings
  import JsonValue
  import DetectCommunities
  import GenerateNetworks
  import CentralityJaccard

  const GammaPrefix: string := "gamma_"
  const AlphaPrefix: string := "alpha_"

  /** `component.replace(prefix, "").replace("_", ".")`. */
  function ComponentValue(component: string, prefix: string): string
    requires |prefix| > 0
  {
    Replace(Replace(component, prefix, ""), "_", ".")
  }

  /** `gamma` and `alpha` as the loop leaves them; `None` while a variable
      has not been assigned. */
  datatype Found = Found(gamma: Option<string>, alpha: Option<string>)

  /** The loop over the path components, from the last component back: a
      component starting with "gamma_" sets gamma, otherwise one starting
      with "alpha_" sets alpha. */
  function Scan(components: seq<string>): Found
    decreases |components|
  {
    if |components| == 0 then Found(None, None)
    else
      var found := Scan(components[..|components| - 1]);
      var c := components[|components| - 1];
      if StartsWith(c, GammaPrefix) then found.(gamma := Some(ComponentValue(c, GammaPrefix)))
      else if StartsWith(c, AlphaPrefix) then found.(alpha := Some(ComponentValue(c, AlphaPrefix)))
      else found
  }

  /** The position of the last component starting with `prefix`. */
  function LastWith(components: seq<string>, prefix: string): (r: Option<nat>)
    ensures r.None? <==> forall i :: 0 <= i < |components| ==> !StartsWith(components[i], prefix)
    ensures r.Some? ==> r.value < |components| && StartsWith(components[r.value], prefix) &&
                        forall j :: r.value < j < |components| ==> !StartsWith(components[j], prefix)
    decreases |components|
  {
    if |components| == 0 then None
    else if StartsWith(components[|components| - 1], prefix) then Some(|components| - 1)
    else LastWith(components[..|components| - 1], prefix)
  }

  /** The value of the last component starting with `prefix`, if any. */
  function ValueAt(components: seq<string>, prefix: string): Option<string>
    requires |prefix| > 0
  {
    match LastWith(components, prefix)
    case None => None
    case Some(i) => Some(ComponentValue(components[i], prefix))
  }

  /** No component starts with both prefixes. */
  lemma PrefixesExclusive(c: string)
    ensures !(StartsWith(c, GammaPrefix) && StartsWith(c, AlphaPrefix))
  {
    StartsWithIff(c, GammaPrefix);
    StartsWithIff(c, AlphaPrefix);
    if StartsWith(c, GammaPrefix) {
      assert c[0] == GammaPrefix[0];
    }
  }

  /** The loop leaves each variable holding the value of the last
      component with its prefix: a later component overrides an earlier
      one, and a variable no component sets stays unassigned. */
  lemma {:induction false} ScanIsLast(components: seq<string>)
    ensures Scan(components) == Found(ValueAt(components, GammaPrefix), ValueAt(components, AlphaPrefix))
    decreases |components|
  {
    if |components| > 0 {
      var n := |components| - 1;
      var prefix := components[..n];
      var c := components[n];
      ScanIsLast(prefix);
      PrefixesExclusive(c);
      assert forall i :: 0 <= i < n ==> prefix[i] == components[i];
    }
  }

  /** The parameters, in the order of the returned dictionary. */
  datatype Params = Params(alpha: string, gamma: string)

  /** `extract_params(file_path)`: the values of the last "gamma_" and
      "alpha_" components of the path; building the dictionary from a
      variable the loop never assigned raises (`UnboundLocalError`, a
      `NameError`). */
  function ParamsOf(filePath: string): (r: Result<Params>)
    ensures var components := Split(filePath, "/");
            (r.Ok? <==> LastWith(components, GammaPrefix).Some? && LastWith(components, AlphaPrefix).Some?) &&
            (r.Err? ==> r.error == NameError) &&
            (r.Ok? ==> Some(r.value.gamma) == ValueAt(components, GammaPrefix) &&
                       Some(r.value.alpha) == ValueAt(components, AlphaPrefix))
  {
    var components := Split(filePath, "/");
    var found := Scan(components);
    ScanIsLast(components);
    if found.alpha.None? || found.gamma.None? then Err(NameError)
    else Ok(Params(found.alpha.value, found.gamma.value))
  }

  /** The loop of `extract_params`. */
  method ExtractParams(filePath: string) returns (r: Result<Params>)
    ensures r == ParamsOf(filePath)
  {
    var pathComponents := Split(filePath, "/");
    var gamma: Option<string> := None;
    var alpha: Option<string> := None;
    for i := 0 to |pathComponents|
      invariant Found(gamma, alpha) == Scan(pathComponents[..i])
    {
      assert pathComponents[..i + 1][..i] == pathComponents[..i];
      var component := pathComponents[i];
      if StartsWith(component, GammaPrefix) {
        gamma := Some(Replace(Replace(component, GammaPrefix, ""), "_", "."));
      } else if StartsWith(component, AlphaPrefix) {
        alpha := Some(Replace(Replace(component, AlphaPrefix, ""), "_", "."));
      }
    }
    assert pathComponents[..|pathComponents|] == pathComponents;
    if alpha.None? || gamma.None? {
      return Err(NameError);
    }
    return Ok(Params(alpha.value, gamma.value));
  }

  /** A parameter directory written from a decimal value reads back as
      that value. */
  lemma DirectoryValue(typ: string, value: string)
    requires typ == "gamma" || typ == "alpha"
    requires NumericText(value)
    ensures StartsWith(DetectCommunities.ParamDirName(typ, value), typ + "_")
    ensures ComponentValue(DetectCommunities.ParamDirName(typ, value), typ + "_") == value
  {
    var m := MapChar(value, '.', '_');
    var pat := typ + "_";
    assert DetectCommunities.ParamDirName(typ, value) == pat + m;
    StartsWithIff(pat + m, pat);
    assert (pat + m)[..|pat|] == pat;
    assert '_' !in value && typ[0] !in value;
    assert typ[0] !in m;
    FindNoneWithoutFirstChar(m, pat);
    ReplaceOnce("", pat, m, "");
    assert "" + pat + m == pat + m;
    assert "" + "" + m == m;
    ReplaceCharIsMap(m, '_', '.');
    MapCharBack(value, '.', '_');
  }

  /** The position of the last component with a prefix is the one after
      which no component has it. */
  lemma LastWithAt(components: seq<string>, prefix: string, i: nat)
    requires i < |components| && StartsWith(components[i], prefix)
    requires forall j :: i < j < |components| ==> !StartsWith(components[j], prefix)
    ensures LastWith(components, prefix) == Some(i)
  {
  }

  /** A path component without "/" that is not a parameter directory. */
  predicate Plain(c: string) {
    '/' !in c && !StartsWith(c, GammaPrefix) && !StartsWith(c, AlphaPrefix)
  }

  /** A network stored under a gamma directory and then an alpha directory,
      as the networks are laid out, reads back as those two values. */
  lemma DirectoriesReadBack(pre: seq<string>, gamma: string, alpha: string, name: string)
    requires forall c :: c in pre ==> Plain(c)
    requires Plain(name)
    requires NumericText(gamma) && NumericText(alpha)
    ensures ParamsOf(Join(pre + [DetectCommunities.ParamDirName("gamma", gamma),
                                 DetectCommunities.ParamDirName("alpha", alpha), name], "/"))
            == Ok(Params(alpha, gamma))
  {
    var gd := DetectCommunities.ParamDirName("gamma", gamma);
    var ad := DetectCommunities.ParamDirName("alpha", alpha);
    DirectoryValue("gamma", gamma);
    DirectoryValue("alpha", alpha);
    PrefixesExclusive(gd);
    PrefixesExclusive(ad);
    assert '/' !in gd && '/' !in ad;
    assert GammaPrefix == "gamma" + "_" && AlphaPrefix == "alpha" + "_";
    LayoutReadBack(pre, gd, ad, name, gamma, alpha);
  }

  /** A gamma directory, then an alpha directory, then a plain name. */
  lemma LayoutReadBack(pre: seq<string>, gd: string, ad: string, name: string, gamma: string, alpha: string)
    requires forall c :: c in pre ==> Plain(c)
    requires Plain(name)
    requires '/' !in gd && StartsWith(gd, GammaPrefix) && !StartsWith(gd, AlphaPrefix)
    requires '/' !in ad && StartsWith(ad, AlphaPrefix) && !StartsWith(ad, GammaPrefix)
    requires ComponentValue(gd, GammaPrefix) == gamma && ComponentValue(ad, AlphaPrefix) == alpha
    ensures ParamsOf(Join(pre + [gd, ad, name], "/")) == Ok(Params(alpha, gamma))
  {
    var components := pre + [gd, ad, name];
    assert forall c :: c in components ==> '/' !in c;
    SplitJoinChar(components, '/');
    LayoutLastWith(pre, gd, ad, name);
  }

  /** The gamma directory is the last component with the gamma prefix and
      the alpha directory the last with the alpha prefix. */
  lemma LayoutLastWith(pre: seq<string>, gd: string, ad: string, name: string)
    requires Plain(name)
    requires StartsWith(gd, GammaPrefix) && !StartsWith(gd, AlphaPrefix)
    requires StartsWith(ad, AlphaPrefix) && !StartsWith(ad, GammaPrefix)
    ensures LastWith(pre + [gd, ad, name], GammaPrefix) == Some(|pre|)
    ensures LastWith(pre + [gd, ad, name], AlphaPrefix) == Some(|pre| + 1)
  {
    var components := pre + [gd, ad, name];
    var n := |pre|;
    assert |components| == n + 3;
    assert components[n] == gd && components[n + 1] == ad && components[n + 2] == name;
    forall j | n < j < |components| ensures !StartsWith(components[j], GammaPrefix) {
      assert j == n + 1 || j == n + 2;
    }
    LastWithAt(components, GammaPrefix, n);
    LastWithAt(components, AlphaPrefix, n + 1);
  }

  /** The example path of the docstring,
      `.../midterm_networks/gamma_0_25/alpha_1_1/network_version_001.gmlz`,
      gives gamma 0.25, alpha 1.1 and version 1. */
  lemma DocstringExample(gamma: string, alpha: string)
    requires gamma == "0.25" && alpha == "1.1"
    ensures var path := Join(["...", "midterm_networks", DetectCommunities.ParamDirName("gamma", gamma),
                              DetectCommunities.ParamDirName("alpha", alpha), GenerateNetworks.NetworkFileName(1)], "/");
            ParamsOf(path) == Ok(Params(alpha, gamma)) && VersionOf(path) == Ok(1)
  {
    var pre := ["...", "midterm_networks"];
    var name := GenerateNetworks.NetworkFileName(1);
    PlainWords(pre, name);
    DirectoriesReadBack(pre, gamma, alpha, name);
    var path := Join(pre + [DetectCommunities.ParamDirName("gamma", gamma),
                            DetectCommunities.ParamDirName("alpha", alpha)], "/") + "/" + name;
    assert pre + [DetectCommunities.ParamDirName("gamma", gamma), DetectCommunities.ParamDirName("alpha", alpha), name]
           == (pre + [DetectCommunities.ParamDirName("gamma", gamma), DetectCommunities.ParamDirName("alpha", alpha)]) + [name];
    JoinSnoc(pre + [DetectCommunities.ParamDirName("gamma", gamma), DetectCommunities.ParamDirName("alpha", alpha)], name, "/");
    VersionOfNetworkFile(Join(pre + [DetectCommunities.ParamDirName("gamma", gamma),
                                     DetectCommunities.ParamDirName("alpha", alpha)], "/"), 1);
  }

  lemma PlainWords(pre: seq<string>, name: string)
    requires pre == ["...", "midterm_networks"] && name == GenerateNetworks.NetworkFileName(1)
    ensures forall c :: c in pre ==> Plain(c)
    ensures Plain(name)
  {
    StartsWithIff(pre[0], GammaPrefix);
    StartsWithIff(pre[0], AlphaPrefix);
    StartsWithIff(pre[1], GammaPrefix);
    StartsWithIff(pre[1], AlphaPrefix);
    assert pre[1][0] == 'm';
    StartsWithIff(name, GammaPrefix);
    StartsWithIff(name, AlphaPrefix);
    assert name[0] == name[..16][0] == 'n';
    NetworkFileNameSlashFree(1);
  }

  lemma NetworkFileNameSlashFree(v: nat)
    ensures '/' !in GenerateNetworks.NetworkFileName(v)
  {
    var d := ZFill(NatToString(v), 3);
    ZFillNatDigits(v, 3);
    DigitsWithout(d, '/');
    assert GenerateNetworks.NetworkFileName(v) == "network_version_" + d + ".gmlz";
    NameAffixesSlashFree();
    ConcatWithout("network_version_", d, ".gmlz", '/');
  }

  lemma NameAffixesSlashFree()
    ensures '/' !in "network_version_" && '/' !in ".gmlz"
  {
  }

  /** A character in none of three texts is not in their concatenation. */
  lemma ConcatWithout(a: string, b: string, d: string, c: char)
    requires c !in a && c !in b && c !in d
    ensures c !in a + b + d
  {
  }

  /** A text of digits holds no other character. */
  lemma DigitsWithout(d: string, c: char)
    requires AllDigits(d) && !IsDigit(c)
    ensures c !in d
  {
    forall i | 0 <= i < |d| ensures d[i] != c {
      assert IsDigit(d[i]);
    }
  }

  /** Joining one more piece puts the separator before it. */
  lemma JoinSnoc(parts: seq<string>, last: string, sep: string)
    requires |parts| >= 1
    ensures Join(parts + [last], sep) == Join(parts, sep) + sep + last
    decreases |parts|
  {
    if |parts| == 1 {
      JoinCons(parts[0], [last], sep);
      assert parts + [last] == [parts[0]] + [last];
    } else {
      JoinSnoc(parts[1..], last, sep);
      assert parts + [last] == [parts[0]] + (parts[1..] + [last]);
      JoinCons(parts[0], parts[1..] + [last], sep);
      JoinCons(parts[0], parts[1..], sep);
      assert parts == [parts[0]] + parts[1..];
    }
  }

  // ---------------------------------------------------------------------
  // Version and output name
  // ---------------------------------------------------------------------

  /** `int(basename.split("_")[-1].split(".")[0])`: the text between the
      last "_" of the base name and the first "." after it. */
  function VersionOf(filePath: string): Result<int> {
    var basename := Basename(filePath);
    ParseInt(Split(Last(Split(basename, "_")), ".")[0])
  }

  /** The network files as written, `network_version_{v:03}.gmlz`, give
      back their version wherever they are stored. */
  lemma VersionOfNetworkFile(dir: string, v: nat)
    ensures VersionOf(dir + "/" + GenerateNetworks.NetworkFileName(v)) == Ok(v)
  {
    var digits := ZFill(NatToString(v), 3);
    var name := GenerateNetworks.NetworkFileName(v);
    NetworkFileNameSlashFree(v);
    BasenameOfJoin(dir, name);
    ZFillNatDigits(v, 3);
    assert name == "network_version_" + digits + ".gmlz";
    VersionOfName(name, digits);
    ParseZFilledNat(v, 3);
  }

  /** The version text of a network file name is its digits. */
  lemma VersionOfName(name: string, digits: string)
    requires AllDigits(digits) && name == "network_version_" + digits + ".gmlz"
    ensures Split(Last(Split(name, "_")), ".")[0] == digits
  {
    var tail := digits + ".gmlz";
    NetworkFilePieces(name, digits);
    DigitsWithout(digits, '_');
    DigitsWithout(digits, '.');
    assert '_' !in tail;
    LastSplitChar("network_version", '_', tail);
    SplitCharConcat(digits, '.', "gmlz");
  }

  /** A network file name is "network_version", "_" and the padded
      digits with the extension. */
  lemma NetworkFilePieces(name: string, digits: string)
    requires name == "network_version_" + digits + ".gmlz"
    ensures name == "network_version" + "_" + (digits + ".gmlz")
    ensures digits + ".gmlz" == digits + "." + "gmlz"
  {
  }

  /** The file written for a network: "network_v_", the zero-padded
      version, then "_gamma_", gamma, "_alpha_", alpha and ".parquet". */
  function OutputName(version: int, gamma: string, alpha: string): string {
    "network_v_" + ZFill(JsonValue.IntToString(version), 3) + "_gamma_" + gamma + "_alpha_" + alpha + ".parquet"
  }

  /** The centrality files this script writes are the ones the Jaccard
      comparison reads: version, gamma and alpha come back as written. */
  lemma OutputNameReadBack(dir: string, v: nat, gamma: string, alpha: string)
    requires NumericText(gamma) && NumericText(alpha)
    ensures CentralityJaccard.ExtractParams(dir + "/" + OutputName(v, gamma, alpha))
            == Ok(CentralityJaccard.Params(v, gamma, alpha))
  {
    var vt := ZFill(NatToString(v), 3);
    ZFillNatDigits(v, 3);
    assert NumericText(vt);
    var stem := CentralityJaccard.FileStem(vt, gamma, alpha);
    assert dir + "/" + OutputName(v, gamma, alpha) == dir + "/" + stem + ".parquet";
    CentralityJaccard.NumericTextLacks(vt);
    CentralityJaccard.NumericTextLacks(gamma);
    CentralityJaccard.NumericTextLacks(alpha);
    assert '/' !in stem;
    CentralityJaccard.StemOfPath(dir, stem);
    CentralityJaccard.VersionField(vt, gamma, alpha);
    CentralityJaccard.GammaField(vt, gamma, alpha);
    CentralityJaccard.AlphaField(vt, gamma, alpha);
    ParseZFilledNat(v, 3);
    var basename := SplitExtRoot(Basename(dir + "/" + stem + ".parquet"));
    assert basename == stem;
  }
}
