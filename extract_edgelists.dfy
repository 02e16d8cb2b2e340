/** Edge lists of the midterm networks
    (`midterm/code/data_analysis/007_extract_edgelists.py`): every edge of a
    network as a (source name, target name, weight) row, and the file the
    rows are written to, named after the naive network or after the
    version, gamma and alpha of the network. */
module ExtractEdgelists {
  import opened Wrappers
  import opened PyStrings
  import JsonValue
  import opened CascadeTree
  import DetectCommunities
  import GenerateNetworks
  import NodeCentralities

  /** An edge of a loaded network: its endpoints by vertex index and its
      "weight" attribute. */
  datatype IndexedEdge = IndexedEdge(source: nat, target: nat, weight: int)

  /** One row of the edge list. */
  datatype EdgeRow = EdgeRow(source: UserId, target: UserId, weight: int)

  /** Every edge joins two vertices of the network. */
  predicate WellFormed(names: seq<UserId>, edges: seq<IndexedEdge>) {
    forall e :: e in edges ==> e.source < |names| && e.target < |names|
  }

  /** The rows of the edges, in edge order: each endpoint replaced by the
      "name" of the vertex at that index. */
  function EdgeRows(names: seq<UserId>, edges: seq<IndexedEdge>): (rows: seq<EdgeRow>)
    requires WellFormed(names, edges)
    ensures |rows| == |edges|
    decreases |edges|
  {
    if |edges| == 0 then []
    else
      var e := edges[|edges| - 1];
      EdgeRows(names, edges[..|edges| - 1]) + [EdgeRow(names[e.source], names[e.target], e.weight)]
  }

  /** Row `i` is edge `i` with its endpoints named. */
  lemma {:induction false} EdgeRowsAt(names: seq<UserId>, edges: seq<IndexedEdge>)
    requires WellFormed(names, edges)
    ensures forall i :: 0 <= i < |edges| ==>
              EdgeRows(names, edges)[i] == EdgeRow(names[edges[i].source], names[edges[i].target], edges[i].weight)
    decreases |edges|
  {
    if |edges| > 0 {
      var prefix := edges[..|edges| - 1];
      assert WellFormed(names, prefix) by {
        forall e | e in prefix ensures e.source < |names| && e.target < |names| {
          assert e in edges;
        }
      }
      EdgeRowsAt(names, prefix);
    }
  }

  /** Every row names two vertices of the network. */
  lemma RowsNameVertices(names: seq<UserId>, edges: seq<IndexedEdge>)
    requires WellFormed(names, edges)
    ensures forall r :: r in EdgeRows(names, edges) ==> r.source in names && r.target in names
  {
    var rows := EdgeRows(names, edges);
    EdgeRowsAt(names, edges);
    forall r | r in rows ensures r.source in names && r.target in names {
      var i :| 0 <= i < |rows| && rows[i] == r;
      assert edges[i] in edges;
    }
  }

  /** The loop over `graph.es` appending to `edges_df`. */
  method CollectEdgeRows(names: seq<UserId>, edges: seq<IndexedEdge>) returns (edgesDf: seq<EdgeRow>)
    requires WellFormed(names, edges)
    ensures edgesDf == EdgeRows(names, edges)
  {
    edgesDf := [];
    for i := 0 to |edges|
      invariant WellFormed(names, edges[..i])
      invariant edgesDf == EdgeRows(names, edges[..i])
    {
      assert edges[..i + 1][..i] == edges[..i];
      var e := edges[i];
      var sourceUserId := names[e.source];
      var targetUserId := names[e.target];
      edgesDf := edgesDf + [EdgeRow(sourceUserId, targetUserId, e.weight)];
      assert forall f :: f in edges[..i + 1] ==> f in edges;
    }
    assert edges[..|edges|] == edges;
  }

  /** The file name of the naive network's edge list. */
  const NaiveName: string := "edgelist_" + "naive_network" + ".parquet"

  /** The file name of a versioned network's edge list. */
  function VersionedName(version: int, params: NodeCentralities.Params): string {
    "edgelist_v_" + ZFill(JsonValue.IntToString(version), 3) +
    "_gamma_" + params.gamma + "_alpha_" + params.alpha + ".parquet"
  }

  /** The name the edge list of `filePath` is saved under.  A path with
      "naive" anywhere in it is the naive network: no parameters are read.
      Any other path has its parameters read first (NameError when gamma
      or alpha is missing) and then its version (ValueError when the text
      is no integer). */
  function EdgelistName(filePath: string): (r: Result<string>)
    ensures Contains(filePath, "naive") ==> r == Ok(NaiveName)
    ensures !Contains(filePath, "naive") && NodeCentralities.ParamsOf(filePath).Err? ==> r == Err(NameError)
    ensures !Contains(filePath, "naive") && NodeCentralities.ParamsOf(filePath).Ok? ==>
              (r.Ok? <==> NodeCentralities.VersionOf(filePath).Ok?)
  {
    if Contains(filePath, "naive") then Ok(NaiveName)
    else
      var params :- NodeCentralities.ParamsOf(filePath);
      var version :- NodeCentralities.VersionOf(filePath);
      Ok(VersionedName(version, params))
  }

  /** The output of one network file: its edge list and where it goes. */
  datatype Output = Output(name: string, rows: seq<EdgeRow>)

  function EdgelistFile(filePath: string, names: seq<UserId>, edges: seq<IndexedEdge>): Result<Output>
    requires WellFormed(names, edges)
  {
    var name :- EdgelistName(filePath);
    Ok(Output(name, EdgeRows(names, edges)))
  }

  /** One turn of the script's loop over the network files, for a network
      already loaded as its vertex names and its edges. */
  method ExtractEdgelist(filePath: string, names: seq<UserId>, edges: seq<IndexedEdge>) returns (r: Result<Output>)
    requires WellFormed(names, edges)
    ensures r == EdgelistFile(filePath, names, edges)
  {
    var params := NodeCentralities.Params("", "");
    if !Contains(filePath, "naive") {
      var p := NodeCentralities.ExtractParams(filePath);
      if p.Err? {
        return Err(p.error);
      }
      params := p.value;
    }
    var edgesDf := CollectEdgeRows(names, edges);
    var fname: string;
    if Contains(filePath, "naive") {
      fname := NaiveName;
    } else {
      var version := NodeCentralities.VersionOf(filePath);
      if version.Err? {
        return Err(version.error);
      }
      fname := VersionedName(version.value, params);
    }
    return Ok(Output(fname, edgesDf));
  }

  /** A network stored as the networks are laid out, under its gamma and
      alpha directories in `network_version_{v:03}.gmlz`, has its edge
      list named after its version and its two parameter values. */
  lemma VersionedNetworkName(pre: seq<string>, gamma: string, alpha: string, v: nat)
    requires forall c :: c in pre ==> NodeCentralities.Plain(c)
    requires NumericText(gamma) && NumericText(alpha)
    requires var path := Join(pre + [DetectCommunities.ParamDirName("gamma", gamma),
                                     DetectCommunities.ParamDirName("alpha", alpha),
                                     GenerateNetworks.NetworkFileName(v)], "/");
             !Contains(path, "naive")
    ensures var path := Join(pre + [DetectCommunities.ParamDirName("gamma", gamma),
                                    DetectCommunities.ParamDirName("alpha", alpha),
                                    GenerateNetworks.NetworkFileName(v)], "/");
            EdgelistName(path) ==
            Ok("edgelist_v_" + ZFill(NatToString(v), 3) + "_gamma_" + gamma + "_alpha_" + alpha + ".parquet")
  {
    var gd := DetectCommunities.ParamDirName("gamma", gamma);
    var ad := DetectCommunities.ParamDirName("alpha", alpha);
    var name := GenerateNetworks.NetworkFileName(v);
    NetworkFilePlain(v);
    NodeCentralities.DirectoriesReadBack(pre, gamma, alpha, name);
    NetworkPathVersion(pre + [gd, ad], v);
    assert pre + [gd, ad] + [name] == pre + [gd, ad, name];
  }

  /** A network file stored under any directories reads back its version. */
  lemma NetworkPathVersion(dirs: seq<string>, v: nat)
    requires |dirs| >= 1
    ensures NodeCentralities.VersionOf(Join(dirs + [GenerateNetworks.NetworkFileName(v)], "/")) == Ok(v)
  {
    var name := GenerateNetworks.NetworkFileName(v);
    NodeCentralities.JoinSnoc(dirs, name, "/");
    NodeCentralities.VersionOfNetworkFile(Join(dirs, "/"), v);
  }

  /** A network file name is no parameter directory. */
  lemma NetworkFilePlain(v: nat)
    ensures NodeCentralities.Plain(GenerateNetworks.NetworkFileName(v))
  {
    var name := GenerateNetworks.NetworkFileName(v);
    StartsWithIff(name, NodeCentralities.GammaPrefix);
    StartsWithIff(name, NodeCentralities.AlphaPrefix);
    assert name[0] == name[..16][0] == 'n';
    NodeCentralities.NetworkFileNameSlashFree(v);
  }

  /** A path outside the naive network without a gamma directory has no
      edge list name: reading its parameters fails. */
  lemma MissingGammaFails(filePath: string)
    requires !Contains(filePath, "naive")
    requires forall c :: c in Split(filePath, "/") ==> !StartsWith(c, NodeCentralities.GammaPrefix)
    ensures EdgelistName(filePath) == Err(NameError)
  {
    var components := Split(filePath, "/");
    assert forall i :: 0 <= i < |components| ==> components[i] in components;
  }
}
