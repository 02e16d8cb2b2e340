/** Global retweet networks from reconstructed cascades
    (`midterm/.../002_generate_networks.py`): which cascade file feeds
    which network version, and how the loaded edge lists are merged into
    one weighted network. */
module GenerateNetworks {
  import opened Wrappers
  import opened PyStrings
  import opened CascadeTree
  import PdiReconstruction

  // ---------------------------------------------------------------------
  // Version -> files
  // ---------------------------------------------------------------------

  /** The file of cascade `cascadeId` used for network version `ver`: a
      cascade with exactly 100 files contributes its own version `ver`,
      any other one always its first file. */
  function CascadeFile(dataDir: string, cascadeId: string, numFiles: nat, ver: nat): string
  {
    var name := if numFiles == 100 then PdiReconstruction.VersionFileName(ver) else "v_001.gmlz";
    PathJoin(PathJoin(dataDir, cascadeId), name)
  }

  /** The file name a cascade contributes to a version. */
  lemma CascadeFileName(dataDir: string, cascadeId: string, numFiles: nat, ver: nat)
    ensures Basename(CascadeFile(dataDir, cascadeId, numFiles, ver)) ==
              if numFiles == 100 then PdiReconstruction.VersionFileName(ver) else "v_001.gmlz"
  {
    var name := if numFiles == 100 then PdiReconstruction.VersionFileName(ver) else "v_001.gmlz";
    BasenameOfPathJoin(PathJoin(dataDir, cascadeId), name);
  }

  /** The files of every cascade, in the map's order, for one version. */
  function VersionFiles(dataDir: string, cascades: seq<(string, nat)>, ver: nat): (r: seq<string>)
    ensures |r| == |cascades|
    ensures forall k :: 0 <= k < |cascades| ==> r[k] == CascadeFile(dataDir, cascades[k].0, cascades[k].1, ver)
  {
    seq(|cascades|, k requires 0 <= k < |cascades| => CascadeFile(dataDir, cascades[k].0, cascades[k].1, ver))
  }

  /** `generate_net_ver_paths_map`.  `cascades` lists the entries of the
      cascade -> file-count dictionary in its iteration order.  Versions
      1 .. nVersions each get one path per cascade; a key of the
      defaultdict exists only once something was appended to it, so an
      empty dictionary gives an empty map. */
  method GenerateNetVerPathsMap(cascades: seq<(string, nat)>, dataDir: string, nVersions: nat)
    returns (netVerFilesMap: map<nat, seq<string>>)
    ensures forall v :: v in netVerFilesMap <==> |cascades| > 0 && 1 <= v <= nVersions
    ensures forall v :: v in netVerFilesMap ==> netVerFilesMap[v] == VersionFiles(dataDir, cascades, v)
  {
    netVerFilesMap := map[];
    for ver := 1 to nVersions + 1
      invariant forall v :: v in netVerFilesMap <==> |cascades| > 0 && 1 <= v < ver
      invariant forall v :: v in netVerFilesMap ==> netVerFilesMap[v] == VersionFiles(dataDir, cascades, v)
    {
      netVerFilesMap := AppendVersionPaths(netVerFilesMap, cascades, dataDir, ver);
    }
  }

  /** The inner loop of `generate_net_ver_paths_map`: appending the path of
      every cascade to the entry of version `ver`, which has none yet. */
  method AppendVersionPaths(m: map<nat, seq<string>>, cascades: seq<(string, nat)>, dataDir: string, ver: nat)
    returns (netVerFilesMap: map<nat, seq<string>>)
    requires ver !in m
    ensures netVerFilesMap == if |cascades| == 0 then m else m[ver := VersionFiles(dataDir, cascades, ver)]
  {
    netVerFilesMap := m;
    ghost var files := VersionFiles(dataDir, cascades, ver);
    for k := 0 to |cascades|
      invariant netVerFilesMap == if k == 0 then m else m[ver := files[..k]]
    {
      var (cascadeId, numFiles) := cascades[k];
      var path := CascadeFile(dataDir, cascadeId, numFiles, ver);
      var current := if ver in netVerFilesMap then netVerFilesMap[ver] else [];
      AppendStep(m, ver, files, k, netVerFilesMap, path);
      netVerFilesMap := netVerFilesMap[ver := current + [path]];
    }
    assert files[..|cascades|] == files;
  }

  /** One append to the entry of `ver`: it then holds one more path. */
  lemma AppendStep(m: map<nat, seq<string>>, ver: nat, files: seq<string>, k: nat,
                   current: map<nat, seq<string>>, path: string)
    requires ver !in m && k < |files| && path == files[k]
    requires current == if k == 0 then m else m[ver := files[..k]]
    ensures (if ver in current then current[ver] else []) == files[..k]
    ensures current[ver := files[..k] + [path]] == m[ver := files[..k + 1]]
  {
    assert files[..k + 1] == files[..k] + [files[k]];
  }

  /** The fallback file is the one written for the first version. */
  lemma FallbackIsFirstVersion()
    ensures PdiReconstruction.VersionFileName(1) == "v_001.gmlz"
  {
    assert NatToString(1) == "1";
  }

  /** A cascade with 100 files feeds a different file into every version;
      any other cascade feeds the same file into all of them. */
  lemma CascadeFilesPerVersion(dataDir: string, cascadeId: string, numFiles: nat, v: nat, w: nat)
    ensures numFiles == 100 && v != w ==>
              CascadeFile(dataDir, cascadeId, numFiles, v) != CascadeFile(dataDir, cascadeId, numFiles, w)
    ensures numFiles != 100 ==>
              CascadeFile(dataDir, cascadeId, numFiles, v) == CascadeFile(dataDir, cascadeId, numFiles, w)
  {
    if numFiles == 100 && CascadeFile(dataDir, cascadeId, numFiles, v) == CascadeFile(dataDir, cascadeId, numFiles, w) {
      CascadeFileName(dataDir, cascadeId, numFiles, v);
      CascadeFileName(dataDir, cascadeId, numFiles, w);
      PdiReconstruction.VersionFileNamesDistinct(v, w);
    }
  }

  // ---------------------------------------------------------------------
  // Merging loaded cascades
  // ---------------------------------------------------------------------

  /** One loaded cascade file: its vertex names and its edges by name. */
  datatype LoadedGraph = LoadedGraph(names: seq<UserId>, edges: seq<Edge>)

  /** A weighted network: `weight` counts each edge (a `Counter`). */
  datatype Network = Network(version: nat, vertices: set<UserId>, edges: set<Edge>, weight: multiset<Edge>)

  /** The edges of all loaded files, file after file. */
  function AllEdges(graphs: seq<LoadedGraph>): (r: seq<Edge>)
    ensures forall i, e :: 0 <= i < |graphs| && e in graphs[i].edges ==> e in r
  {
    if |graphs| == 0 then []
    else
      var last := |graphs| - 1;
      assert forall i :: 0 <= i < last ==> graphs[..last][i] == graphs[i];
      AllEdges(graphs[..last]) + graphs[last].edges
  }

  /** The vertex names of all loaded files. */
  function AllNames(graphs: seq<LoadedGraph>): (r: set<UserId>)
    ensures forall i, u :: 0 <= i < |graphs| && u in graphs[i].names ==> u in r
  {
    if |graphs| == 0 then {}
    else
      var last := |graphs| - 1;
      assert forall i :: 0 <= i < last ==> graphs[..last][i] == graphs[i];
      AllNames(graphs[..last]) + set u | u in graphs[last].names
  }

  /** `edge_weight_counter[edge] += 1` over a list of edges. */
  method CountEdges(allEdges: seq<Edge>) returns (counter: multiset<Edge>)
    ensures counter == multiset(allEdges)
  {
    counter := multiset{};
    for i := 0 to |allEdges|
      invariant counter == multiset(allEdges[..i])
    {
      var edge := allEdges[i];
      counter := counter[edge := counter[edge] + 1];
      assert allEdges[..i + 1] == allEdges[..i] + [edge];
    }
    assert allEdges[..|allEdges|] == allEdges;
  }

  /** `generate_network`: the union of all vertex names, each distinct
      (source, target) pair once, weighted by how often it was loaded. */
  method GenerateNetwork(filesToLoad: seq<LoadedGraph>, netv: nat) returns (globalNet: Network)
    ensures globalNet.version == netv
    ensures globalNet.vertices == AllNames(filesToLoad)
    ensures globalNet.edges == set e | e in AllEdges(filesToLoad)
    ensures globalNet.weight == multiset(AllEdges(filesToLoad))
    ensures forall e :: e in globalNet.edges <==> globalNet.weight[e] > 0
    ensures |globalNet.weight| == |AllEdges(filesToLoad)|
  {
    var allVertices: set<UserId> := {};
    var allEdges: seq<Edge> := [];
    for i := 0 to |filesToLoad|
      invariant allVertices == AllNames(filesToLoad[..i])
      invariant allEdges == AllEdges(filesToLoad[..i])
    {
      var g := filesToLoad[i];
      assert filesToLoad[..i + 1][..i] == filesToLoad[..i];
      allVertices := allVertices + set u | u in g.names;
      allEdges := allEdges + g.edges;
    }
    assert filesToLoad[..|filesToLoad|] == filesToLoad;
    var edgeWeightCounter := CountEdges(allEdges);
    var edgeSet := set e | e in allEdges;
    globalNet := Network(netv, allVertices, edgeSet, edgeWeightCounter);
  }

  /** Every edge of a loaded file joins two of that file's vertices: the
      edges are read back through the vertices' names. */
  predicate EdgesByName(g: LoadedGraph) {
    forall f :: f in g.edges ==> f.0 in g.names && f.1 in g.names
  }

  /** When every loaded file's edges join its own vertices, every edge of
      the merged network joins two of its vertices. */
  lemma {:induction false} EdgesJoinVertices(graphs: seq<LoadedGraph>, e: Edge)
    requires forall i :: 0 <= i < |graphs| ==> EdgesByName(graphs[i])
    requires e in AllEdges(graphs)
    ensures e.0 in AllNames(graphs) && e.1 in AllNames(graphs)
  {
    if |graphs| > 0 {
      var last := |graphs| - 1;
      var prefix := graphs[..last];
      if e in AllEdges(prefix) {
        assert forall i :: 0 <= i < |prefix| ==> prefix[i] == graphs[i];
        EdgesJoinVertices(prefix, e);
      } else {
        assert EdgesByName(graphs[last]);
      }
    }
  }

  /** `network_version_{v:03}.gmlz`, the file each network is written to. */
  function NetworkFileName(netv: nat): (r: string)
    ensures |r| >= 24 && r[..16] == "network_version_" && r[|r| - 5..] == ".gmlz"
    ensures ParseInt(r[16..|r| - 5]) == Ok(netv)
  {
    var digits := ZFill(NatToString(netv), 3);
    ParseZFilledNat(netv, 3);
    var r := "network_version_" + digits + ".gmlz";
    assert r[16..|r| - 5] == digits;
    r
  }
}
