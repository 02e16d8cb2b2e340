/** The uniform-random baseline (`reconstruct_random_cascades.py`): every
    event after the second one picks its parent uniformly among the events
    before it.  The pick is an oracle: `picks[idx]` is the position drawn
    for the event at position `idx` (entries 0 and 1 are unused). */
module RandomReconstruction {
  import opened Wrappers
  import opened PyStrings
  import opened CascadeTree
  import PdiReconstruction

  /** Runs per cascade with more than two events. */
  const NSimulations: nat := 100

  /** Every pick is one of the earlier positions. */
  predicate ValidPicks(picks: seq<nat>) {
    forall idx :: 2 <= idx < |picks| ==> picks[idx] < idx
  }

  /** The parent positions of the events at positions 1 .. n-1. */
  function RandomParents(picks: seq<nat>, n: nat): (ps: seq<nat>)
    requires ValidPicks(picks) && 2 <= n <= |picks|
    ensures |ps| == n - 1 && IsPositionTree(ps) && ps[0] == 0
    ensures forall k :: 1 <= k < |ps| ==> ps[k] == picks[k + 1]
  {
    [0] + picks[2..n]
  }

  /** The edge list of one run, or the IndexError of `users[1]` when there
      are fewer than two events. */
  function RandomEdges(users: seq<UserId>, picks: seq<nat>): (r: Result<seq<Edge>>)
    requires |picks| == |users| && ValidPicks(picks)
    ensures r.Err? <==> |users| < 2
    ensures r.Err? ==> r.error == IndexError
  {
    if |users| < 2 then Err(IndexError)
    else Ok(EdgesFromParents(users, RandomParents(picks, |users|)))
  }

  /** `generate_random_reconstruction`: the first edge is fixed, then every
      later event is attached to the event drawn for it. */
  method GenerateRandomReconstruction(users: seq<UserId>, picks: seq<nat>) returns (r: Result<seq<Edge>>)
    requires |picks| == |users| && ValidPicks(picks)
    ensures r == RandomEdges(users, picks)
  {
    if |users| < 2 {
      return Err(IndexError);
    }
    var edgeList: seq<Edge> := [(users[0], users[1])];
    assert users[..2] == [users[0], users[1]];
    for idx := 2 to |users|
      invariant edgeList == EdgesFromParents(users[..idx], RandomParents(picks, idx))
    {
      var selectedParentNode := users[picks[idx]];
      var currentNode := users[idx];
      EdgesFromPrefixSnoc(users, RandomParents(picks, idx), idx, picks[idx]);
      assert RandomParents(picks, idx + 1) == RandomParents(picks, idx) + [picks[idx]];
      edgeList := edgeList + [(selectedParentNode, currentNode)];
    }
    assert users[..|users|] == users;
    return Ok(edgeList);
  }

  /** The shape of a run: n - 1 edges, the first from the root to the
      second event, the k-th targeting the event at position k + 1, and
      every source an event at an earlier position. */
  lemma RandomEdgesShape(users: seq<UserId>, picks: seq<nat>)
    requires |picks| == |users| >= 2 && ValidPicks(picks)
    ensures var edges := RandomEdges(users, picks).value;
            |edges| == |users| - 1 && edges[0] == (users[0], users[1]) &&
            (forall k :: 0 <= k < |edges| ==> edges[k].1 == users[k + 1]) &&
            (forall k :: 0 <= k < |edges| ==> exists p :: 0 <= p <= k && edges[k].0 == users[p])
  {
    EdgesFromParentsShape(users, RandomParents(picks, |users|));
  }

  /** The baseline can produce every tree over positions: for any parent
      assignment there are picks that yield exactly its edge list. */
  lemma RandomReachesEveryTree(users: seq<UserId>, parents: seq<nat>)
    requires |parents| + 1 == |users| && |users| >= 2 && IsPositionTree(parents)
    ensures exists picks :: |picks| == |users| && ValidPicks(picks) &&
                            RandomEdges(users, picks) == Ok(EdgesFromParents(users, parents))
  {
    var picks := [0, 0] + parents[1..];
    assert ValidPicks(picks) by {
      forall idx | 2 <= idx < |picks| ensures picks[idx] < idx {
        assert picks[idx] == parents[idx - 1];
      }
    }
    assert RandomParents(picks, |users|) == parents;
  }

  /** A two-event cascade gets one version, every other one `NSimulations`. */
  function NumVersions(numTweets: nat): (v: nat)
    ensures v == 1 <==> numTweets == 2
    ensures v != 1 ==> v == NSimulations
  {
    if numTweets == 2 then 1 else NSimulations
  }

  /** `create_output_fname`: `<out_dir>/<cascade_id.zfill(5)>/v_NNN.gmlz`. */
  function CreateOutputFname(cascadeId: string, outDir: string, versionNum: nat): (r: string)
    ensures Basename(r) == PdiReconstruction.VersionFileName(versionNum)
    ensures |outDir| > 0 && outDir[|outDir| - 1] != '/' && '/' !in cascadeId ==>
              r == outDir + "/" + PdiReconstruction.CascadeDirName(cascadeId) + "/" +
                   PdiReconstruction.VersionFileName(versionNum)
  {
    var outputDir := PathJoin(outDir, PdiReconstruction.CascadeDirName(cascadeId));
    var name := PdiReconstruction.VersionFileName(versionNum);
    BasenameOfPathJoin(outputDir, name);
    if |outDir| > 0 && outDir[|outDir| - 1] != '/' && '/' !in cascadeId then
      var c := PdiReconstruction.CascadeDirName(cascadeId);
      PathJoinPlain(outDir, c);
      PathJoinPlain(outDir + "/" + c, name);
      PathJoin(outputDir, name)
    else
      PathJoin(outputDir, name)
  }
}
