/** The PDI driver for Twitter cascades (`reconstruct_all_cascades.py`):
    one run of `entire_cascade_reconstruction`, the number of runs per
    cascade, and the layout of the output files.

    A run draws one uniform sample per event after the first two;
    `draws[idx]` is the sample used for the event at position `idx`
    (entries 0 and 1 are unused). */
module PdiReconstruction {
  import opened Wrappers
  import opened PyStrings
  import opened Reconstruction
  import opened CascadeTree

  /** Runs per cascade with more than two events. */
  const NSimulations: nat := 100

  predicate ValidDraws(draws: seq<real>) {
    forall i :: 0 <= i < |draws| ==> 0.0 <= draws[i] < 1.0
  }

  /** The parent positions of the events at positions 1 .. k-1: position
      1 hangs off the root, and every later event's parent is drawn from
      the candidates before it. */
  function PdiParents(decay: real -> real, tstamps: seq<int>, fcounts: seq<real>,
                      gamma: real, draws: seq<real>, k: nat): (r: Result<seq<nat>>)
    requires |tstamps| == |fcounts| == |draws| && ValidDraws(draws)
    requires 2 <= k <= |tstamps|
    ensures r.Ok? ==> |r.value| == k - 1 && IsPositionTree(r.value) && r.value[0] == 0
    decreases k
  {
    if k == 2 then Ok([0])
    else
      match PdiParents(decay, tstamps, fcounts, gamma, draws, k - 1)
      case Err(e) => Err(e)
      case Ok(ps) =>
        match ParentIndex(decay, tstamps[..k - 1], fcounts[..k - 1], tstamps[k - 1], gamma, draws[k - 1])
        case Err(e) => Err(e)
        case Ok(p) => Ok(ps + [p])
  }

  /** The edge list of one run, or the exception it raises: fewer than two
      events fail on `users[1]`, and a failing draw aborts the run. */
  function PdiEdges(decay: real -> real, users: seq<UserId>, tstamps: seq<int>, fcounts: seq<real>,
                    gamma: real, draws: seq<real>): (r: Result<seq<Edge>>)
    requires |users| == |tstamps| == |fcounts| == |draws| && ValidDraws(draws)
    ensures |users| < 2 ==> r == Err(IndexError)
    ensures r.Ok? ==> |r.value| == |users| - 1
  {
    if |users| < 2 then Err(IndexError)
    else
      match PdiParents(decay, tstamps, fcounts, gamma, draws, |users|)
      case Err(e) => Err(e)
      case Ok(ps) => Ok(EdgesFromParents(users, ps))
  }

  /** `entire_cascade_reconstruction`: the first edge is fixed, then each
      later event is attached to a parent inferred from the events before
      it, in order. */
  method EntireCascadeReconstruction(decay: real -> real, users: seq<UserId>, tstamps: seq<int>,
                                     fcounts: seq<real>, gamma: real, draws: seq<real>)
    returns (r: Result<seq<Edge>>)
    requires |users| == |tstamps| == |fcounts| == |draws| && ValidDraws(draws)
    ensures r == PdiEdges(decay, users, tstamps, fcounts, gamma, draws)
  {
    if |users| < 2 {
      return Err(IndexError);
    }
    var edgeList: seq<Edge> := [(users[0], users[1])];
    ghost var parents: seq<nat> := [0];
    assert users[..2] == [users[0], users[1]];
    var numRetweets := |tstamps|;
    for idx := 2 to numRetweets
      invariant PdiParents(decay, tstamps, fcounts, gamma, draws, idx) == Ok(parents)
      invariant |parents| == idx - 1 && IsPositionTree(parents)
      invariant edgeList == EdgesFromParents(users[..idx], parents)
    {
      var inferred := WhoRetweetedWhom(decay, users[..idx], tstamps[..idx], fcounts[..idx],
                                       tstamps[idx], gamma, draws[idx]);
      WhoRetweetedWhomIsParentIndex(decay, users[..idx], tstamps[..idx], fcounts[..idx],
                                    tstamps[idx], gamma, draws[idx]);
      ghost var k := ParentIndex(decay, tstamps[..idx], fcounts[..idx], tstamps[idx], gamma, draws[idx]);
      if inferred.Err? {
        PdiParentsStepErr(decay, tstamps, fcounts, gamma, draws, idx, k.error);
        PdiEdgesOfFailedPrefix(decay, users, tstamps, fcounts, gamma, draws, idx + 1, k.error);
        return Err(inferred.error);
      }
      PdiRunExtends(decay, users, tstamps, fcounts, gamma, draws, idx, parents, k.value);
      parents := parents + [k.value];
      edgeList := edgeList + [(inferred.value, users[idx])];
    }
    assert users[..numRetweets] == users;
    PdiEdgesOfParents(decay, users, tstamps, fcounts, gamma, draws);
    return Ok(edgeList);
  }

  /** A run whose first `k` events already fail has that failure as its
      result. */
  lemma PdiEdgesOfFailedPrefix(decay: real -> real, users: seq<UserId>, tstamps: seq<int>, fcounts: seq<real>,
                               gamma: real, draws: seq<real>, k: nat, e: PyError)
    requires |users| == |tstamps| == |fcounts| == |draws| && ValidDraws(draws)
    requires 2 <= k <= |users| && PdiParents(decay, tstamps, fcounts, gamma, draws, k) == Err(e)
    ensures PdiEdges(decay, users, tstamps, fcounts, gamma, draws) == Err(e)
  {
    PdiParentsErrPersists(decay, tstamps, fcounts, gamma, draws, k, |users|);
    PdiEdgesOfParents(decay, users, tstamps, fcounts, gamma, draws);
  }

  /** A draw that fails at position `k` ends the first k + 1 events with
      that failure. */
  lemma PdiParentsStepErr(decay: real -> real, tstamps: seq<int>, fcounts: seq<real>,
                          gamma: real, draws: seq<real>, k: nat, e: PyError)
    requires |tstamps| == |fcounts| == |draws| && ValidDraws(draws)
    requires 2 <= k < |tstamps| && PdiParents(decay, tstamps, fcounts, gamma, draws, k).Ok?
    requires ParentIndex(decay, tstamps[..k], fcounts[..k], tstamps[k], gamma, draws[k]) == Err(e)
    ensures PdiParents(decay, tstamps, fcounts, gamma, draws, k + 1) == Err(e)
  {
  }

  /** A draw that succeeds at position `idx` adds its parent to the run
      and its edge to the edge list. */
  lemma PdiRunExtends(decay: real -> real, users: seq<UserId>, tstamps: seq<int>, fcounts: seq<real>,
                      gamma: real, draws: seq<real>, idx: nat, parents: seq<nat>, p: nat)
    requires |users| == |tstamps| == |fcounts| == |draws| && ValidDraws(draws)
    requires 2 <= idx < |users| && PdiParents(decay, tstamps, fcounts, gamma, draws, idx) == Ok(parents)
    requires ParentIndex(decay, tstamps[..idx], fcounts[..idx], tstamps[idx], gamma, draws[idx]) == Ok(p)
    ensures PdiParents(decay, tstamps, fcounts, gamma, draws, idx + 1) == Ok(parents + [p])
    ensures IsPositionTree(parents + [p])
    ensures EdgesFromParents(users[..idx + 1], parents + [p]) ==
            EdgesFromParents(users[..idx], parents) + [(users[p], users[idx])]
  {
    PdiParentsStep(decay, tstamps, fcounts, gamma, draws, idx, parents);
    EdgesFromPrefixSnoc(users, parents, idx, p);
  }

  lemma PdiEdgesOfParents(decay: real -> real, users: seq<UserId>, tstamps: seq<int>, fcounts: seq<real>,
                          gamma: real, draws: seq<real>)
    requires |users| == |tstamps| == |fcounts| == |draws| >= 2 && ValidDraws(draws)
    ensures var ps := PdiParents(decay, tstamps, fcounts, gamma, draws, |users|);
            PdiEdges(decay, users, tstamps, fcounts, gamma, draws) ==
            if ps.Err? then Err(ps.error) else Ok(EdgesFromParents(users, ps.value))
  {
  }

  /** One more event: the run so far, extended by the parent drawn for the
      event at position k, or the exception that draw raises. */
  lemma PdiParentsStep(decay: real -> real, tstamps: seq<int>, fcounts: seq<real>,
                       gamma: real, draws: seq<real>, k: nat, ps: seq<nat>)
    requires |tstamps| == |fcounts| == |draws| && ValidDraws(draws)
    requires 2 <= k < |tstamps|
    requires PdiParents(decay, tstamps, fcounts, gamma, draws, k) == Ok(ps)
    ensures var p := ParentIndex(decay, tstamps[..k], fcounts[..k], tstamps[k], gamma, draws[k]);
            PdiParents(decay, tstamps, fcounts, gamma, draws, k + 1) ==
            if p.Err? then Err(p.error) else Ok(ps + [p.value])
  {
  }

  /** A failed draw at some event makes the whole run fail with the same
      exception. */
  lemma PdiParentsErrPersists(decay: real -> real, tstamps: seq<int>, fcounts: seq<real>,
                              gamma: real, draws: seq<real>, k: nat, n: nat)
    requires |tstamps| == |fcounts| == |draws| && ValidDraws(draws)
    requires 2 <= k <= n <= |tstamps|
    requires PdiParents(decay, tstamps, fcounts, gamma, draws, k).Err?
    ensures PdiParents(decay, tstamps, fcounts, gamma, draws, n) ==
            PdiParents(decay, tstamps, fcounts, gamma, draws, k)
  {
    var j := k;
    while j < n
      invariant k <= j <= n
      invariant PdiParents(decay, tstamps, fcounts, gamma, draws, j) ==
                PdiParents(decay, tstamps, fcounts, gamma, draws, k)
    {
      PdiParentsErrStep(decay, tstamps, fcounts, gamma, draws, j);
      j := j + 1;
    }
  }

  /** An exception at one event is the result of the next one too. */
  lemma PdiParentsErrStep(decay: real -> real, tstamps: seq<int>, fcounts: seq<real>,
                          gamma: real, draws: seq<real>, k: nat)
    requires |tstamps| == |fcounts| == |draws| && ValidDraws(draws)
    requires 2 <= k < |tstamps|
    requires PdiParents(decay, tstamps, fcounts, gamma, draws, k).Err?
    ensures PdiParents(decay, tstamps, fcounts, gamma, draws, k + 1) ==
            PdiParents(decay, tstamps, fcounts, gamma, draws, k)
  {
  }

  /** The shape of a successful run: n - 1 edges, the first one from the
      root to the second event, the k-th targeting the event at position
      k + 1, and every source an event at an earlier position. */
  lemma PdiEdgesShape(decay: real -> real, users: seq<UserId>, tstamps: seq<int>, fcounts: seq<real>,
                      gamma: real, draws: seq<real>)
    requires |users| == |tstamps| == |fcounts| == |draws| && ValidDraws(draws)
    requires PdiEdges(decay, users, tstamps, fcounts, gamma, draws).Ok?
    ensures var edges := PdiEdges(decay, users, tstamps, fcounts, gamma, draws).value;
            |edges| == |users| - 1 && edges[0] == (users[0], users[1]) &&
            (forall k :: 0 <= k < |edges| ==> edges[k].1 == users[k + 1]) &&
            (forall k :: 0 <= k < |edges| ==> exists p :: 0 <= p <= k && edges[k].0 == users[p])
  {
    EdgesFromParentsShape(users, PdiParents(decay, tstamps, fcounts, gamma, draws, |users|).value);
  }

  /** The parent drawn for the event at position k depends only on the
      first k + 1 events and on that event's own sample: the parents drawn
      before it do not change its candidates. */
  lemma ParentDependsOnlyOnPrefix(decay: real -> real, gamma: real,
                                  t1: seq<int>, f1: seq<real>, d1: seq<real>,
                                  t2: seq<int>, f2: seq<real>, d2: seq<real>, k: nat)
    requires |t1| == |f1| == |d1| && ValidDraws(d1)
    requires |t2| == |f2| == |d2| && ValidDraws(d2)
    requires 3 <= k + 1 <= |t1| && k + 1 <= |t2|
    requires t1[..k + 1] == t2[..k + 1] && f1[..k + 1] == f2[..k + 1] && d1[k] == d2[k]
    requires PdiParents(decay, t1, f1, gamma, d1, k + 1).Ok?
    requires PdiParents(decay, t2, f2, gamma, d2, k + 1).Ok?
    ensures PdiParents(decay, t1, f1, gamma, d1, k + 1).value[k - 1] ==
            PdiParents(decay, t2, f2, gamma, d2, k + 1).value[k - 1]
  {
    assert t1[..k] == t1[..k + 1][..k] && t2[..k] == t2[..k + 1][..k];
    assert f1[..k] == f1[..k + 1][..k] && f2[..k] == f2[..k + 1][..k];
    assert t1[k] == t1[..k + 1][k] && t2[k] == t2[..k + 1][k];
  }

  /** Follower counts whose first two entries are not both zero give every
      prefix from length 2 on a positive total. */
  lemma PrefixTotalsPositive(fcounts: seq<real>, k: nat)
    requires NonNegative(fcounts) && 2 <= k <= |fcounts|
    requires fcounts[0] + fcounts[1] > 0.0
    ensures Sum(fcounts[..k]) > 0.0
  {
    var p := fcounts[..k];
    assert p[1..][1..] == fcounts[2..k];
    assert NonNegative(fcounts[2..k]);
    SumNonNegative(fcounts[2..k]);
  }

  /** A well-formed cascade always reconstructs: events in time order,
      non-negative follower counts with a positive total on the first two,
      gamma in [0, 1] and a valid decay. */
  lemma {:induction false} PdiParentsSucceed(decay: real -> real, tstamps: seq<int>, fcounts: seq<real>,
                                             gamma: real, draws: seq<real>, k: nat)
    requires |tstamps| == |fcounts| == |draws| && ValidDraws(draws)
    requires 2 <= k <= |tstamps|
    requires forall i, j :: 0 <= i <= j < |tstamps| ==> tstamps[i] <= tstamps[j]
    requires NonNegative(fcounts) && fcounts[0] + fcounts[1] > 0.0
    requires 0.0 <= gamma <= 1.0 && ValidDecay(decay)
    ensures PdiParents(decay, tstamps, fcounts, gamma, draws, k).Ok?
    decreases k
  {
    if k > 2 {
      PdiParentsSucceed(decay, tstamps, fcounts, gamma, draws, k - 1);
      PrefixTotalsPositive(fcounts, k - 1);
      var t, f := tstamps[..k - 1], fcounts[..k - 1];
      assert forall i :: 0 <= i < |t| ==> t[i] <= tstamps[k - 1];
      assert NonNegative(f);
      ParentIndexSucceeds(decay, t, f, tstamps[k - 1], gamma, draws[k - 1]);
    }
  }

  lemma PdiEdgesSucceed(decay: real -> real, users: seq<UserId>, tstamps: seq<int>, fcounts: seq<real>,
                        gamma: real, draws: seq<real>)
    requires |users| == |tstamps| == |fcounts| == |draws| >= 2 && ValidDraws(draws)
    requires forall i, j :: 0 <= i <= j < |tstamps| ==> tstamps[i] <= tstamps[j]
    requires NonNegative(fcounts) && fcounts[0] + fcounts[1] > 0.0
    requires 0.0 <= gamma <= 1.0 && ValidDecay(decay)
    ensures PdiEdges(decay, users, tstamps, fcounts, gamma, draws).Ok?
  {
    PdiParentsSucceed(decay, tstamps, fcounts, gamma, draws, |users|);
  }

  // ---------------------------------------------------------------------
  // Versions and output layout
  // ---------------------------------------------------------------------

  /** A two-event cascade has only one possible reconstruction, so it gets
      one version; every other cascade gets `NSimulations`. */
  function NumVersions(numTweets: nat): (v: nat)
    ensures v == 1 <==> numTweets == 2
    ensures v != 1 ==> v == NSimulations
  {
    if numTweets == 2 then 1 else NSimulations
  }

  /** A two-event cascade has a single possible edge list, whatever the
      draws: that is why one version suffices. */
  lemma TwoEventCascadeIsDeterministic(decay: real -> real, users: seq<UserId>, tstamps: seq<int>,
                                       fcounts: seq<real>, gamma: real, d1: seq<real>, d2: seq<real>)
    requires |users| == |tstamps| == |fcounts| == |d1| == |d2| == 2
    requires ValidDraws(d1) && ValidDraws(d2)
    ensures PdiEdges(decay, users, tstamps, fcounts, gamma, d1) == Ok([(users[0], users[1])])
    ensures PdiEdges(decay, users, tstamps, fcounts, gamma, d2) == Ok([(users[0], users[1])])
  {
    assert EdgesFromParents(users, [0]) == [(users[0], users[1])];
  }

  /** The runs of one cascade: `NumVersions` independent calls, one list
      of samples each; the first failing run raises for all. */
  function AllVersions(decay: real -> real, users: seq<UserId>, tstamps: seq<int>, fcounts: seq<real>,
                       gamma: real, drawsPerVersion: seq<seq<real>>): (r: Result<seq<seq<Edge>>>)
    requires |users| == |tstamps| == |fcounts|
    requires forall v :: 0 <= v < |drawsPerVersion| ==>
               |drawsPerVersion[v]| == |users| && ValidDraws(drawsPerVersion[v])
    ensures r.Ok? ==> |r.value| == |drawsPerVersion|
    ensures r.Ok? ==> forall v :: 0 <= v < |r.value| ==>
              PdiEdges(decay, users, tstamps, fcounts, gamma, drawsPerVersion[v]) == Ok(r.value[v])
    ensures r.Err? ==> exists v :: 0 <= v < |drawsPerVersion| &&
                                   PdiEdges(decay, users, tstamps, fcounts, gamma, drawsPerVersion[v]).Err?
    decreases |drawsPerVersion|
  {
    if |drawsPerVersion| == 0 then Ok([])
    else
      var last := |drawsPerVersion| - 1;
      match AllVersions(decay, users, tstamps, fcounts, gamma, drawsPerVersion[..last])
      case Err(e) => Err(e)
      case Ok(runs) =>
        match PdiEdges(decay, users, tstamps, fcounts, gamma, drawsPerVersion[last])
        case Err(e) => Err(e)
        case Ok(edges) => Ok(runs + [edges])
  }

  /** `f"gamma_{gamma}".replace(".", "_")`, from the text of the gamma
      value (for instance "0.25" gives "gamma_0_25"). */
  function GammaDirName(gammaText: string): (r: string)
    ensures r == "gamma_" + MapChar(gammaText, '.', '_')
    ensures '.' !in r
    ensures '/' !in gammaText ==> '/' !in r
  {
    ReplaceCharIsMap("gamma_" + gammaText, '.', '_');
    MapCharConcat("gamma_", gammaText, '.', '_');
    MapCharRemoves("gamma_" + gammaText, '.', '_');
    Replace("gamma_" + gammaText, ".", "_")
  }

  /** `f"alpha_{alpha}".replace(".", "_")`. */
  function AlphaDirName(alphaText: string): (r: string)
    ensures r == "alpha_" + MapChar(alphaText, '.', '_')
    ensures '.' !in r
    ensures '/' !in alphaText ==> '/' !in r
  {
    ReplaceCharIsMap("alpha_" + alphaText, '.', '_');
    MapCharConcat("alpha_", alphaText, '.', '_');
    MapCharRemoves("alpha_" + alphaText, '.', '_');
    Replace("alpha_" + alphaText, ".", "_")
  }

  /** `cascade_id.zfill(5)`. */
  function CascadeDirName(cascadeId: string): (r: string)
    ensures |r| == if |cascadeId| >= 5 then |cascadeId| else 5
    ensures '/' !in cascadeId ==> '/' !in r
  {
    ZFill(cascadeId, 5)
  }

  /** `f"v_{str(vnum).zfill(3)}.gmlz"`: the version number, padded to
      three digits, reads back from between the prefix and the suffix. */
  function VersionFileName(vnum: nat): (r: string)
    ensures |r| >= 10 && r[..2] == "v_" && r[|r| - 5..] == ".gmlz"
    ensures ParseInt(r[2..|r| - 5]) == Ok(vnum)
    ensures '/' !in r
  {
    var digits := ZFill(NatToString(vnum), 3);
    ParseZFilledNat(vnum, 3);
    ZFillNatDigits(vnum, 3);
    var r := "v_" + digits + ".gmlz";
    assert r[2..|r| - 5] == digits;
    assert forall i :: 0 <= i < |digits| ==> r[i + 2] == digits[i];
    r
  }

  /** Different version numbers never share a file name, and the number
      can be read back from the name. */
  lemma VersionFileNamesDistinct(v: nat, w: nat)
    requires VersionFileName(v) == VersionFileName(w)
    ensures v == w
  {
    var a, b := ZFill(NatToString(v), 3), ZFill(NatToString(w), 3);
    var x, y := VersionFileName(v), VersionFileName(w);
    assert |a| == |x| - 7 == |y| - 7 == |b|;
    assert a == x[2..|x| - 5] && b == y[2..|y| - 5];
    ZFillNatInjective(v, w, 3);
  }

  /** The file written for version `vnum` (numbered from 1) of a cascade:
      `<out_dir>/gamma_../alpha_../<cascade_id.zfill(5)>/v_NNN.gmlz`. */
  function OutputPath(outDir: string, gammaText: string, alphaText: string,
                      cascadeId: string, vnum: nat): (r: string)
    ensures Basename(r) == VersionFileName(vnum)
  {
    var gammaDir := PathJoin(outDir, GammaDirName(gammaText));
    var alphaDir := PathJoin(gammaDir, AlphaDirName(alphaText));
    var cascadeDir := PathJoin(alphaDir, CascadeDirName(cascadeId));
    BasenameOfPathJoin(cascadeDir, VersionFileName(vnum));
    PathJoin(cascadeDir, VersionFileName(vnum))
  }

  /** With directory names free of "/" the path is the four names joined
      by "/". */
  lemma OutputPathLayout(outDir: string, gammaText: string, alphaText: string, cascadeId: string, vnum: nat)
    requires |outDir| > 0 && outDir[|outDir| - 1] != '/'
    requires '/' !in gammaText && '/' !in alphaText && '/' !in cascadeId
    ensures OutputPath(outDir, gammaText, alphaText, cascadeId, vnum) ==
            outDir + "/" + GammaDirName(gammaText) + "/" + AlphaDirName(alphaText) + "/" +
            CascadeDirName(cascadeId) + "/" + VersionFileName(vnum)
  {
    var g, a, c := GammaDirName(gammaText), AlphaDirName(alphaText), CascadeDirName(cascadeId);
    PathJoinPlain(outDir, g);
    var d1 := outDir + "/" + g;
    PathJoinPlain(d1, a);
    var d2 := d1 + "/" + a;
    PathJoinPlain(d2, c);
  }
}
