/** The PDI driver for Bluesky cascades
    (`bluesky/.../001_reconstruct_all_cascades.py`): the same per-run
    reconstruction as for Twitter, over authors' DIDs, plus the cascade
    selection and the file naming of that script. */
module BlueskyReconstruction {
  import opened Wrappers
  import opened PyStrings
  import opened CascadeTree
  import PdiReconstruction

  /** Runs per cascade with more than two posts. */
  const NSimulations: nat := 100

  /** One row of a cascade frame, sorted by time: the record type ("post"
      or "repost"), its author's DID, its time and the author's followers. */
  datatype Event = Event(kind: string, author: UserId, tstamp: int, followers: real)

  function Authors(frame: seq<Event>): (r: seq<UserId>)
    ensures |r| == |frame| && forall i :: 0 <= i < |frame| ==> r[i] == frame[i].author
  {
    seq(|frame|, i requires 0 <= i < |frame| => frame[i].author)
  }

  function Times(frame: seq<Event>): (r: seq<int>)
    ensures |r| == |frame| && forall i :: 0 <= i < |frame| ==> r[i] == frame[i].tstamp
  {
    seq(|frame|, i requires 0 <= i < |frame| => frame[i].tstamp)
  }

  function Followers(frame: seq<Event>): (r: seq<real>)
    ensures |r| == |frame| && forall i :: 0 <= i < |frame| ==> r[i] == frame[i].followers
  {
    seq(|frame|, i requires 0 <= i < |frame| => frame[i].followers)
  }

  /** `entire_cascade_reconstruction` of this script: the code is the
      Twitter driver's, so every run has the Twitter driver's result. */
  method EntireCascadeReconstruction(decay: real -> real, users: seq<UserId>, tstamps: seq<int>,
                                     fcounts: seq<real>, gamma: real, draws: seq<real>)
    returns (r: Result<seq<Edge>>)
    requires |users| == |tstamps| == |fcounts| == |draws| && PdiReconstruction.ValidDraws(draws)
    ensures r == PdiReconstruction.PdiEdges(decay, users, tstamps, fcounts, gamma, draws)
  {
    r := PdiReconstruction.EntireCascadeReconstruction(decay, users, tstamps, fcounts, gamma, draws);
  }

  /** A two-post cascade gets one version, every other one `NSimulations`. */
  function NumVersions(numPosts: nat): (v: nat)
    ensures v == 1 <==> numPosts == 2
    ensures v != 1 ==> v == NSimulations
  {
    if numPosts == 2 then 1 else NSimulations
  }

  /** What the script does with one cascade frame: the earliest row must
      be the original post, or the cascade is skipped (`None`) and nothing
      is written; otherwise every version is reconstructed over the
      authors.  `iloc[0]` of an empty frame raises. */
  function ReconstructCascade(decay: real -> real, frame: seq<Event>, gamma: real,
                              drawsPerVersion: seq<seq<real>>): (r: Result<Option<seq<seq<Edge>>>>)
    requires |drawsPerVersion| == NumVersions(|frame|)
    requires forall v :: 0 <= v < |drawsPerVersion| ==>
               |drawsPerVersion[v]| == |frame| && PdiReconstruction.ValidDraws(drawsPerVersion[v])
    ensures |frame| == 0 ==> r == Err(IndexError)
    ensures r == Ok(None) <==> |frame| > 0 && frame[0].kind != "post"
    ensures r.Ok? && r.value.Some? ==>
              |r.value.value| == NumVersions(|frame|) &&
              forall v :: 0 <= v < |r.value.value| ==>
                PdiReconstruction.PdiEdges(decay, Authors(frame), Times(frame), Followers(frame), gamma,
                                           drawsPerVersion[v]) == Ok(r.value.value[v])
  {
    if |frame| == 0 then Err(IndexError)
    else if frame[0].kind != "post" then Ok(None)
    else
      match PdiReconstruction.AllVersions(decay, Authors(frame), Times(frame), Followers(frame), gamma,
                                          drawsPerVersion)
      case Err(e) => Err(e)
      case Ok(runs) => Ok(Some(runs))
  }

  /** `clean_uri_for_fname`: drop "at://did:plc:" and turn the
      "/app.bsky.feed.post/" separator into "-". */
  function CleanUriForFname(uri: string): (r: string)
    ensures !Contains(uri, "at://did:plc:") && !Contains(uri, "/app.bsky.feed.post/") ==> r == uri
  {
    Replace(Replace(uri, "at://did:plc:", ""), "/app.bsky.feed.post/", "-")
  }

  /** A post URI `at://did:plc:<did>/app.bsky.feed.post/<rkey>` becomes
      `<did>-<rkey>`. */
  lemma CleanPostUri(did: string, rkey: string)
    requires ':' !in did && ':' !in rkey && '/' !in did && '/' !in rkey
    ensures CleanUriForFname("at://did:plc:" + did + "/app.bsky.feed.post/" + rkey) == did + "-" + rkey
  {
    var p1, p2 := "at://did:plc:", "/app.bsky.feed.post/";
    assert p1[2] == ':' && p2[0] == '/' && ':' !in p2;
    ReplaceBoth(p1, p2, did, rkey);
  }

  /** Dropping a prefix with a character the rest lacks, then replacing a
      separator that starts with a character `did` lacks. */
  lemma ReplaceBoth(p1: string, p2: string, did: string, rkey: string)
    requires |p1| > 2 && p1[2] == ':' && |p2| > 0 && p2[0] == '/' && ':' !in p2
    requires ':' !in did && ':' !in rkey && '/' !in did && '/' !in rkey
    ensures Replace(Replace(p1 + did + p2 + rkey, p1, ""), p2, "-") == did + "-" + rkey
  {
    var rest := did + p2 + rkey;
    FindNoneWithoutChar(rest, p1, 2);
    ReplaceOnce("", p1, rest, "");
    assert "" + p1 + rest == p1 + did + p2 + rkey;
    FindNoneWithoutChar(rkey, p2, 0);
    ReplaceOnce(did, p2, rkey, "-");
  }

  /** The example of the function's own documentation, with the URI
      given by its DID and record key. */
  lemma CleanUriExample(did: string, rkey: string)
    requires did == "223yxsx3ifr4vghg36hi3w4a" && rkey == "3kmrdg2pfom2f"
    ensures CleanUriForFname("at://did:plc:" + did + "/app.bsky.feed.post/" + rkey) == did + "-" + rkey
  {
    assert ':' !in did && '/' !in did;
    assert ':' !in rkey && '/' !in rkey;
    CleanPostUri(did, rkey);
  }

  /** Two posts by one author give one cascade whose single edge is a
      self-loop: vertex ids may repeat, so the tree is over positions. */
  lemma SameAuthorSelfLoop(decay: real -> real, a: UserId, t0: int, t1: int, f0: real, f1: real,
                            gamma: real, d: seq<real>)
    requires |d| == 2 && PdiReconstruction.ValidDraws(d)
    ensures PdiReconstruction.PdiEdges(decay, [a, a], [t0, t1], [f0, f1], gamma, d) == Ok([(a, a)])
  {
    assert EdgesFromParents([a, a], [0]) == [(a, a)];
  }

  /** The file of version `vnum` of the cascade rooted at `uri`. */
  function OutputPath(outDir: string, gammaText: string, alphaText: string, uri: string, vnum: nat): (r: string)
    ensures Basename(r) == PdiReconstruction.VersionFileName(vnum)
  {
    var gammaDir := PathJoin(outDir, PdiReconstruction.GammaDirName(gammaText));
    var alphaDir := PathJoin(gammaDir, PdiReconstruction.AlphaDirName(alphaText));
    var cascadeDir := PathJoin(alphaDir, CleanUriForFname(uri));
    BasenameOfPathJoin(cascadeDir, PdiReconstruction.VersionFileName(vnum));
    PathJoin(cascadeDir, PdiReconstruction.VersionFileName(vnum))
  }
}
