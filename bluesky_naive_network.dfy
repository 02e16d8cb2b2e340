/** The naive Bluesky network (`bluesky/.../004_generate_naive_network.py`):
    only the listed cascades are kept, each repost is attached to the
    author of the cascade's first post, and the star edges are merged and
    weighted as in the retweet case. */
module BlueskyNaiveNetwork {
  import opened Wrappers
  import opened CascadeTree
  import opened NaiveNetwork
  import GenerateNetworks

  /** One Bluesky event: a "post" or a reshare of the post `subjectUri`. */
  datatype Post = Post(kind: string, uri: string, subjectUri: Option<string>, author: UserId)

  /** `df[df.uri.isin(uris)]`, in row order. */
  function OriginalsIn(rows: seq<Post>, uris: seq<string>): (r: seq<Post>)
    ensures forall p :: p in r <==> p in rows && p.uri in uris
    decreases |rows|
  {
    if |rows| == 0 then []
    else
      var last := |rows| - 1;
      assert rows == rows[..last] + [rows[last]];
      OriginalsIn(rows[..last], uris) + (if rows[last].uri in uris then [rows[last]] else [])
  }

  /** `df[df.subject_uri.isin(uris)]`, in row order; a post without a
      subject never matches. */
  function ResharesIn(rows: seq<Post>, uris: seq<string>): (r: seq<Post>)
    ensures forall p :: p in r <==> p in rows && p.subjectUri.Some? && p.subjectUri.value in uris
    decreases |rows|
  {
    if |rows| == 0 then []
    else
      var last := |rows| - 1;
      var keep := rows[last].subjectUri.Some? && rows[last].subjectUri.value in uris;
      assert rows == rows[..last] + [rows[last]];
      ResharesIn(rows[..last], uris) + (if keep then [rows[last]] else [])
  }

  /** The frame kept for the listed cascades: their posts, then their
      reshares. */
  function Selected(rows: seq<Post>, uris: seq<string>): (r: seq<Post>)
    ensures forall p :: p in r <==>
              p in rows && (p.uri in uris || (p.subjectUri.Some? && p.subjectUri.value in uris))
  {
    OriginalsIn(rows, uris) + ResharesIn(rows, uris)
  }

  /** The rows of one cascade as star members: a row is a root when its
      type is "post". */
  function CascadeMembers(df: seq<Post>, cid: string): (m: seq<Member>)
    ensures |m| == |Selected(df, [cid])|
    ensures forall k :: 0 <= k < |m| ==>
              m[k] == (Selected(df, [cid])[k].author, Selected(df, [cid])[k].kind == "post")
  {
    var crs := Selected(df, [cid]);
    seq(|crs|, k requires 0 <= k < |crs| => (crs[k].author, crs[k].kind == "post"))
  }

  /** The members of each listed cascade, in list order. */
  function CascadesOf(df: seq<Post>, uris: seq<string>): (cs: seq<seq<Member>>)
    ensures |cs| == |uris|
    ensures forall k :: 0 <= k < |uris| ==> cs[k] == CascadeMembers(df, uris[k])
  {
    seq(|uris|, k requires 0 <= k < |uris| => CascadeMembers(df, uris[k]))
  }

  /** The authors of a frame. */
  function Authors(df: seq<Post>): (s: set<UserId>)
    ensures forall p :: p in df ==> p.author in s
  {
    set k | 0 <= k < |df| :: df[k].author
  }

  /** What `generate_naive_network` builds from the rows and the list. */
  function NaiveNetworkOf(rows: seq<Post>, urisList: seq<string>): Result<NaiveNet>
  {
    var df := Selected(rows, urisList);
    match Stars(CascadesOf(df, urisList))
    case Err(e) => Err(e)
    case Ok(allEdges) => Ok(NaiveNet(Authors(df), set e | e in allEdges, multiset(allEdges)))
  }

  /** `generate_naive_network`: keep the listed cascades, then one star per
      listed uri, merged. */
  method GenerateNaiveNetwork(rows: seq<Post>, urisList: seq<string>) returns (r: Result<NaiveNet>)
    ensures r == NaiveNetworkOf(rows, urisList)
  {
    var df := OriginalsIn(rows, urisList) + ResharesIn(rows, urisList);
    var allVertices := Authors(df);
    var allEdges: seq<Edge> := [];
    ghost var cascades := CascadesOf(df, urisList);
    for i := 0 to |urisList|
      invariant Stars(cascades[..i]) == Ok(allEdges)
    {
      var members := CascadeRowsMembers(df, urisList[i]);
      assert members == cascades[i];
      assert cascades[..i + 1][..i] == cascades[..i];
      match CascadeStar(members) {
        case Err(e) =>
          StarsErrPersists(cascades, i + 1);
          assert cascades[..|cascades|] == cascades;
          return Err(e);
        case Ok(newEdges) =>
          allEdges := allEdges + newEdges;
      }
    }
    assert cascades[..|urisList|] == cascades;
    var edgeWeightCounter := GenerateNetworks.CountEdges(allEdges);
    var edgeSet := set e | e in allEdges;
    return Ok(NaiveNet(allVertices, edgeSet, edgeWeightCounter));
  }

  /** The rows of cascade `cid` in the kept frame, as star members. */
  method CascadeRowsMembers(df: seq<Post>, cid: string) returns (members: seq<Member>)
    ensures members == CascadeMembers(df, cid)
  {
    var cascadeDf := OriginalsIn(df, [cid]) + ResharesIn(df, [cid]);
    members := seq(|cascadeDf|, k requires 0 <= k < |cascadeDf| => (cascadeDf[k].author, cascadeDf[k].kind == "post"));
  }

  /** Building fails exactly when some listed cascade has no "post" row. */
  lemma NaiveNetworkErrIff(rows: seq<Post>, urisList: seq<string>)
    ensures NaiveNetworkOf(rows, urisList).Err? <==>
              exists c :: c in urisList && Rootless(CascadeMembers(Selected(rows, urisList), c))
  {
    var df := Selected(rows, urisList);
    var cascades := CascadesOf(df, urisList);
    StarsErrIff(cascades);
    if exists c :: c in urisList && Rootless(CascadeMembers(df, c)) {
      var c :| c in urisList && Rootless(CascadeMembers(df, c));
      var k :| 0 <= k < |urisList| && urisList[k] == c;
      assert Rootless(cascades[k]);
    }
    if exists k :: 0 <= k < |cascades| && Rootless(cascades[k]) {
      var k :| 0 <= k < |cascades| && Rootless(cascades[k]);
      assert urisList[k] in urisList;
    }
  }

  /** Every naive edge runs from the first post's author of a listed
      cascade to the author of one of its reshares; both are vertices. */
  lemma NaiveEdgesAreStars(rows: seq<Post>, urisList: seq<string>, e: Edge)
    requires NaiveNetworkOf(rows, urisList).Ok? && e in NaiveNetworkOf(rows, urisList).value.edges
    ensures exists c :: c in urisList &&
              RootOf(CascadeMembers(Selected(rows, urisList), c)) == Some(e.0) &&
              (e.1, false) in CascadeMembers(Selected(rows, urisList), c)
    ensures e.0 in NaiveNetworkOf(rows, urisList).value.vertices
    ensures e.1 in NaiveNetworkOf(rows, urisList).value.vertices
  {
    FrameEdgesAreStars(Selected(rows, urisList), urisList, e);
  }

  lemma FrameEdgesAreStars(df: seq<Post>, urisList: seq<string>, e: Edge)
    requires Stars(CascadesOf(df, urisList)).Ok? && e in Stars(CascadesOf(df, urisList)).value
    ensures exists c :: c in urisList && RootOf(CascadeMembers(df, c)) == Some(e.0) &&
                        (e.1, false) in CascadeMembers(df, c)
    ensures e.0 in Authors(df) && e.1 in Authors(df)
  {
    var cid := EdgeCascade(df, urisList, e);
    MemberAuthor(df, cid, e.0, true);
    MemberAuthor(df, cid, e.1, false);
  }

  /** The listed cascade a merged edge comes from. */
  lemma EdgeCascade(df: seq<Post>, urisList: seq<string>, e: Edge) returns (cid: string)
    requires Stars(CascadesOf(df, urisList)).Ok? && e in Stars(CascadesOf(df, urisList)).value
    ensures cid in urisList && RootOf(CascadeMembers(df, cid)) == Some(e.0) &&
            (e.1, false) in CascadeMembers(df, cid)
  {
    var cascades := CascadesOf(df, urisList);
    StarsEdgeShape(cascades, e);
    var k :| 0 <= k < |cascades| && RootOf(cascades[k]) == Some(e.0) && (e.1, false) in cascades[k];
    cid := urisList[k];
  }

  /** A member of a cascade is an author of the frame. */
  lemma MemberAuthor(df: seq<Post>, cid: string, u: UserId, b: bool)
    requires (u, b) in CascadeMembers(df, cid)
    ensures u in Authors(df)
  {
    var m := CascadeMembers(df, cid);
    var k :| 0 <= k < |m| && m[k] == (u, b);
    assert Selected(df, [cid])[k] in Selected(df, [cid]);
  }

  /** The weights add up to the number of reshares over the listed
      cascades, counted once per time a uri is listed. */
  lemma NaiveTotalWeight(rows: seq<Post>, urisList: seq<string>)
    requires NaiveNetworkOf(rows, urisList).Ok?
    ensures |NaiveNetworkOf(rows, urisList).value.weight| ==
              SumRetweets(CascadesOf(Selected(rows, urisList), urisList))
  {
    StarsLength(CascadesOf(Selected(rows, urisList), urisList));
  }
}
