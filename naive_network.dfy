/** The naive retweet network (`midterm/.../004_generate_naive_network.py`):
    every retweet of a cascade is attached straight to the cascade's root,
    the resulting star edges are merged over all cascades, and each
    distinct edge is weighted by how often it arose. */
module NaiveNetwork {
  import opened Wrappers
  import opened CascadeTree
  import GenerateNetworks

  // ---------------------------------------------------------------------
  // One cascade: a star around its root
  // ---------------------------------------------------------------------

  /** A row of a cascade reduced to what the star needs: the user and
      whether the row is flagged as the root. */
  type Member = (UserId, bool)

  /** Position of the first row flagged as root, if any. */
  function FirstRoot(members: seq<Member>): (r: Option<nat>)
    ensures r.None? <==> forall k :: 0 <= k < |members| ==> !members[k].1
    ensures r.Some? ==> r.value < |members| && members[r.value].1
    ensures r.Some? ==> forall j :: 0 <= j < r.value ==> !members[j].1
    decreases |members|
  {
    if |members| == 0 then None
    else if members[0].1 then Some(0)
    else
      match FirstRoot(members[1..])
      case None => None
      case Some(i) => Some(i + 1)
  }

  /** `loc[is_root, user].values[0]`: the user of the first root row. */
  function RootOf(members: seq<Member>): (r: Option<UserId>)
    ensures r.Some? ==> (r.value, true) in members
  {
    match FirstRoot(members)
    case None => None
    case Some(i) => Some(members[i].0)
  }

  /** `loc[~is_root, user].values`: the users of the other rows, in order. */
  function Retweeters(members: seq<Member>): (r: seq<UserId>)
    ensures |r| <= |members|
    ensures forall k :: 0 <= k < |r| ==> (r[k], false) in members
    ensures forall k :: 0 <= k < |members| && !members[k].1 ==> members[k].0 in r
    decreases |members|
  {
    if |members| == 0 then []
    else
      var last := |members| - 1;
      var prefix := members[..last];
      assert forall k :: 0 <= k < last ==> prefix[k] == members[k];
      Retweeters(prefix) + (if members[last].1 then [] else [members[last].0])
  }

  /** `np.column_stack((np.full(shape, root), users))`. */
  function StarEdges(root: UserId, users: seq<UserId>): (r: seq<Edge>)
    ensures |r| == |users|
    ensures forall k :: 0 <= k < |r| ==> r[k] == (root, users[k])
  {
    seq(|users|, k requires 0 <= k < |users| => (root, users[k]))
  }

  /** The edges of one cascade, or the IndexError of `values[0]` when no
      row is flagged as root. */
  function CascadeStar(members: seq<Member>): (r: Result<seq<Edge>>)
    ensures r.Err? <==> RootOf(members).None?
    ensures r.Err? ==> r.error == IndexError
  {
    match RootOf(members)
    case None => Err(IndexError)
    case Some(root) => Ok(StarEdges(root, Retweeters(members)))
  }

  /** No row of the cascade is flagged as root. */
  predicate Rootless(members: seq<Member>) {
    forall k :: 0 <= k < |members| ==> !members[k].1
  }

  /** A cascade's star: one edge per non-root row, each from the first
      root's user to that row's user; it fails exactly when the cascade
      has no root row. */
  lemma CascadeStarShape(members: seq<Member>)
    ensures CascadeStar(members).Err? <==> Rootless(members)
    ensures CascadeStar(members).Ok? ==>
              var edges := CascadeStar(members).value;
              |edges| == |Retweeters(members)| &&
              forall k :: 0 <= k < |edges| ==>
                RootOf(members) == Some(edges[k].0) && (edges[k].0, true) in members &&
                (edges[k].1, false) in members
  {
    match FirstRoot(members)
    case None =>
    case Some(i) =>
      assert members[i] == (members[i].0, true);
  }

  // ---------------------------------------------------------------------
  // Many cascades
  // ---------------------------------------------------------------------

  /** The star edges of the cascades in loop order, concatenated, or the
      first cascade's failure. */
  function Stars(cascades: seq<seq<Member>>): (r: Result<seq<Edge>>)
    ensures r.Err? ==> r.error == IndexError
    decreases |cascades|
  {
    if |cascades| == 0 then Ok([])
    else
      var last := |cascades| - 1;
      match Stars(cascades[..last])
      case Err(e) => Err(e)
      case Ok(edges) =>
        match CascadeStar(cascades[last])
        case Err(e) => Err(e)
        case Ok(newEdges) => Ok(edges + newEdges)
  }

  /** How many rows of the cascades are not roots. */
  function SumRetweets(cascades: seq<seq<Member>>): nat
    decreases |cascades|
  {
    if |cascades| == 0 then 0
    else SumRetweets(cascades[..|cascades| - 1]) + |Retweeters(cascades[|cascades| - 1])|
  }

  /** Merging fails exactly when some cascade has no root row. */
  lemma {:induction false} StarsErrIff(cascades: seq<seq<Member>>)
    ensures Stars(cascades).Err? <==> exists k :: 0 <= k < |cascades| && Rootless(cascades[k])
    decreases |cascades|
  {
    if |cascades| > 0 {
      var last := |cascades| - 1;
      var prefix := cascades[..last];
      StarsErrIff(prefix);
      StarsErrLast(cascades);
      CascadeStarShape(cascades[last]);
      RootlessSomewhere(cascades, prefix);
    }
  }

  /** The stars fail when those before the last cascade fail or the last
      one does. */
  lemma StarsErrLast(cascades: seq<seq<Member>>)
    requires |cascades| > 0
    ensures Stars(cascades).Err? <==>
              Stars(cascades[..|cascades| - 1]).Err? || CascadeStar(cascades[|cascades| - 1]).Err?
  {
  }

  /** A rootless cascade is among those before the last, or is the last. */
  lemma RootlessSomewhere(cascades: seq<seq<Member>>, prefix: seq<seq<Member>>)
    requires |cascades| > 0 && prefix == cascades[..|cascades| - 1]
    ensures (exists k :: 0 <= k < |cascades| && Rootless(cascades[k])) <==>
              (exists k :: 0 <= k < |prefix| && Rootless(prefix[k])) ||
              Rootless(cascades[|cascades| - 1])
  {
    if exists k :: 0 <= k < |cascades| && Rootless(cascades[k]) {
      var k :| 0 <= k < |cascades| && Rootless(cascades[k]);
      if k < |prefix| {
        assert prefix[k] == cascades[k];
      }
    }
    if exists k :: 0 <= k < |prefix| && Rootless(prefix[k]) {
      var k :| 0 <= k < |prefix| && Rootless(prefix[k]);
      assert cascades[k] == prefix[k];
    }
  }

  /** One merged edge per non-root row over all cascades. */
  lemma {:induction false} StarsLength(cascades: seq<seq<Member>>)
    requires Stars(cascades).Ok?
    ensures |Stars(cascades).value| == SumRetweets(cascades)
    decreases |cascades|
  {
    if |cascades| > 0 {
      var last := |cascades| - 1;
      StarsLength(cascades[..last]);
      CascadeStarShape(cascades[last]);
    }
  }

  /** Every merged edge runs from the root of some cascade to a non-root
      user of that same cascade. */
  lemma {:induction false} StarsEdgeShape(cascades: seq<seq<Member>>, e: Edge)
    requires Stars(cascades).Ok? && e in Stars(cascades).value
    ensures exists k :: 0 <= k < |cascades| && RootOf(cascades[k]) == Some(e.0) && (e.1, false) in cascades[k]
    decreases |cascades|
  {
    var last := |cascades| - 1;
    var prefix := cascades[..last];
    var edges := Stars(prefix).value;
    if e in edges {
      StarsEdgeShape(prefix, e);
      var k :| 0 <= k < |prefix| && RootOf(prefix[k]) == Some(e.0) && (e.1, false) in prefix[k];
      assert cascades[k] == prefix[k];
    } else {
      CascadeStarShape(cascades[last]);
      var newEdges := CascadeStar(cascades[last]).value;
      var k :| 0 <= k < |newEdges| && newEdges[k] == e;
    }
  }

  // ---------------------------------------------------------------------
  // The sampled rows
  // ---------------------------------------------------------------------

  /** One row of the sampled cascades. */
  datatype Row = Row(cascadeId: string, userId: UserId, isRoot: bool)

  /** The naive network: users, distinct edges, and how often each edge
      arose (the `Counter`). */
  datatype NaiveNet = NaiveNet(vertices: set<UserId>, edges: set<Edge>, weight: multiset<Edge>)

  /** `df[df["cascade_id"] == cid]`, in row order. */
  function CascadeRows(rows: seq<Row>, cid: string): (r: seq<Row>)
    ensures forall k :: 0 <= k < |r| ==> r[k].cascadeId == cid && r[k] in rows
    decreases |rows|
  {
    if |rows| == 0 then []
    else
      var last := |rows| - 1;
      CascadeRows(rows[..last], cid) + (if rows[last].cascadeId == cid then [rows[last]] else [])
  }

  /** `df["cascade_id"].unique()`: each cascade id once, in order of first
      appearance. */
  function UniqueIds(rows: seq<Row>): (r: seq<string>)
    ensures forall i, j :: 0 <= i < j < |r| ==> r[i] != r[j]
    ensures forall k :: 0 <= k < |rows| ==> rows[k].cascadeId in r
    decreases |rows|
  {
    if |rows| == 0 then []
    else
      var last := |rows| - 1;
      var prefix := rows[..last];
      assert forall k :: 0 <= k < last ==> prefix[k] == rows[k];
      var ids := UniqueIds(prefix);
      if rows[last].cascadeId in ids then ids else ids + [rows[last].cascadeId]
  }

  /** The rows of a cascade as star members. */
  function Members(crs: seq<Row>): (m: seq<Member>)
    ensures |m| == |crs|
    ensures forall k :: 0 <= k < |crs| ==> m[k] == (crs[k].userId, crs[k].isRoot)
  {
    seq(|crs|, k requires 0 <= k < |crs| => (crs[k].userId, crs[k].isRoot))
  }

  /** The members of each cascade, in the order the ids are visited. */
  function CascadesOf(rows: seq<Row>, ids: seq<string>): (cs: seq<seq<Member>>)
    ensures |cs| == |ids|
    ensures forall k :: 0 <= k < |ids| ==> cs[k] == Members(CascadeRows(rows, ids[k]))
  {
    seq(|ids|, k requires 0 <= k < |ids| => Members(CascadeRows(rows, ids[k])))
  }

  /** What `generate_naive_network` builds from the rows. */
  function NaiveNetworkOf(rows: seq<Row>): Result<NaiveNet>
  {
    match Stars(CascadesOf(rows, UniqueIds(rows)))
    case Err(e) => Err(e)
    case Ok(allEdges) =>
      Ok(NaiveNet(set k | 0 <= k < |rows| :: rows[k].userId, set e | e in allEdges, multiset(allEdges)))
  }

  /** `generate_naive_network`: one star per cascade id, merged. */
  method GenerateNaiveNetwork(rows: seq<Row>) returns (r: Result<NaiveNet>)
    ensures r == NaiveNetworkOf(rows)
  {
    var allVertices := set k | 0 <= k < |rows| :: rows[k].userId;
    var allEdges: seq<Edge> := [];
    var ids := UniqueIds(rows);
    ghost var cascades := CascadesOf(rows, ids);
    for i := 0 to |ids|
      invariant Stars(cascades[..i]) == Ok(allEdges)
    {
      var cascadeRows := CascadeRows(rows, ids[i]);
      assert cascades[..i + 1][..i] == cascades[..i];
      match CascadeStar(Members(cascadeRows)) {
        case Err(e) =>
          StarsErrPersists(cascades, i + 1);
          assert cascades[..|cascades|] == cascades;
          return Err(e);
        case Ok(newEdges) =>
          allEdges := allEdges + newEdges;
      }
    }
    assert cascades[..|ids|] == cascades;
    var edgeWeightCounter := GenerateNetworks.CountEdges(allEdges);
    var edgeSet := set e | e in allEdges;
    return Ok(NaiveNet(allVertices, edgeSet, edgeWeightCounter));
  }

  /** Once a prefix of the cascades fails, every longer prefix fails the
      same way. */
  lemma {:induction false} StarsErrPersists(cascades: seq<seq<Member>>, i: nat)
    requires i <= |cascades| && Stars(cascades[..i]).Err?
    ensures Stars(cascades).Err?
    decreases |cascades| - i
  {
    if i < |cascades| {
      assert cascades[..i + 1][..i] == cascades[..i];
      StarsErrPersists(cascades, i + 1);
    } else {
      assert cascades[..i] == cascades;
    }
  }

  // ---------------------------------------------------------------------
  // Properties of the naive network
  // ---------------------------------------------------------------------

  /** Building fails exactly when some cascade has no root row. */
  lemma NaiveNetworkErrIff(rows: seq<Row>)
    ensures NaiveNetworkOf(rows).Err? <==>
              exists c :: c in UniqueIds(rows) && Rootless(Members(CascadeRows(rows, c)))
  {
    var ids := UniqueIds(rows);
    var cascades := CascadesOf(rows, ids);
    StarsErrIff(cascades);
    if exists c :: c in ids && Rootless(Members(CascadeRows(rows, c))) {
      var c :| c in ids && Rootless(Members(CascadeRows(rows, c)));
      var k :| 0 <= k < |ids| && ids[k] == c;
      assert Rootless(cascades[k]);
    }
    if exists k :: 0 <= k < |cascades| && Rootless(cascades[k]) {
      var k :| 0 <= k < |cascades| && Rootless(cascades[k]);
      assert ids[k] in ids;
    }
  }

  /** Every naive edge runs from a cascade's root to one of its retweeters,
      and both ends are users of the rows. */
  lemma NaiveEdgesAreStars(rows: seq<Row>, e: Edge)
    requires NaiveNetworkOf(rows).Ok? && e in NaiveNetworkOf(rows).value.edges
    ensures exists c :: c in UniqueIds(rows) && RootOf(Members(CascadeRows(rows, c))) == Some(e.0) &&
                        (e.1, false) in Members(CascadeRows(rows, c))
    ensures e.0 in NaiveNetworkOf(rows).value.vertices && e.1 in NaiveNetworkOf(rows).value.vertices
  {
    var ids := UniqueIds(rows);
    var cascades := CascadesOf(rows, ids);
    StarsEdgeShape(cascades, e);
    var k :| 0 <= k < |cascades| && RootOf(cascades[k]) == Some(e.0) && (e.1, false) in cascades[k];
    assert ids[k] in ids;
    MemberUser(rows, CascadeRows(rows, ids[k]), e.0, true);
    MemberUser(rows, CascadeRows(rows, ids[k]), e.1, false);
  }

  /** A member of rows taken from `rows` is a user of `rows`. */
  lemma MemberUser(rows: seq<Row>, crs: seq<Row>, u: UserId, b: bool)
    requires forall k :: 0 <= k < |crs| ==> crs[k] in rows
    requires (u, b) in Members(crs)
    ensures u in set k | 0 <= k < |rows| :: rows[k].userId
  {
    var j :| 0 <= j < |crs| && Members(crs)[j] == (u, b);
    var i :| 0 <= i < |rows| && rows[i] == crs[j];
    assert rows[i].userId == u;
  }

  /** The weights add up to the number of non-root rows. */
  lemma NaiveTotalWeight(rows: seq<Row>)
    requires NaiveNetworkOf(rows).Ok?
    ensures |NaiveNetworkOf(rows).value.weight| == NonRootRows(rows)
  {
    var ids := UniqueIds(rows);
    var cascades := CascadesOf(rows, ids);
    StarsLength(cascades);
    SumOverIds(rows, ids);
    WithinAll(rows, ids);
  }

  /** Rows not flagged as root. */
  function NonRootRows(rows: seq<Row>): nat
    decreases |rows|
  {
    if |rows| == 0 then 0
    else NonRootRows(rows[..|rows| - 1]) + (if rows[|rows| - 1].isRoot then 0 else 1)
  }

  /** The rows whose cascade id is one of `ids`. */
  function Within(rows: seq<Row>, ids: seq<string>): seq<Row>
    decreases |rows|
  {
    if |rows| == 0 then []
    else
      var last := |rows| - 1;
      Within(rows[..last], ids) + (if rows[last].cascadeId in ids then [rows[last]] else [])
  }

  lemma {:induction false} RetweetersCount(crs: seq<Row>)
    ensures |Retweeters(Members(crs))| == NonRootRows(crs)
    decreases |crs|
  {
    if |crs| > 0 {
      var last := |crs| - 1;
      RetweetersCount(crs[..last]);
      assert Members(crs)[..last] == Members(crs[..last]);
    }
  }

  /** Adding one more, new cascade id adds that cascade's rows. */
  lemma {:induction false} WithinSnoc(rows: seq<Row>, ids: seq<string>, c: string)
    requires c !in ids
    ensures NonRootRows(Within(rows, ids + [c])) == NonRootRows(Within(rows, ids)) + NonRootRows(CascadeRows(rows, c))
    decreases |rows|
  {
    if |rows| > 0 {
      var last := |rows| - 1;
      WithinSnoc(rows[..last], ids, c);
      NonRootRowsConcat(Within(rows[..last], ids + [c]), if rows[last].cascadeId in ids + [c] then [rows[last]] else []);
      NonRootRowsConcat(Within(rows[..last], ids), if rows[last].cascadeId in ids then [rows[last]] else []);
      NonRootRowsConcat(CascadeRows(rows[..last], c), if rows[last].cascadeId == c then [rows[last]] else []);
    }
  }

  lemma {:induction false} NonRootRowsConcat(a: seq<Row>, b: seq<Row>)
    requires |b| <= 1
    ensures NonRootRows(a + b) == NonRootRows(a) + NonRootRows(b)
  {
    if |b| == 1 {
      assert (a + b)[..|a + b| - 1] == a;
      assert NonRootRows(b) == NonRootRows([]) + (if b[0].isRoot then 0 else 1);
    } else {
      assert a + b == a;
    }
  }

  /** Summing the non-root rows cascade by cascade over distinct ids. */
  lemma {:induction false} SumOverIds(rows: seq<Row>, ids: seq<string>)
    requires forall i, j :: 0 <= i < j < |ids| ==> ids[i] != ids[j]
    ensures SumRetweets(CascadesOf(rows, ids)) == NonRootRows(Within(rows, ids))
    decreases |ids|
  {
    if |ids| == 0 {
      WithinNone(rows);
    } else {
      var last := |ids| - 1;
      var prefix := ids[..last];
      SumOverIds(rows, prefix);
      assert CascadesOf(rows, ids)[..last] == CascadesOf(rows, prefix);
      assert ids == prefix + [ids[last]];
      WithinSnoc(rows, prefix, ids[last]);
      RetweetersCount(CascadeRows(rows, ids[last]));
    }
  }

  lemma {:induction false} WithinNone(rows: seq<Row>)
    ensures Within(rows, []) == []
    decreases |rows|
  {
    if |rows| > 0 {
      WithinNone(rows[..|rows| - 1]);
    }
  }

  /** Ids that cover every row keep every row. */
  lemma {:induction false} WithinAll(rows: seq<Row>, ids: seq<string>)
    requires forall k :: 0 <= k < |rows| ==> rows[k].cascadeId in ids
    ensures Within(rows, ids) == rows
    decreases |rows|
  {
    if |rows| > 0 {
      var last := |rows| - 1;
      WithinAll(rows[..last], ids);
      assert rows[..last] + [rows[last]] == rows;
    }
  }
}
