/** The shape every reconstruction driver produces: the event at position 0
    is the root, the event at position 1 reshares it, and every later event
    at position `k` gets a parent among positions `[0, k)`.  A run is
    described by its parent positions; its edge list pairs the parent's
    user with the event's user. */
module CascadeTree {
  type UserId = string

  /** (source, target): the parent's user, then the resharer's user. */
  type Edge = (UserId, UserId)

  /** `parents[k]` is the position of the parent of the event at position
      `k + 1`; it is always an earlier position. */
  predicate IsPositionTree(parents: seq<nat>) {
    forall k :: 0 <= k < |parents| ==> parents[k] <= k
  }

  /** The edge list of a run: one edge per event after the root. */
  function EdgesFromParents(users: seq<UserId>, parents: seq<nat>): (edges: seq<Edge>)
    requires |parents| + 1 == |users| && IsPositionTree(parents)
    ensures |edges| == |parents|
    ensures forall k :: 0 <= k < |edges| ==> edges[k] == (users[parents[k]], users[k + 1])
  {
    seq(|parents|, k requires 0 <= k < |parents| => (users[parents[k]], users[k + 1]))
  }

  /** Appending one event to a run appends one edge. */
  lemma EdgesFromParentsSnoc(users: seq<UserId>, parents: seq<nat>, u: UserId, p: nat)
    requires |parents| + 1 == |users| && IsPositionTree(parents) && p <= |parents|
    ensures IsPositionTree(parents + [p])
    ensures EdgesFromParents(users + [u], parents + [p]) ==
            EdgesFromParents(users, parents) + [(users[p], u)]
  {
    var a := EdgesFromParents(users + [u], parents + [p]);
    var b := EdgesFromParents(users, parents) + [(users[p], u)];
    forall k | 0 <= k < |a| ensures a[k] == b[k] {
      if k < |parents| {
        assert (users + [u])[k + 1] == users[k + 1];
      }
    }
  }

  /** The same step on a prefix of the users: the edge list over the first
      `idx + 1` users extends the one over the first `idx`. */
  lemma EdgesFromPrefixSnoc(users: seq<UserId>, parents: seq<nat>, idx: nat, p: nat)
    requires |parents| + 1 == idx < |users| && IsPositionTree(parents) && p < idx
    ensures IsPositionTree(parents + [p])
    ensures EdgesFromParents(users[..idx + 1], parents + [p]) ==
            EdgesFromParents(users[..idx], parents) + [(users[p], users[idx])]
  {
    assert users[..idx + 1] == users[..idx] + [users[idx]];
    EdgesFromParentsSnoc(users[..idx], parents, users[idx], p);
  }

  /** Every driver's edge list: n - 1 edges, the first from the root to
      the second event, the k-th targeting the event at position k + 1,
      and every source the user of an event at an earlier position. */
  lemma EdgesFromParentsShape(users: seq<UserId>, parents: seq<nat>)
    requires |parents| + 1 == |users| && |users| >= 2 && IsPositionTree(parents)
    ensures var edges := EdgesFromParents(users, parents);
            |edges| == |users| - 1 && edges[0] == (users[0], users[1]) &&
            (forall k :: 0 <= k < |edges| ==> edges[k].1 == users[k + 1]) &&
            (forall k :: 0 <= k < |edges| ==> exists p :: 0 <= p <= k && edges[k].0 == users[p])
  {
    var edges := EdgesFromParents(users, parents);
    forall k | 0 <= k < |edges| ensures exists p :: 0 <= p <= k && edges[k].0 == users[p] {
      assert edges[k].0 == users[parents[k]];
    }
  }

  /** The positions met walking from `pos` up to the root.  Every walk
      ends at position 0 and strictly descends, so the run is a tree rooted
      at position 0: connected, and without cycles. */
  function AncestorPath(parents: seq<nat>, pos: nat): (path: seq<nat>)
    requires IsPositionTree(parents) && pos <= |parents|
    ensures |path| >= 1 && path[0] == pos && path[|path| - 1] == 0
    ensures forall i :: 0 <= i < |path| ==> path[i] <= pos
    ensures forall i :: 0 <= i < |path| - 1 ==>
              path[i + 1] < path[i] && path[i + 1] == parents[path[i] - 1]
    decreases pos
  {
    if pos == 0 then [0]
    else [pos] + AncestorPath(parents, parents[pos - 1])
  }

  /** The users appearing on the edges of a run. */
  function Vertices(edges: seq<Edge>): (vs: set<UserId>)
    ensures forall k :: 0 <= k < |edges| ==> edges[k].0 in vs && edges[k].1 in vs
    ensures forall v :: v in vs ==> exists k :: 0 <= k < |edges| && (v == edges[k].0 || v == edges[k].1)
  {
    (set k | 0 <= k < |edges| :: edges[k].0) + (set k | 0 <= k < |edges| :: edges[k].1)
  }

  /** The vertex set built from a run's edges is exactly the set of users
      of the cascade. */
  lemma VerticesAreAllUsers(users: seq<UserId>, parents: seq<nat>)
    requires |parents| + 1 == |users| && |users| >= 2 && IsPositionTree(parents)
    ensures Vertices(EdgesFromParents(users, parents)) == set i | 0 <= i < |users| :: users[i]
  {
    var edges := EdgesFromParents(users, parents);
    var us := set i | 0 <= i < |users| :: users[i];
    forall v | v in us ensures v in Vertices(edges) {
      var i :| 0 <= i < |users| && users[i] == v;
      if i == 0 {
        assert edges[0].0 == users[parents[0]] == users[0];
      } else {
        assert edges[i - 1].1 == users[i];
      }
    }
  }

  /** Users may repeat (one author resharing twice), so the tree over
      positions need not be a tree over users: here it has a cycle. */
  lemma RepeatedUsersMayFormCycle()
    ensures var edges := EdgesFromParents(["a", "b", "a"], [0, 1]);
            edges == [("a", "b"), ("b", "a")]
  {
  }
}
