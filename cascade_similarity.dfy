/** Similarity between versions of one reconstructed cascade
    (`calculate_cascade_similarity_metrics.py`): edge-set Jaccard, the
    proportion of mismatched parents, which pairs of versions are
    compared, and how the gamma/alpha values are read back from the
    directory names. */
module CascadeSimilarity {
  import opened Wrappers
  import opened PyStrings
  import opened CascadeTree
  import PdiReconstruction

  /** `get_jaccard_mismatched`: |A ∩ B| / |A ∪ B| and |A \ B| / |A|.
      The Jaccard division comes first, so an empty union raises before
      the second division; an empty `A` with a non-empty `B` raises at the
      second. */
  function GetJaccardMismatched(a: set<Edge>, b: set<Edge>): (r: Result<(real, real)>)
    ensures r.Err? <==> |a| == 0
    ensures r.Err? ==> r.error == ZeroDivisionError
    ensures r.Ok? ==> r.value.0 == (|a * b| as real) / (|a + b| as real)
    ensures r.Ok? ==> r.value.1 == (|a - b| as real) / (|a| as real)
  {
    var unionSize := |a + b|;
    var numEdges := |a|;
    var disjointSize := |a - b|;
    var intersectionSize := |a * b|;
    if unionSize == 0 then Err(ZeroDivisionError)
    else if numEdges == 0 then Err(ZeroDivisionError)
    else Ok(((intersectionSize as real) / (unionSize as real), (disjointSize as real) / (numEdges as real)))
  }

  lemma RatioInUnit(n: nat, d: nat)
    requires n <= d && d > 0
    ensures 0.0 <= (n as real) / (d as real) <= 1.0
  {
  }

  /** Both measures lie in [0, 1]. */
  lemma MeasuresInUnitInterval(a: set<Edge>, b: set<Edge>)
    requires |a| > 0
    ensures var r := GetJaccardMismatched(a, b).value;
            0.0 <= r.0 <= 1.0 && 0.0 <= r.1 <= 1.0
  {
    assert a * b <= a + b;
    SubsetCard(a * b, a + b);
    assert a - b <= a;
    SubsetCard(a - b, a);
    RatioInUnit(|a * b|, |a + b|);
    RatioInUnit(|a - b|, |a|);
  }

  lemma {:induction false} SubsetCard<T>(x: set<T>, y: set<T>)
    requires x <= y
    ensures |x| <= |y|
  {
    if x != {} {
      var e :| e in x;
      SubsetCard(x - {e}, y - {e});
    }
  }

  /** Identical non-empty versions have Jaccard 1 and no mismatched parent. */
  lemma IdenticalVersions(a: set<Edge>)
    requires |a| > 0
    ensures GetJaccardMismatched(a, a) == Ok((1.0, 0.0))
  {
    assert a * a == a && a + a == a && a - a == {};
    assert (|a| as real) / (|a| as real) == 1.0;
  }

  /** No mismatched parent exactly when every edge of `A` is in `B`. */
  lemma MismatchedZeroIff(a: set<Edge>, b: set<Edge>)
    requires |a| > 0
    ensures GetJaccardMismatched(a, b).value.1 == 0.0 <==> a <= b
  {
    if a <= b {
      assert a - b == {};
    } else {
      var e :| e in a && e !in b;
      assert e in a - b;
    }
  }

  /** Jaccard 1 exactly when the two versions are equal. */
  lemma JaccardOneIff(a: set<Edge>, b: set<Edge>)
    requires |a| > 0
    ensures GetJaccardMismatched(a, b).value.0 == 1.0 <==> a == b
  {
    if a != b {
      assert !(a <= b) || !(b <= a);
      var e :| (e in a && e !in b) || (e in b && e !in a);
      ProperSubsetCard(a * b, a + b, e);
    } else {
      IdenticalVersions(a);
    }
  }

  lemma ProperSubsetCard<T>(x: set<T>, y: set<T>, e: T)
    requires x <= y && e in y && e !in x
    ensures |x| < |y|
  {
    assert x <= y - {e};
    SubsetCard(x, y - {e});
  }

  /** Jaccard is symmetric; so is the mismatch ratio when the two versions
      have equally many edges, as any two versions of one cascade do. */
  lemma Symmetric(a: set<Edge>, b: set<Edge>)
    requires |a| > 0 && |a| == |b|
    ensures GetJaccardMismatched(a, b).value.0 == GetJaccardMismatched(b, a).value.0
    ensures GetJaccardMismatched(a, b).value.1 == GetJaccardMismatched(b, a).value.1
  {
    assert a * b == b * a && a + b == b + a;
    DifferenceSplit(a, b);
    DifferenceSplit(b, a);
  }

  lemma DifferenceSplit<T>(a: set<T>, b: set<T>)
    ensures |a| == |a - b| + |a * b|
  {
    assert a == (a - b) + (a * b);
    assert (a - b) * (a * b) == {};
  }

  /** The edges of two runs of one cascade: equally many when no edge
      repeats, so the mismatch ratio is the same in both directions. */
  lemma RunsHaveEqualEdgeCounts(e1: seq<Edge>, e2: seq<Edge>)
    requires |e1| == |e2|
    requires forall i, j :: 0 <= i < j < |e1| ==> e1[i] != e1[j]
    requires forall i, j :: 0 <= i < j < |e2| ==> e2[i] != e2[j]
    ensures |EdgeSet(e1)| == |EdgeSet(e2)|
  {
    DistinctCard(e1);
    DistinctCard(e2);
  }

  function EdgeSet(edges: seq<Edge>): (s: set<Edge>)
    ensures forall e :: e in s <==> e in edges
  {
    set e | e in edges
  }

  lemma {:induction false} DistinctCard(edges: seq<Edge>)
    requires forall i, j :: 0 <= i < j < |edges| ==> edges[i] != edges[j]
    ensures |EdgeSet(edges)| == |edges|
    decreases |edges|
  {
    if |edges| > 0 {
      var rest := edges[1..];
      DistinctCard(rest);
      assert EdgeSet(edges) == EdgeSet(rest) + {edges[0]};
      assert edges[0] !in EdgeSet(rest) by {
        forall i | 0 <= i < |rest| ensures rest[i] != edges[0] {
          assert rest[i] == edges[i + 1];
        }
      }
    }
  }

  // ---------------------------------------------------------------------
  // Which versions are compared
  // ---------------------------------------------------------------------

  /** `itertools.combinations(xs, 2)`: every pair of positions i < j, in
      lexicographic order. */
  function Combinations2<T>(xs: seq<T>): (r: seq<(T, T)>)
    ensures 2 * |r| == |xs| * (|xs| - 1)
    ensures forall i, j :: 0 <= i < j < |xs| ==> (xs[i], xs[j]) in r
    ensures forall p :: p in r ==> exists i, j :: 0 <= i < j < |xs| && p == (xs[i], xs[j])
    decreases |xs|
  {
    if |xs| == 0 then []
    else
      var firsts := seq(|xs| - 1, k requires 0 <= k < |xs| - 1 => (xs[0], xs[k + 1]));
      var tail := xs[1..];
      var rest := Combinations2(tail);
      CountStep(|xs|, |rest|);
      Combinations2Step(xs, tail, firsts, rest);
      firsts + rest
  }

  /** The pairs with the first item, then the pairs of the rest, are the
      pairs of the whole sequence. */
  lemma Combinations2Step<T>(xs: seq<T>, tail: seq<T>, firsts: seq<(T, T)>, rest: seq<(T, T)>)
    requires |xs| > 0 && tail == xs[1..] && |firsts| == |xs| - 1
    requires forall k :: 0 <= k < |xs| - 1 ==> firsts[k] == (xs[0], xs[k + 1])
    requires forall i, j :: 0 <= i < j < |tail| ==> (tail[i], tail[j]) in rest
    requires forall p :: p in rest ==> exists i, j :: 0 <= i < j < |tail| && p == (tail[i], tail[j])
    ensures forall i, j :: 0 <= i < j < |xs| ==> (xs[i], xs[j]) in firsts + rest
    ensures forall p :: p in firsts + rest ==> exists i, j :: 0 <= i < j < |xs| && p == (xs[i], xs[j])
  {
    forall i, j | 0 <= i < j < |xs| ensures (xs[i], xs[j]) in firsts + rest {
      if i == 0 {
        assert firsts[j - 1] == (xs[i], xs[j]);
      } else {
        assert tail[i - 1] == xs[i] && tail[j - 1] == xs[j];
        assert (tail[i - 1], tail[j - 1]) in rest;
      }
    }
    forall p | p in firsts + rest ensures exists i, j :: 0 <= i < j < |xs| && p == (xs[i], xs[j]) {
      if p in firsts {
        var k :| 0 <= k < |firsts| && firsts[k] == p;
        assert 0 < k + 1 < |xs| && p == (xs[0], xs[k + 1]);
      } else {
        var i, j :| 0 <= i < j < |tail| && p == (tail[i], tail[j]);
        assert 0 <= i + 1 < j + 1 < |xs| && p == (xs[i + 1], xs[j + 1]);
      }
    }
  }

  lemma CountStep(n: nat, m: nat)
    requires n >= 1 && 2 * m == (n - 1) * (n - 2)
    ensures 2 * ((n - 1) + m) == n * (n - 1)
  {
  }

  /** The comparisons made for one cascade: `None` when it has a single
      version (a two-event cascade, skipped); all pairs of versions, or
      the time-inferred tree against every version when one is given. */
  function Comparisons(edgeSets: seq<set<Edge>>, tid: Option<set<Edge>>): (r: Option<seq<(set<Edge>, set<Edge>)>>)
    ensures r.None? <==> |edgeSets| == 1
    ensures r.Some? && tid.None? ==>
              r.value == Combinations2(edgeSets) && 2 * |r.value| == |edgeSets| * (|edgeSets| - 1)
    ensures r.Some? && tid.Some? ==>
              |r.value| == |edgeSets| &&
              forall k :: 0 <= k < |edgeSets| ==> r.value[k] == (tid.value, edgeSets[k])
  {
    if |edgeSets| == 1 then None
    else if tid.Some? then Some(seq(|edgeSets|, k requires 0 <= k < |edgeSets| => (tid.value, edgeSets[k])))
    else Some(Combinations2(edgeSets))
  }

  /** The measures of every comparison of one cascade, or the first
      exception raised. */
  function AllMeasures(pairs: seq<(set<Edge>, set<Edge>)>): (r: Result<seq<(real, real)>>)
    ensures r.Ok? <==> forall k :: 0 <= k < |pairs| ==> |pairs[k].0| > 0
    ensures r.Ok? ==>
              |r.value| == |pairs| &&
              forall k :: 0 <= k < |pairs| ==> Ok(r.value[k]) == GetJaccardMismatched(pairs[k].0, pairs[k].1)
    decreases |pairs|
  {
    if |pairs| == 0 then Ok([])
    else
      match GetJaccardMismatched(pairs[0].0, pairs[0].1)
      case Err(e) => Err(e)
      case Ok(m) =>
        match AllMeasures(pairs[1..])
        case Err(e) => Err(e)
        case Ok(ms) => Ok([m] + ms)
  }

  // ---------------------------------------------------------------------
  // Reading gamma and alpha back from directory names
  // ---------------------------------------------------------------------

  /** `".".join(dir_name.split("_")[1:])`: the value text of a
      `gamma_0_25`-style directory name. */
  function DirValue(dirName: string): (r: string)
    ensures '_' !in r
  {
    var parts := Split(dirName, "_");
    SplitCharPiecesFree(dirName, '_');
    JoinCharFree(parts[1..], ".", '_');
    Join(parts[1..], ".")
  }

  /** Reading a directory name back gives the value it was written from,
      for any value text without "_" (such as "0.25" or "1.1"). */
  lemma DirValueRoundTrip(prefix: string, value: string)
    requires '_' !in prefix && '_' !in value
    ensures DirValue(prefix + "_" + MapChar(value, '.', '_')) == value
  {
    var m := MapChar(value, '.', '_');
    SplitCharConcat(prefix, '_', m);
    assert Split(prefix + "_" + m, "_")[1..] == Split(m, "_");
    ReplaceIsSplitJoin(m, "_", ".");
    ReplaceCharIsMap(m, '_', '.');
    MapCharBack(value, '.', '_');
  }

  lemma GammaDirValue(gammaText: string)
    requires '_' !in gammaText
    ensures DirValue(PdiReconstruction.GammaDirName(gammaText)) == gammaText
  {
    assert "gamma_" + MapChar(gammaText, '.', '_') == "gamma" + "_" + MapChar(gammaText, '.', '_');
    DirValueRoundTrip("gamma", gammaText);
  }

  lemma AlphaDirValue(alphaText: string)
    requires '_' !in alphaText
    ensures DirValue(PdiReconstruction.AlphaDirName(alphaText)) == alphaText
  {
    assert "alpha_" + MapChar(alphaText, '.', '_') == "alpha" + "_" + MapChar(alphaText, '.', '_');
    DirValueRoundTrip("alpha", alphaText);
  }
}
