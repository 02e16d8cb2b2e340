/** Batching authors for the profile requests
    (`chunk_list` in `bluesky/code/data_collection/003_collect_authors_profiles.py`):
    the slices `lst[i : i + n]` for `i` in `range(0, len(lst), n)`. */
module AuthorProfiles {
  import opened Wrappers
  import opened PyStrings
  import IntArith

  /** The most profiles one request may ask for. */
  const BatchSize: int := 25

  function Min(a: int, b: int): int {
    if a <= b then a else b
  }

  /** The slices starting at `i`, `i + n`, ... below `|lst|`; a slice past
      the end of the list is cut short, as Python slicing does. */
  function ChunksFrom<T>(lst: seq<T>, n: nat, i: nat): (chunks: seq<seq<T>>)
    requires n > 0
    ensures i >= |lst| ==> chunks == []
    decreases |lst| - i
  {
    if i >= |lst| then [] else [lst[i..Min(i + n, |lst|)]] + ChunksFrom(lst, n, i + n)
  }

  /** `chunk_list(lst, n)`: a step of zero makes `range` raise ValueError;
      a negative step gives an empty range and so no chunks. */
  function ChunkList<T>(lst: seq<T>, n: int): (r: Result<seq<seq<T>>>)
    ensures r.Err? <==> n == 0
    ensures r.Err? ==> r.error == ValueError
    ensures n < 0 ==> r == Ok([])
  {
    if n == 0 then Err(ValueError)
    else if n < 0 then Ok([])
    else Ok(ChunksFrom(lst, n, 0))
  }

  /** The slices from `i` on: together they are `lst[i..]`; all but the
      last have `n` items and the last has 1 to `n`. */
  lemma {:induction false} ChunksFromSpec<T>(lst: seq<T>, n: nat, i: nat)
    requires n > 0 && i <= |lst|
    ensures var chunks := ChunksFrom(lst, n, i);
            Flatten(chunks) == lst[i..] &&
            (forall k :: 0 <= k < |chunks| - 1 ==> |chunks[k]| == n) &&
            (|chunks| > 0 ==> 1 <= |Last(chunks)| <= n)
    decreases |lst| - i
  {
    var chunks := ChunksFrom(lst, n, i);
    if i < |lst| {
      var j := Min(i + n, |lst|);
      var rest := ChunksFrom(lst, n, i + n);
      assert chunks == [lst[i..j]] + rest;
      if i + n <= |lst| {
        ChunksFromSpec(lst, n, i + n);
        FlattenConcat([lst[i..j]], rest);
        assert Flatten([lst[i..j]]) == lst[i..j] by {
          assert [lst[i..j]][..0] == [];
        }
        assert lst[i..] == lst[i..j] + lst[i + n..];
        forall k | 0 <= k < |chunks| - 1 ensures |chunks[k]| == n {
          if k > 0 {
            assert chunks[k] == rest[k - 1];
          }
        }
        if |rest| > 0 {
          assert Last(chunks) == Last(rest);
        }
      } else {
        assert j == |lst| && rest == [];
        assert lst[i..j] == lst[i..];
        assert chunks == [lst[i..]];
        assert Flatten(chunks) == Flatten<T>([]) + lst[i..];
      }
    } else {
      assert lst[i..] == [];
    }
  }

  /** There are as many slices from `i` on as it takes to cover the rest
      of the list: `c` of them with `(c - 1) * n < |lst| - i <= c * n`. */
  lemma {:induction false} ChunksFromCount<T>(lst: seq<T>, n: nat, i: nat)
    requires n > 0 && i <= |lst|
    ensures var c := |ChunksFrom(lst, n, i)|;
            (c - 1) * n < |lst| - i <= c * n
    decreases |lst| - i
  {
    if i < |lst| {
      var c := |ChunksFrom(lst, n, i + n)|;
      assert |ChunksFrom(lst, n, i)| == c + 1;
      if i + n <= |lst| {
        ChunksFromCount(lst, n, i + n);
      } else {
        assert c == 0;
      }
      assert (c + 1) * n == c * n + n;
    }
  }

  /** `chunk_list(lst, n)` for a positive `n`: the chunks put together are
      the list; every chunk has `n` items except the last, which has 1 to
      `n`; there are `ceil(|lst| / n)` of them, none for an empty list. */
  lemma ChunkListSpec<T>(lst: seq<T>, n: int)
    requires n > 0
    ensures var chunks := ChunkList(lst, n).value;
            Flatten(chunks) == lst &&
            (forall k :: 0 <= k < |chunks| - 1 ==> |chunks[k]| == n) &&
            (|chunks| > 0 ==> 1 <= |Last(chunks)| <= n) &&
            |chunks| == (|lst| + n - 1) / n &&
            (|lst| == 0 <==> chunks == [])
  {
    var chunks := ChunkList(lst, n).value;
    ChunksFromSpec(lst, n, 0);
    ChunksFromCount(lst, n, 0);
    assert lst[0..] == lst;
    CeilDiv(|lst|, n, |chunks|);
  }

  /** `c` is `ceil(m / n)` when `(c - 1) * n < m <= c * n`. */
  lemma CeilDiv(m: nat, n: nat, c: nat)
    requires n > 0
    requires (c - 1) * n < m <= c * n
    ensures c == (m + n - 1) / n
  {
    assert (c - 1) * n + n == c * n;
    IntArith.DivModOf(m + n - 1, n, c, m + n - 1 - c * n);
  }

  /** The batches of the sorted authors: each request asks for at most
      25 profiles, and every author is asked for once, in order. */
  lemma AuthorBatches(sortedAuthors: seq<string>)
    ensures var batches := ChunkList(sortedAuthors, BatchSize);
            batches.Ok? && Flatten(batches.value) == sortedAuthors &&
            forall b :: b in batches.value ==> 1 <= |b| <= BatchSize
  {
    var batches := ChunkList(sortedAuthors, BatchSize).value;
    ChunkListSpec(sortedAuthors, BatchSize);
    forall b | b in batches ensures 1 <= |b| <= BatchSize {
      var k :| 0 <= k < |batches| && batches[k] == b;
      if k < |batches| - 1 {
        assert |batches[k]| == BatchSize;
      }
    }
  }
}
