/** Splitting a text file's lines into chunks small enough for GitHub
    (`split_list_into_chunks` in `code/chunk_data_for_github.py`).  Lines go
    greedily into the current chunk while its UTF-8 size stays within the
    limit; a line that does not fit closes the chunk and opens the next. */
module ChunkForGithub {
  import opened PyStrings

  /** Bytes kept free below the requested size. */
  const Buffer: int := 5000000

  /** `max_allowed_size`: the size in megabytes as bytes, less the buffer.
      May be negative for sizes under five megabytes. */
  function Limit(maxMb: int): (limit: int)
    ensures maxMb >= 5 ==> limit >= 0
    ensures maxMb == 100 ==> limit == 95000000
  {
    maxMb * 1000000 - Buffer
  }

  /** Bytes of one character in UTF-8. */
  function Utf8Width(c: char): (w: nat)
    ensures 1 <= w <= 4
    ensures w == 1 <==> (c as int) < 0x80
  {
    if (c as int) < 0x80 then 1
    else if (c as int) < 0x800 then 2
    else if (c as int) < 0x10000 then 3
    else 4
  }

  /** `len(item.encode("utf-8"))`. */
  function Utf8Size(s: string): (n: nat)
    ensures |s| <= n <= 4 * |s|
    decreases |s|
  {
    if |s| == 0 then 0 else Utf8Size(s[..|s| - 1]) + Utf8Width(s[|s| - 1])
  }

  /** The bytes of a chunk. */
  function Total(chunk: seq<string>): nat
    decreases |chunk|
  {
    if |chunk| == 0 then 0 else Total(chunk[..|chunk| - 1]) + Utf8Size(chunk[|chunk| - 1])
  }

  /** The loop variables: the closed chunks, the open chunk and its size. */
  datatype Chunking = Chunking(chunks: seq<seq<string>>, current: seq<string>, size: nat)

  /** One turn of the loop. */
  function Step(st: Chunking, item: string, limit: int): Chunking {
    var itemSize := Utf8Size(item);
    if st.size + itemSize <= limit then Chunking(st.chunks, st.current + [item], st.size + itemSize)
    else Chunking(st.chunks + [st.current], [item], itemSize)
  }

  /** The loop variables after the items. */
  function Fold(items: seq<string>, limit: int): Chunking
    decreases |items|
  {
    if |items| == 0 then Chunking([], [], 0)
    else Step(Fold(items[..|items| - 1], limit), items[|items| - 1], limit)
  }

  /** The open chunk is added when it is not empty. */
  function Finish(st: Chunking): seq<seq<string>> {
    if |st.current| > 0 then st.chunks + [st.current] else st.chunks
  }

  /** The result of `split_list_into_chunks`. */
  function ChunksOf(items: seq<string>, limit: int): seq<seq<string>> {
    Finish(Fold(items, limit))
  }

  // ---------------------------------------------------------------------
  // What the loop keeps
  // ---------------------------------------------------------------------

  /** Two or more lines together fit within the limit. */
  predicate FitsUnlessSingle(chunk: seq<string>, limit: int) {
    |chunk| < 2 || Total(chunk) <= limit
  }

  /** Each chunk after the first is non-empty, and the first line of each
      would not have fitted into the chunk before it. */
  predicate Greedy(chunks: seq<seq<string>>, limit: int) {
    forall k :: 1 <= k < |chunks| ==> |chunks[k]| > 0 && Total(chunks[k - 1]) + Utf8Size(chunks[k][0]) > limit
  }

  /** An empty first chunk appears exactly when the first line alone is
      over the limit. */
  predicate EmptyFirstExactly(items: seq<string>, chunks: seq<seq<string>>, limit: int) {
    |items| > 0 ==> (Utf8Size(items[0]) > limit <==> |chunks| > 0 && chunks[0] == [])
  }

  predicate Good(items: seq<string>, limit: int, st: Chunking) {
    st.size == Total(st.current) &&
    Flatten(st.chunks) + st.current == items &&
    (|items| == 0 <==> |st.current| == 0) &&
    (|items| == 0 ==> st.chunks == []) &&
    FitsUnlessSingle(st.current, limit) &&
    (forall k :: 0 <= k < |st.chunks| ==> FitsUnlessSingle(st.chunks[k], limit)) &&
    Greedy(st.chunks + [st.current], limit) &&
    EmptyFirstExactly(items, st.chunks + [st.current], limit)
  }

  lemma GreedyReplaceLast(all: seq<seq<string>>, c: seq<string>, limit: int)
    requires Greedy(all, limit) && |all| > 0
    requires |all| > 1 ==> |c| > 0 && c[0] == Last(all)[0]
    ensures Greedy(all[..|all| - 1] + [c], limit)
  {
    var all' := all[..|all| - 1] + [c];
    forall k | 1 <= k < |all'|
      ensures |all'[k]| > 0 && Total(all'[k - 1]) + Utf8Size(all'[k][0]) > limit
    {
      assert all'[k - 1] == all[k - 1];
    }
  }

  lemma GreedyAppend(all: seq<seq<string>>, c: seq<string>, limit: int)
    requires Greedy(all, limit) && |all| > 0 && |c| > 0
    requires Total(Last(all)) + Utf8Size(c[0]) > limit
    ensures Greedy(all + [c], limit)
  {
    var all' := all + [c];
    forall k | 1 <= k < |all'|
      ensures |all'[k]| > 0 && Total(all'[k - 1]) + Utf8Size(all'[k][0]) > limit
    {
      if k < |all| {
        assert all'[k] == all[k] && all'[k - 1] == all[k - 1];
      }
    }
  }

  lemma TotalSnoc(chunk: seq<string>, item: string)
    ensures Total(chunk + [item]) == Total(chunk) + Utf8Size(item)
  {
    assert (chunk + [item])[..|chunk|] == chunk;
  }

  lemma FlattenSnoc(chunks: seq<seq<string>>, c: seq<string>)
    ensures Flatten(chunks + [c]) == Flatten(chunks) + c
  {
    assert (chunks + [c])[..|chunks|] == chunks;
  }

  /** The last turn of the loop. */
  lemma FoldLast(items: seq<string>, limit: int)
    requires |items| > 0
    ensures Fold(items, limit) == Step(Fold(items[..|items| - 1], limit), items[|items| - 1], limit)
  {
  }

  /** The size kept is the size of the open chunk. */
  lemma {:induction false} FoldSize(items: seq<string>, limit: int)
    ensures Fold(items, limit).size == Total(Fold(items, limit).current)
    decreases |items|
  {
    if |items| > 0 {
      var prefix, item := items[..|items| - 1], items[|items| - 1];
      var st := Fold(prefix, limit);
      FoldSize(prefix, limit);
      FoldLast(items, limit);
      TotalSnoc(st.current, item);
      TotalSnoc([], item);
      assert [] + [item] == [item];
    }
  }

  /** The chunks and the open chunk hold the items, in order. */
  lemma {:induction false} FoldFlatten(items: seq<string>, limit: int)
    ensures Flatten(Fold(items, limit).chunks) + Fold(items, limit).current == items
    decreases |items|
  {
    if |items| > 0 {
      var prefix, item := items[..|items| - 1], items[|items| - 1];
      var st := Fold(prefix, limit);
      FoldFlatten(prefix, limit);
      FoldLast(items, limit);
      StepFlatten(st, limit, items);
    } else {
      assert Flatten<string>([]) == [];
    }
  }

  lemma StepFlatten(st: Chunking, limit: int, items: seq<string>)
    requires |items| > 0 && Flatten(st.chunks) + st.current == items[..|items| - 1]
    ensures Flatten(Step(st, items[|items| - 1], limit).chunks) + Step(st, items[|items| - 1], limit).current == items
  {
    var item := items[|items| - 1];
    assert items[..|items| - 1] + [item] == items;
    if st.size + Utf8Size(item) <= limit {
      assert Flatten(st.chunks) + (st.current + [item]) == (Flatten(st.chunks) + st.current) + [item];
    } else {
      FlattenSnoc(st.chunks, st.current);
    }
  }

  /** After a line the open chunk is never empty; before any, nothing is
      held. */
  lemma FoldEmpty(items: seq<string>, limit: int)
    ensures |items| == 0 <==> |Fold(items, limit).current| == 0
    ensures |items| == 0 ==> Fold(items, limit).chunks == []
  {
    if |items| > 0 {
      FoldLast(items, limit);
    }
  }

  /** Only a single line is ever over the limit. */
  lemma {:induction false} FoldFits(items: seq<string>, limit: int)
    ensures FitsUnlessSingle(Fold(items, limit).current, limit)
    ensures forall k :: 0 <= k < |Fold(items, limit).chunks| ==> FitsUnlessSingle(Fold(items, limit).chunks[k], limit)
    decreases |items|
  {
    if |items| > 0 {
      var prefix, item := items[..|items| - 1], items[|items| - 1];
      var st := Fold(prefix, limit);
      FoldFits(prefix, limit);
      FoldSize(prefix, limit);
      FoldLast(items, limit);
      if st.size + Utf8Size(item) <= limit {
        TotalSnoc(st.current, item);
      } else {
        var chunks := st.chunks + [st.current];
        assert forall k :: 0 <= k < |chunks| ==> chunks[k] == if k < |st.chunks| then st.chunks[k] else st.current;
      }
    }
  }

  /** Every chunk after the first was closed because the next line did not
      fit. */
  lemma {:induction false} FoldGreedy(items: seq<string>, limit: int)
    ensures Greedy(Fold(items, limit).chunks + [Fold(items, limit).current], limit)
    decreases |items|
  {
    if |items| > 0 {
      var prefix, item := items[..|items| - 1], items[|items| - 1];
      var st := Fold(prefix, limit);
      var all := st.chunks + [st.current];
      FoldGreedy(prefix, limit);
      FoldSize(prefix, limit);
      FoldEmpty(prefix, limit);
      FoldLast(items, limit);
      if st.size + Utf8Size(item) <= limit {
        assert all[..|all| - 1] == st.chunks;
        GreedyReplaceLast(all, st.current + [item], limit);
      } else {
        GreedyAppend(all, [item], limit);
      }
    }
  }

  /** An empty first chunk appears exactly when the first line alone is
      over the limit. */
  lemma {:induction false} FoldEmptyFirst(items: seq<string>, limit: int)
    ensures EmptyFirstExactly(items, Fold(items, limit).chunks + [Fold(items, limit).current], limit)
    decreases |items|
  {
    if |items| > 0 {
      var prefix, item := items[..|items| - 1], items[|items| - 1];
      var st := Fold(prefix, limit);
      var all := st.chunks + [st.current];
      FoldLast(items, limit);
      FoldEmpty(prefix, limit);
      if |prefix| == 0 {
        assert items[0] == item;
      } else {
        FoldEmptyFirst(prefix, limit);
        assert items[0] == prefix[0];
        if st.size + Utf8Size(item) <= limit {
          assert (st.chunks + [st.current + [item]])[0] == if |st.chunks| > 0 then all[0] else st.current + [item];
        } else {
          assert (all + [[item]])[0] == all[0];
        }
      }
    }
  }

  lemma FoldGood(items: seq<string>, limit: int)
    ensures Good(items, limit, Fold(items, limit))
  {
    FoldSize(items, limit);
    FoldFlatten(items, limit);
    FoldEmpty(items, limit);
    FoldFits(items, limit);
    FoldGreedy(items, limit);
    FoldEmptyFirst(items, limit);
  }

  /** What `split_list_into_chunks` promises: the chunks are the lines in
      order; only a single line can be over the limit; every chunk after the
      first is non-empty and was closed because the next line did not fit;
      an empty first chunk appears exactly when the first line alone is over
      the limit; and no lines give no chunks. */
  lemma ChunksOfSpec(items: seq<string>, limit: int)
    ensures var chunks := ChunksOf(items, limit);
            Flatten(chunks) == items &&
            (forall k :: 0 <= k < |chunks| ==> FitsUnlessSingle(chunks[k], limit)) &&
            Greedy(chunks, limit) &&
            EmptyFirstExactly(items, chunks, limit) &&
            (|items| == 0 <==> chunks == [])
  {
    var st := Fold(items, limit);
    FoldGood(items, limit);
    if |st.current| > 0 {
      assert Flatten(st.chunks + [st.current]) == Flatten(st.chunks) + st.current;
    }
  }

  /** The loop of `split_list_into_chunks(input_list, max_allowed_size_mb)`. */
  method SplitListIntoChunks(inputList: seq<string>, maxAllowedSizeMb: int) returns (chunks: seq<seq<string>>)
    ensures chunks == ChunksOf(inputList, Limit(maxAllowedSizeMb))
  {
    var maxAllowedSize := maxAllowedSizeMb * 1000000 - Buffer;
    chunks := [];
    var currentChunk: seq<string> := [];
    var currentSize: nat := 0;
    for i := 0 to |inputList|
      invariant Chunking(chunks, currentChunk, currentSize) == Fold(inputList[..i], maxAllowedSize)
    {
      assert inputList[..i + 1][..i] == inputList[..i];
      var item := inputList[i];
      var itemSize := Utf8Size(item);
      if currentSize + itemSize <= maxAllowedSize {
        currentChunk := currentChunk + [item];
        currentSize := currentSize + itemSize;
      } else {
        chunks := chunks + [currentChunk];
        currentChunk := [item];
        currentSize := itemSize;
      }
    }
    assert inputList[..|inputList|] == inputList;
    if |currentChunk| > 0 {
      chunks := chunks + [currentChunk];
    }
  }

  /** With the default of 100 megabytes, lines of at most 95 million
      bytes each never stand alone over the limit: every chunk fits. */
  lemma DefaultChunksFit(items: seq<string>)
    requires forall k :: 0 <= k < |items| ==> Utf8Size(items[k]) <= Limit(100)
    ensures forall c :: c in ChunksOf(items, Limit(100)) ==> Total(c) <= Limit(100)
  {
    var limit := Limit(100);
    var chunks := ChunksOf(items, limit);
    ChunksOfSpec(items, limit);
    forall c | c in chunks ensures Total(c) <= limit {
      var k :| 0 <= k < |chunks| && chunks[k] == c;
      assert FitsUnlessSingle(c, limit);
      if |c| == 1 {
        FlattenMember(chunks, k);
        assert c[0] in c;
        assert c[0] in items;
        assert c == [] + [c[0]];
      }
    }
  }

  /** Every line of a chunk is one of the lines. */
  lemma {:induction false} FlattenMember(chunks: seq<seq<string>>, k: nat)
    requires k < |chunks|
    ensures forall x :: x in chunks[k] ==> x in Flatten(chunks)
    decreases |chunks|
  {
    var last := |chunks| - 1;
    if k < last {
      FlattenMember(chunks[..last], k);
    }
  }
}
