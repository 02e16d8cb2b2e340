/** The parts of Python's `str` type and of `os.path` that the modelled
    scripts rely on: `in`, `startswith`, `split`, `join`, `replace`,
    `zfill`, `str(int)`, `int(str)`, `os.path.basename` and
    `os.path.splitext`.  Searches recurse on an index into a fixed string,
    so that they also evaluate on short string literals. */
module PyStrings {
  import opened Wrappers

  // ---------------------------------------------------------------------
  // Occurrences and search
  // ---------------------------------------------------------------------

  /** `sep[k..]` matches `s` from position `i + k` on. */
  predicate MatchFrom(s: string, sep: string, i: nat, k: nat)
    requires i + |sep| <= |s| && k <= |sep|
    decreases |sep| - k
  {
    k == |sep| || (s[i + k] == sep[k] && MatchFrom(s, sep, i, k + 1))
  }

  /** `sep` occurs in `s` at position `i`. */
  predicate OccursAt(s: string, sep: string, i: nat) {
    i + |sep| <= |s| && MatchFrom(s, sep, i, 0)
  }

  lemma {:induction false} MatchFromSlice(s: string, sep: string, i: nat, k: nat)
    requires i + |sep| <= |s| && k <= |sep|
    ensures MatchFrom(s, sep, i, k) <==> s[i + k..i + |sep|] == sep[k..]
    decreases |sep| - k
  {
    if k < |sep| {
      MatchFromSlice(s, sep, i, k + 1);
      assert s[i + k..i + |sep|] == [s[i + k]] + s[i + k + 1..i + |sep|];
      assert sep[k..] == [sep[k]] + sep[k + 1..];
    }
  }

  lemma OccursAtSlice(s: string, sep: string, i: nat)
    ensures OccursAt(s, sep, i) <==> i + |sep| <= |s| && s[i..i + |sep|] == sep
  {
    if i + |sep| <= |s| {
      MatchFromSlice(s, sep, i, 0);
    }
  }

  /** An occurrence inside `s[a..b]` is an occurrence in `s`, and back. */
  lemma OccursAtSubrange(s: string, sep: string, a: nat, b: nat, j: nat)
    requires a <= b <= |s|
    ensures OccursAt(s[a..b], sep, j) <==> (a + j + |sep| <= b && OccursAt(s, sep, a + j))
  {
    OccursAtSlice(s[a..b], sep, j);
    OccursAtSlice(s, sep, a + j);
    if a + j + |sep| <= b {
      var x, y := s[a..b][j..j + |sep|], s[a + j..a + j + |sep|];
      forall k | 0 <= k < |sep| ensures x[k] == y[k] {
      }
      assert x == y;
    }
  }

  /** An occurrence of `sep` in `b` shows up shifted by `|a|` in `a + b`. */
  lemma OccursAtShift(a: string, b: string, sep: string, j: nat)
    ensures OccursAt(a + b, sep, |a| + j) <==> OccursAt(b, sep, j)
  {
    OccursAtSlice(a + b, sep, |a| + j);
    OccursAtSlice(b, sep, j);
    if j + |sep| <= |b| {
      assert (a + b)[|a| + j..|a| + j + |sep|] == b[j..j + |sep|];
    }
  }

  /** A one-character separator occurs exactly where that character is. */
  lemma OccursAtChar(s: string, c: char, j: nat)
    ensures OccursAt(s, [c], j) <==> j < |s| && s[j] == c
  {
    OccursAtSlice(s, [c], j);
    if j < |s| {
      assert s[j..j + 1] == [s[j]];
    }
  }

  /** Leftmost occurrence of `sep` in `s` at or after position `i`
      (Python's `s.find(sep, i)`, with `None` for -1). */
  function FindFrom(s: string, sep: string, i: nat): (r: Option<nat>)
    ensures r.Some? ==> i <= r.value && OccursAt(s, sep, r.value)
    ensures r.Some? ==> forall j :: i <= j < r.value ==> !OccursAt(s, sep, j)
    ensures r.None? ==> forall j :: i <= j ==> !OccursAt(s, sep, j)
    decreases |s| - i
  {
    if i + |sep| > |s| then None
    else if OccursAt(s, sep, i) then Some(i)
    else FindFrom(s, sep, i + 1)
  }

  /** Searching `a + b` past `a` is searching `b`, shifted by `|a|`. */
  lemma FindFromShift(a: string, b: string, sep: string, k: nat)
    ensures FindFrom(a + b, sep, |a| + k) ==
      (match FindFrom(b, sep, k) case None => None case Some(j) => Some(|a| + j))
  {
    var r := FindFrom(a + b, sep, |a| + k);
    var q := FindFrom(b, sep, k);
    match q
    case None =>
      if r.Some? {
        OccursAtShift(a, b, sep, r.value - |a|);
      }
    case Some(j) =>
      OccursAtShift(a, b, sep, j);
      if r.Some? && r.value < |a| + j {
        OccursAtShift(a, b, sep, r.value - |a|);
      }
  }

  /** Python's `sub in s`. */
  predicate Contains(s: string, sub: string) {
    FindFrom(s, sub, 0).Some?
  }

  lemma ContainsIff(s: string, sub: string)
    ensures Contains(s, sub) <==> exists j :: OccursAt(s, sub, j)
  {
  }

  /** A slice equal to `sub` makes `sub in s` true. */
  lemma ContainsSlice(s: string, sub: string, j: nat)
    requires j + |sub| <= |s| && s[j..j + |sub|] == sub
    ensures Contains(s, sub)
  {
    OccursAtSlice(s, sub, j);
    ContainsIff(s, sub);
  }

  /** Python's `s.startswith(prefix)`. */
  predicate StartsWith(s: string, prefix: string) {
    OccursAt(s, prefix, 0)
  }

  lemma StartsWithIff(s: string, prefix: string)
    ensures StartsWith(s, prefix) <==> |prefix| <= |s| && s[..|prefix|] == prefix
  {
    OccursAtSlice(s, prefix, 0);
  }

  // ---------------------------------------------------------------------
  // split / join
  // ---------------------------------------------------------------------

  /** The pieces of `s[start..]` between occurrences of `sep`, found left
      to right without overlap (Python's `s[start:].split(sep)`). */
  function SplitFrom(s: string, sep: string, start: nat): (parts: seq<string>)
    requires |sep| > 0 && start <= |s|
    ensures |parts| >= 1
    decreases |s| - start
  {
    match FindFrom(s, sep, start)
    case None => [s[start..]]
    case Some(i) => [s[start..i]] + SplitFrom(s, sep, i + |sep|)
  }

  /** Python's `s.split(sep)`. */
  function Split(s: string, sep: string): (parts: seq<string>)
    requires |sep| > 0
    ensures |parts| >= 1
  {
    SplitFrom(s, sep, 0)
  }

  /** Python's `sep.join(parts)`. */
  function Join(parts: seq<string>, sep: string): (r: string)
    ensures |parts| == 0 ==> r == ""
    ensures |parts| >= 1 ==> |r| >= |parts[0]|
  {
    if |parts| == 0 then ""
    else if |parts| == 1 then parts[0]
    else parts[0] + sep + Join(parts[1..], sep)
  }

  lemma JoinCons(p: string, rest: seq<string>, sep: string)
    requires |rest| >= 1
    ensures Join([p] + rest, sep) == p + sep + Join(rest, sep)
  {
    assert ([p] + rest)[1..] == rest;
  }

  lemma {:induction false} JoinSplitFrom(s: string, sep: string, start: nat)
    requires |sep| > 0 && start <= |s|
    ensures Join(SplitFrom(s, sep, start), sep) == s[start..]
    decreases |s| - start
  {
    match FindFrom(s, sep, start)
    case None =>
    case Some(i) =>
      JoinSplitFrom(s, sep, i + |sep|);
      JoinSplitStep(s, sep, start, i);
  }

  lemma JoinSplitStep(s: string, sep: string, start: nat, i: nat)
    requires |sep| > 0 && start <= |s|
    requires FindFrom(s, sep, start) == Some(i)
    requires Join(SplitFrom(s, sep, i + |sep|), sep) == s[i + |sep|..]
    ensures Join(SplitFrom(s, sep, start), sep) == s[start..]
  {
    var rest := SplitFrom(s, sep, i + |sep|);
    assert SplitFrom(s, sep, start) == [s[start..i]] + rest;
    JoinCons(s[start..i], rest, sep);
    OccursAtSlice(s, sep, i);
    SliceThree(s, start, i, i + |sep|);
  }

  lemma SliceThree(s: string, a: nat, b: nat, c: nat)
    requires a <= b <= c <= |s|
    ensures s[a..] == s[a..b] + s[b..c] + s[c..]
  {
  }

  /** Joining the pieces of a split with the same separator gives back
      the original string. */
  lemma JoinSplit(s: string, sep: string)
    requires |sep| > 0
    ensures Join(Split(s, sep), sep) == s
  {
    JoinSplitFrom(s, sep, 0);
  }

  /** Splitting `a + b` past `a` is splitting `b`. */
  lemma {:induction false} SplitFromShift(a: string, b: string, sep: string, k: nat)
    requires |sep| > 0 && k <= |b|
    ensures SplitFrom(a + b, sep, |a| + k) == SplitFrom(b, sep, k)
    decreases |b| - k
  {
    match FindFrom(b, sep, k)
    case None =>
      FindFromShift(a, b, sep, k);
      assert (a + b)[|a| + k..] == b[k..];
    case Some(j) =>
      SplitFromShift(a, b, sep, j + |sep|);
      SplitFromShiftStep(a, b, sep, k, j);
  }

  lemma SplitFromShiftStep(a: string, b: string, sep: string, k: nat, j: nat)
    requires |sep| > 0 && k <= |b|
    requires FindFrom(b, sep, k) == Some(j)
    requires SplitFrom(a + b, sep, |a| + j + |sep|) == SplitFrom(b, sep, j + |sep|)
    ensures SplitFrom(a + b, sep, |a| + k) == SplitFrom(b, sep, k)
  {
    FindFromShift(a, b, sep, k);
    SplitFromFound(a + b, sep, |a| + k, |a| + j);
    SplitFromFound(b, sep, k, j);
    assert (a + b)[|a| + k..|a| + j] == b[k..j];
  }

  /** A found separator ends the first piece. */
  lemma SplitFromFound(s: string, sep: string, start: nat, i: nat)
    requires |sep| > 0 && start <= |s| && FindFrom(s, sep, start) == Some(i)
    ensures i + |sep| <= |s|
    ensures SplitFrom(s, sep, start) == [s[start..i]] + SplitFrom(s, sep, i + |sep|)
  {
  }

  /** When the first occurrence of `sep` in `a + sep + b` is the one after
      `a`, the split starts with `a` and continues with the split of `b`. */
  lemma SplitConcat(a: string, sep: string, b: string)
    requires |sep| > 0
    requires FindFrom(a + sep + b, sep, 0) == Some(|a|)
    ensures Split(a + sep + b, sep) == [a] + Split(b, sep)
  {
    var s := a + sep + b;
    assert s == (a + sep) + b;
    SplitFromShift(a + sep, b, sep, 0);
    assert s[..|a|] == a;
  }

  /** The split of a string without the separator is that string alone. */
  lemma SplitNone(s: string, sep: string)
    requires |sep| > 0
    requires FindFrom(s, sep, 0).None?
    ensures Split(s, sep) == [s]
  {
  }

  lemma SplitCharNone(s: string, c: char)
    requires c !in s
    ensures Split(s, [c]) == [s]
  {
    var r := FindFrom(s, [c], 0);
    if r.Some? {
      OccursAtChar(s, c, r.value);
    }
  }

  /** One-character separators: `a + [c] + b` splits after `a` when `c` is
      not in `a`. */
  lemma SplitCharConcat(a: string, c: char, b: string)
    requires c !in a
    ensures Split(a + [c] + b, [c]) == [a] + Split(b, [c])
  {
    var s := a + [c] + b;
    OccursAtChar(s, c, |a|);
    SplitConcat(a, [c], b);
  }

  /** Splitting at one occurrence of a one-character separator splits the
      two sides independently, wherever the other occurrences are. */
  lemma {:induction false} SplitCharAppend(a: string, c: char, b: string)
    ensures Split(a + [c] + b, [c]) == Split(a, [c]) + Split(b, [c])
    decreases |a|
  {
    if c in a {
      var j :| 0 <= j < |a| && a[j] == c;
      var a1, a2 := a[..j], a[j + 1..];
      assert a == a1 + [c] + a2;
      assert a + [c] + b == a1 + [c] + (a2 + [c] + b);
      SplitCharAppend(a1, c, a2 + [c] + b);
      SplitCharAppend(a2, c, b);
      SplitCharAppend(a1, c, a2);
    } else {
      SplitCharConcat(a, c, b);
      SplitCharNone(a, c);
    }
  }

  /** No piece of a split contains the separator. */
  lemma {:induction false} SplitFromPiecesFree(s: string, sep: string, start: nat)
    requires |sep| > 0 && start <= |s|
    ensures forall p, j :: p in SplitFrom(s, sep, start) ==> !OccursAt(p, sep, j)
    decreases |s| - start
  {
    match FindFrom(s, sep, start)
    case None =>
      assert s[start..] == s[start..|s|];
      forall j ensures !OccursAt(s[start..], sep, j) {
        OccursAtSubrange(s, sep, start, |s|, j);
      }
    case Some(i) =>
      SplitFromPiecesFree(s, sep, i + |sep|);
      forall j ensures !OccursAt(s[start..i], sep, j) {
        OccursAtSubrange(s, sep, start, i, j);
      }
  }

  lemma SplitCharPiecesFree(s: string, c: char)
    ensures forall p :: p in Split(s, [c]) ==> c !in p
  {
    SplitFromPiecesFree(s, [c], 0);
    forall p | p in Split(s, [c]) ensures c !in p {
      if c in p {
        var j :| 0 <= j < |p| && p[j] == c;
        OccursAtChar(p, c, j);
      }
    }
  }

  /** Splitting a join on a one-character separator that no piece contains
      gives back the pieces. */
  lemma {:induction false} SplitJoinChar(parts: seq<string>, c: char)
    requires |parts| >= 1
    requires forall p :: p in parts ==> c !in p
    ensures Split(Join(parts, [c]), [c]) == parts
    decreases |parts|
  {
    if |parts| == 1 {
      SplitCharNone(parts[0], c);
    } else {
      SplitJoinChar(parts[1..], c);
      SplitCharConcat(parts[0], c, Join(parts[1..], [c]));
    }
  }

  /** A join contains a character only if a piece or the separator does. */
  lemma {:induction false} JoinCharFree(parts: seq<string>, sep: string, c: char)
    requires c !in sep
    requires forall p :: p in parts ==> c !in p
    ensures c !in Join(parts, sep)
    decreases |parts|
  {
    if |parts| > 1 {
      JoinCharFree(parts[1..], sep, c);
    }
  }

  /** A separator that cannot overlap itself: its first character does not
      recur in it, or its last character does not occur earlier in it. */
  predicate NoSelfOverlap(sep: string) {
    |sep| > 0 && (sep[0] !in sep[1..] || sep[|sep| - 1] !in sep[..|sep| - 1])
  }

  /** Two occurrences of a self-non-overlapping separator are disjoint. */
  lemma DisjointOccurrences(s: string, sep: string, j: nat, i: nat)
    requires NoSelfOverlap(sep) && j < i
    requires OccursAt(s, sep, j) && OccursAt(s, sep, i)
    ensures j + |sep| <= i
  {
    NoSelfOverlapChars(sep);
    if i < j + |sep| {
      OverlapChars(s, sep, j, i);
    }
  }

  /** Two overlapping occurrences at distance `d` make `sep` agree with
      itself shifted by `d`, at its first and at its last character. */
  lemma OverlapChars(s: string, sep: string, j: nat, i: nat)
    requires j < i < j + |sep|
    requires OccursAt(s, sep, j) && OccursAt(s, sep, i)
    ensures sep[i - j] == sep[0] && sep[|sep| - 1 - (i - j)] == sep[|sep| - 1]
  {
    OccurrenceChars(s, sep, j);
    OccurrenceChars(s, sep, i);
    var d, n := i - j, |sep|;
    assert sep[d] == s[j + d] == s[i + 0] == sep[0];
    assert sep[n - 1] == s[j + (n - 1)] == s[i + (n - 1 - d)] == sep[n - 1 - d];
  }

  lemma OccurrenceChars(s: string, sep: string, i: nat)
    requires OccursAt(s, sep, i)
    ensures forall k :: 0 <= k < |sep| ==> s[i + k] == sep[k]
  {
    OccursAtSlice(s, sep, i);
    forall k | 0 <= k < |sep| ensures s[i + k] == sep[k] {
      assert s[i + k] == s[i..i + |sep|][k];
    }
  }

  lemma NoSelfOverlapChars(sep: string)
    requires NoSelfOverlap(sep)
    ensures (forall k :: 1 <= k < |sep| ==> sep[k] != sep[0]) ||
            (forall k :: 0 <= k < |sep| - 1 ==> sep[k] != sep[|sep| - 1])
  {
    if sep[0] !in sep[1..] {
      forall k | 1 <= k < |sep| ensures sep[k] != sep[0] {
        assert sep[k] == sep[1..][k - 1];
      }
    } else {
      forall k | 0 <= k < |sep| - 1 ensures sep[k] != sep[|sep| - 1] {
        assert sep[k] == sep[..|sep| - 1][k];
      }
    }
  }

  /** A string lacking the first character of `sep` has no occurrence of it. */
  lemma FindNoneWithoutFirstChar(s: string, sep: string)
    requires |sep| > 0 && sep[0] !in s
    ensures FindFrom(s, sep, 0).None?
  {
  }

  /** A string lacking some character of `sep` has no occurrence of it. */
  lemma FindNoneWithoutChar(s: string, sep: string, k: nat)
    requires k < |sep| && sep[k] !in s
    ensures FindFrom(s, sep, 0).None?
  {
    forall j: nat | OccursAt(s, sep, j) ensures false {
      OccurrenceChars(s, sep, j);
    }
  }

  /** The first occurrence of `sep` in `a + sep + b` is the visible one
      when `a` lacks the first character of `sep`. */
  lemma FindFirstAfter(a: string, sep: string, b: string)
    requires |sep| > 0 && sep[0] !in a
    ensures FindFrom(a + sep + b, sep, 0) == Some(|a|)
  {
    var s := a + sep + b;
    assert s == a + (sep + b);
    OccursAtShift(a, sep + b, sep, 0);
    OccursAtSlice(sep + b, sep, 0);
    assert (sep + b)[..|sep|] == sep;
    forall j | 0 <= j < |a| ensures !OccursAt(s, sep, j) {
      OccursAtSlice(s, sep, j);
      if j + |sep| <= |s| {
        assert s[j..j + |sep|][0] == a[j];
      }
    }
  }

  /** A single replacement: `(a + pat + b).replace(pat, repl)` when `a`
      lacks the first character of `pat` and `b` holds no `pat`. */
  lemma ReplaceOnce(a: string, pat: string, b: string, repl: string)
    requires |pat| > 0 && pat[0] !in a && FindFrom(b, pat, 0).None?
    ensures Replace(a + pat + b, pat, repl) == a + repl + b
  {
    FindFirstAfter(a, pat, b);
    SplitConcat(a, pat, b);
    SplitNone(b, pat);
    ReplaceIsSplitJoin(a + pat + b, pat, repl);
    JoinCons(a, [b], repl);
  }

  /** When the scan from `start` cannot jump over the occurrence at `i`
      and none follows it, the last piece is the text after `i`. */
  lemma {:induction false} LastSplitFrom(s: string, sep: string, start: nat, i: nat)
    requires |sep| > 0 && start <= i && OccursAt(s, sep, i)
    requires forall j :: start <= j < i && OccursAt(s, sep, j) ==> j + |sep| <= i
    requires FindFrom(s, sep, i + |sep|).None?
    ensures Last(SplitFrom(s, sep, start)) == s[i + |sep|..]
    decreases i - start
  {
    var f := FindFrom(s, sep, start).value;
    if f < i {
      LastSplitFrom(s, sep, f + |sep|, i);
    }
  }

  /** `(a + sep + b).split(sep)[-1] == b` when `b` holds no `sep` and `sep`
      cannot overlap itself. */
  lemma LastSplit(a: string, sep: string, b: string)
    requires NoSelfOverlap(sep) && FindFrom(b, sep, 0).None?
    ensures Last(Split(a + sep + b, sep)) == b
  {
    var s := a + sep + b;
    assert s == (a + sep) + b;
    OccursAtShift(a, sep + b, sep, 0);
    OccursAtSlice(sep + b, sep, 0);
    assert (sep + b)[..|sep|] == sep;
    assert s == a + (sep + b);
    FindFromShift(a + sep, b, sep, 0);
    forall j | 0 <= j < |a| && OccursAt(s, sep, j) ensures j + |sep| <= |a| {
      DisjointOccurrences(s, sep, j, |a|);
    }
    LastSplitFrom(s, sep, 0, |a|);
    assert s[|a| + |sep|..] == b;
  }

  /** `(a + [c] + b).split(c)[-1] == b` when `c` is not in `b`. */
  lemma LastSplitChar(a: string, c: char, b: string)
    requires c !in b
    ensures Last(Split(a + [c] + b, [c])) == b
  {
    FindNoneWithoutFirstChar(b, [c]);
    LastSplit(a, [c], b);
  }

  // ---------------------------------------------------------------------
  // replace
  // ---------------------------------------------------------------------

  /** Python's `s[start:].replace(old, new)`: every leftmost,
      non-overlapping occurrence of `pat` is replaced by `repl`. */
  function ReplaceFrom(s: string, pat: string, repl: string, start: nat): (r: string)
    requires |pat| > 0 && start <= |s|
    ensures FindFrom(s, pat, start).None? ==> r == s[start..]
    decreases |s| - start
  {
    match FindFrom(s, pat, start)
    case None => s[start..]
    case Some(i) => s[start..i] + repl + ReplaceFrom(s, pat, repl, i + |pat|)
  }

  /** Python's `s.replace(old, new)`. */
  function Replace(s: string, pat: string, repl: string): (r: string)
    requires |pat| > 0
    ensures !Contains(s, pat) ==> r == s
  {
    ReplaceFrom(s, pat, repl, 0)
  }

  lemma {:induction false} ReplaceFromIsSplitJoin(s: string, pat: string, repl: string, start: nat)
    requires |pat| > 0 && start <= |s|
    ensures ReplaceFrom(s, pat, repl, start) == Join(SplitFrom(s, pat, start), repl)
    decreases |s| - start
  {
    match FindFrom(s, pat, start)
    case None =>
    case Some(i) =>
      ReplaceFromIsSplitJoin(s, pat, repl, i + |pat|);
      ReplaceSplitJoinStep(s, pat, repl, start, i);
  }

  lemma ReplaceSplitJoinStep(s: string, pat: string, repl: string, start: nat, i: nat)
    requires |pat| > 0 && start <= |s| && FindFrom(s, pat, start) == Some(i)
    requires ReplaceFrom(s, pat, repl, i + |pat|) == Join(SplitFrom(s, pat, i + |pat|), repl)
    ensures ReplaceFrom(s, pat, repl, start) == Join(SplitFrom(s, pat, start), repl)
  {
    var rest := SplitFrom(s, pat, i + |pat|);
    ReplaceFromFound(s, pat, repl, start, i);
    SplitFromFound(s, pat, start, i);
    JoinCons(s[start..i], rest, repl);
  }

  /** A found pattern is replaced, and the rest is replaced after it. */
  lemma ReplaceFromFound(s: string, pat: string, repl: string, start: nat, i: nat)
    requires |pat| > 0 && start <= |s| && FindFrom(s, pat, start) == Some(i)
    ensures i + |pat| <= |s|
    ensures ReplaceFrom(s, pat, repl, start) == s[start..i] + repl + ReplaceFrom(s, pat, repl, i + |pat|)
  {
  }

  /** `s.replace(pat, repl) == repl.join(s.split(pat))`. */
  lemma ReplaceIsSplitJoin(s: string, pat: string, repl: string)
    requires |pat| > 0
    ensures Replace(s, pat, repl) == Join(Split(s, pat), repl)
  {
    ReplaceFromIsSplitJoin(s, pat, repl, 0);
  }

  /** Replacing one character by another removes it, and replacing it back
      restores the original string. */
  lemma ReplaceCharRoundTrip(s: string, c: char, d: char)
    requires c != d && d !in s
    ensures c !in Replace(s, [c], [d])
    ensures Replace(Replace(s, [c], [d]), [d], [c]) == s
  {
    var parts := Split(s, [c]);
    ReplaceIsSplitJoin(s, [c], [d]);
    SplitCharPiecesFree(s, c);
    forall p | p in parts ensures d !in p {
      JoinSplit(s, [c]);
      PieceCharFree(parts, [c], p, d);
    }
    JoinCharFree(parts, [d], c);
    var t := Replace(s, [c], [d]);
    ReplaceIsSplitJoin(t, [d], [c]);
    SplitJoinChar(parts, d);
    JoinSplit(s, [c]);
  }

  /** Every `c` of `s` turned into `d`, position by position. */
  function MapChar(s: string, c: char, d: char): (r: string)
    ensures |r| == |s| && forall i :: 0 <= i < |s| ==> r[i] == (if s[i] == c then d else s[i])
  {
    seq(|s|, i requires 0 <= i < |s| => if s[i] == c then d else s[i])
  }

  lemma {:induction false} ReplaceFromCharIsMap(s: string, c: char, d: char, start: nat)
    requires start <= |s|
    ensures ReplaceFrom(s, [c], [d], start) == MapChar(s[start..], c, d)
    decreases |s| - start, 1
  {
    match FindFrom(s, [c], start)
    case None =>
      ReplaceFromCharNone(s, c, d, start);
    case Some(i) =>
      ReplaceFromCharFound(s, c, d, start, i);
  }

  lemma ReplaceFromCharFound(s: string, c: char, d: char, start: nat, i: nat)
    requires start <= |s| && FindFrom(s, [c], start) == Some(i)
    ensures ReplaceFrom(s, [c], [d], start) == MapChar(s[start..], c, d)
    decreases |s| - start, 0
  {
    OccursAtChar(s, c, i);
    ReplaceFromCharIsMap(s, c, d, i + 1);
    ReplaceFromCharStep(s, c, d, start, i);
  }

  /** No occurrence left: the rest is kept as it is. */
  lemma ReplaceFromCharNone(s: string, c: char, d: char, start: nat)
    requires start <= |s| && FindFrom(s, [c], start).None?
    ensures ReplaceFrom(s, [c], [d], start) == MapChar(s[start..], c, d)
  {
    NoCharBetween(s, c, start, |s|);
    assert s[start..] == s[start..|s|];
    MapCharWithout(s[start..], c, d);
  }

  /** One replacement step: the text before the occurrence is kept, the
      occurrence becomes `d`, and the rest is replaced further on. */
  lemma ReplaceFromCharStep(s: string, c: char, d: char, start: nat, i: nat)
    requires start <= i < |s| && FindFrom(s, [c], start) == Some(i)
    requires ReplaceFrom(s, [c], [d], i + 1) == MapChar(s[i + 1..], c, d)
    ensures ReplaceFrom(s, [c], [d], start) == MapChar(s[start..], c, d)
  {
    OccursAtChar(s, c, i);
    NoCharBetween(s, c, start, i);
    assert ReplaceFrom(s, [c], [d], start) == s[start..i] + [d] + ReplaceFrom(s, [c], [d], i + 1);
    MapCharFrom(s, start, i, c, d);
  }

  /** Mapping the rest of `s` from `start` around its first `c`, at `i`. */
  lemma MapCharFrom(s: string, start: nat, i: nat, c: char, d: char)
    requires start <= i < |s| && s[i] == c && c !in s[start..i]
    ensures MapChar(s[start..], c, d) == s[start..i] + [d] + MapChar(s[i + 1..], c, d)
  {
    assert s[start..][..i - start] == s[start..i];
    assert s[start..][i - start + 1..] == s[i + 1..];
    MapCharAround(s[start..], i - start, c, d);
  }

  /** Mapping a string around an occurrence of `c` before which there is
      none. */
  lemma MapCharAround(s: string, k: nat, c: char, d: char)
    requires k < |s| && s[k] == c && c !in s[..k]
    ensures MapChar(s, c, d) == s[..k] + [d] + MapChar(s[k + 1..], c, d)
  {
    var pre, rest := s[..k], s[k + 1..];
    assert s == pre + [c] + rest;
    MapCharWithout(pre, c, d);
    MapCharConcat(pre + [c], rest, c, d);
    MapCharConcat(pre, [c], c, d);
    assert MapChar([c], c, d) == [d];
  }

  /** Where the scan from `start` found no `c` before `end`, there is none. */
  lemma NoCharBetween(s: string, c: char, start: nat, end: nat)
    requires start <= end <= |s|
    requires forall j :: start <= j < end ==> !OccursAt(s, [c], j)
    ensures c !in s[start..end]
  {
    forall j | start <= j < end ensures s[j] != c {
      OccursAtChar(s, c, j);
    }
  }

  lemma MapCharWithout(s: string, c: char, d: char)
    requires c !in s
    ensures MapChar(s, c, d) == s
  {
  }

  /** Replacing a one-character pattern by one character maps that
      character and leaves every other one alone. */
  lemma ReplaceCharIsMap(s: string, c: char, d: char)
    ensures Replace(s, [c], [d]) == MapChar(s, c, d)
  {
    ReplaceFromCharIsMap(s, c, d, 0);
    assert s[0..] == s;
  }

  lemma MapCharConcat(a: string, b: string, c: char, d: char)
    ensures MapChar(a + b, c, d) == MapChar(a, c, d) + MapChar(b, c, d)
  {
    assert MapChar(a + b, c, d) == MapChar(a, c, d) + MapChar(b, c, d);
  }

  /** Mapping `c` to `d` and back restores a string that had no `d`. */
  lemma MapCharBack(s: string, c: char, d: char)
    requires d !in s
    ensures MapChar(MapChar(s, c, d), d, c) == s
  {
  }

  /** After the mapping no `c` is left (when `c` differs from `d`). */
  lemma MapCharRemoves(s: string, c: char, d: char)
    requires c != d
    ensures c !in MapChar(s, c, d)
  {
  }

  /** A piece of a join contains no character that the join lacks. */
  lemma {:induction false} PieceCharFree(parts: seq<string>, sep: string, p: string, d: char)
    requires p in parts && d !in Join(parts, sep)
    ensures d !in p
    decreases |parts|
  {
    if |parts| > 1 && p != parts[0] {
      PieceCharFree(parts[1..], sep, p, d);
    }
  }

  // ---------------------------------------------------------------------
  // Decimal digits: str(int), str.zfill and int(str)
  // ---------------------------------------------------------------------

  predicate IsDigit(c: char) {
    '0' <= c <= '9'
  }

  predicate AllDigits(s: string) {
    forall i :: 0 <= i < |s| ==> IsDigit(s[i])
  }

  /** Text of a decimal number: digits and dots only. */
  predicate NumericText(t: string) {
    forall i :: 0 <= i < |t| ==> IsDigit(t[i]) || t[i] == '.'
  }

  function DigitChar(d: nat): (c: char)
    requires d < 10
    ensures IsDigit(c) && c as int - '0' as int == d
  {
    ('0' as int + d) as char
  }

  /** Python's `str(n)` for a non-negative integer. */
  function NatToString(n: nat): (s: string)
    ensures |s| >= 1 && AllDigits(s)
    ensures n >= 10 ==> s[0] != '0'
    ensures s[0] != '+' && s[0] != '-'
  {
    if n < 10 then [DigitChar(n)]
    else NatToString(n / 10) + [DigitChar(n % 10)]
  }

  /** The value of a string of decimal digits. */
  function DigitsValue(s: string): (v: nat)
    requires AllDigits(s)
    ensures |s| == 0 ==> v == 0
  {
    if |s| == 0 then 0
    else DigitsValue(s[..|s| - 1]) * 10 + (s[|s| - 1] as int - '0' as int)
  }

  lemma {:induction false} DigitsValueOfNatToString(n: nat)
    ensures DigitsValue(NatToString(n)) == n
  {
    if n >= 10 {
      DigitsValueOfNatToString(n / 10);
      var s := NatToString(n);
      assert s[..|s| - 1] == NatToString(n / 10);
    }
  }

  /** `k` zero characters. */
  function Zeros(k: nat): (z: string)
    ensures |z| == k && AllDigits(z)
    ensures forall i :: 0 <= i < k ==> z[i] == '0'
  {
    seq(k, _ => '0')
  }

  /** Leading zeros do not change the value of a digit string. */
  lemma {:induction false} LeadingZeros(k: nat, d: string)
    requires AllDigits(d)
    ensures AllDigits(Zeros(k) + d)
    ensures DigitsValue(Zeros(k) + d) == DigitsValue(d)
    decreases |d|
  {
    var s := Zeros(k) + d;
    if |d| == 0 {
      assert s == Zeros(k);
      ZerosValue(k);
    } else {
      LeadingZeros(k, d[..|d| - 1]);
      assert s[..|s| - 1] == Zeros(k) + d[..|d| - 1];
    }
  }

  lemma {:induction false} ZerosValue(k: nat)
    ensures DigitsValue(Zeros(k)) == 0
  {
    if k > 0 {
      ZerosValue(k - 1);
      assert Zeros(k)[..k - 1] == Zeros(k - 1);
    }
  }

  /** Python's `s.zfill(width)`: pads with '0' on the left to `width`
      characters, keeping a leading sign in front of the padding. */
  function ZFill(s: string, width: nat): (r: string)
    ensures |r| == if |s| >= width then |s| else width
    ensures |s| >= width ==> r == s
    ensures |s| < width && (|s| == 0 || (s[0] != '+' && s[0] != '-')) ==>
              r == Zeros(width - |s|) + s
    ensures |s| < width && |s| > 0 && (s[0] == '+' || s[0] == '-') ==>
              r == [s[0]] + Zeros(width - |s|) + s[1..]
  {
    if |s| >= width then s
    else if |s| > 0 && (s[0] == '+' || s[0] == '-') then [s[0]] + Zeros(width - |s|) + s[1..]
    else Zeros(width - |s|) + s
  }

  /** Python's `int(s)` on decimal text: an optional sign followed by at
      least one digit; anything else raises ValueError. */
  function ParseInt(s: string): (r: Result<int>)
    ensures r.Ok? <==> (AllDigits(s) && |s| > 0) ||
                       (|s| > 1 && (s[0] == '+' || s[0] == '-') && AllDigits(s[1..]))
  {
    if |s| > 0 && (s[0] == '+' || s[0] == '-') then
      var body := s[1..];
      if |body| == 0 || !AllDigits(body) then Err(ValueError)
      else if s[0] == '-' then Ok(-(DigitsValue(body) as int))
      else Ok(DigitsValue(body))
    else if |s| == 0 || !AllDigits(s) then Err(ValueError)
    else Ok(DigitsValue(s))
  }

  /** A zero-padded natural is all digits. */
  lemma ZFillNatDigits(n: nat, width: nat)
    ensures |ZFill(NatToString(n), width)| >= 1 && AllDigits(ZFill(NatToString(n), width))
  {
    var s := NatToString(n);
    if |s| < width {
      var z := Zeros(width - |s|);
      assert forall i :: 0 <= i < |z + s| ==> (z + s)[i] == if i < |z| then z[i] else s[i - |z|];
    }
  }

  /** `int(str(n).zfill(w)) == n`: zero-padded version numbers parse back
      to the number they were written from. */
  lemma ParseZFilledNat(n: nat, width: nat)
    ensures ParseInt(ZFill(NatToString(n), width)) == Ok(n)
  {
    var s := NatToString(n);
    DigitsValueOfNatToString(n);
    if |s| < width {
      LeadingZeros(width - |s|, s);
    }
  }

  /** Zero-padding a digit string is injective for a fixed width. */
  lemma ZFillNatInjective(m: nat, n: nat, width: nat)
    requires ZFill(NatToString(m), width) == ZFill(NatToString(n), width)
    ensures m == n
  {
    ParseZFilledNat(m, width);
    ParseZFilledNat(n, width);
  }

  // ---------------------------------------------------------------------
  // Lists and paths
  // ---------------------------------------------------------------------

  /** Python's `xs[-1]`. */
  function Last<T>(xs: seq<T>): (x: T)
    requires |xs| > 0
    ensures x == xs[|xs| - 1]
  {
    xs[|xs| - 1]
  }

  /** The lists of `xss` one after the other (`sum(xss, [])`). */
  function Flatten<T>(xss: seq<seq<T>>): (r: seq<T>)
    decreases |xss|
  {
    if |xss| == 0 then [] else Flatten(xss[..|xss| - 1]) + xss[|xss| - 1]
  }

  lemma {:induction false} FlattenConcat<T>(a: seq<seq<T>>, b: seq<seq<T>>)
    ensures Flatten(a + b) == Flatten(a) + Flatten(b)
    decreases |b|
  {
    if |b| == 0 {
      assert a + b == a;
    } else {
      var c := b[..|b| - 1];
      assert (a + b)[..|a + b| - 1] == a + c;
      FlattenConcat(a, c);
    }
  }

  /** Python's `os.path.basename(p)`: the text after the last "/". */
  function Basename(p: string): (r: string)
    ensures '/' !in r
  {
    SplitCharPiecesFree(p, '/');
    Last(Split(p, "/"))
  }

  /** The basename of `dir + "/" + name` is `name` when `name` has no "/". */
  lemma BasenameOfJoin(dir: string, name: string)
    requires '/' !in name
    ensures Basename(dir + "/" + name) == name
  {
    LastSplitChar(dir, '/', name);
  }

  /** A name without "/" is its own basename. */
  lemma BasenameOfName(name: string)
    requires '/' !in name
    ensures Basename(name) == name
  {
    SplitCharNone(name, '/');
  }

  /** `os.path.join(dir, name)`: an absolute `name` discards `dir`. */
  function PathJoin(dir: string, name: string): (r: string)
    ensures |dir| == 0 ==> r == name
    ensures |name| > 0 && name[0] == '/' ==> r == name
    ensures !(|name| > 0 && name[0] == '/') && |dir| > 0 ==>
              |r| >= |dir| + |name| && dir <= r && r[|r| - |name|..] == name
  {
    if |name| > 0 && name[0] == '/' then name
    else if |dir| == 0 || dir[|dir| - 1] == '/' then dir + name else dir + "/" + name
  }

  /** The joined path ends with `name`. */
  lemma BasenameOfPathJoin(dir: string, name: string)
    requires '/' !in name
    ensures Basename(PathJoin(dir, name)) == name
  {
    if |dir| == 0 {
      BasenameOfName(name);
    } else if dir[|dir| - 1] == '/' {
      var d := dir[..|dir| - 1];
      assert dir + name == d + "/" + name;
      BasenameOfJoin(d, name);
    } else {
      BasenameOfJoin(dir, name);
    }
  }

  /** Joining onto a directory without a trailing "/" inserts one. */
  lemma PathJoinPlain(dir: string, name: string)
    requires |dir| > 0 && dir[|dir| - 1] != '/' && (|name| == 0 || name[0] != '/')
    ensures PathJoin(dir, name) == dir + "/" + name
    ensures |name| > 0 && '/' !in name ==> (dir + "/" + name)[|dir| + |name|] != '/'
  {
    if |name| > 0 {
      assert (dir + "/" + name)[|dir| + |name|] == name[|name| - 1];
    }
  }

  /** The last position before `n` holding `c`. */
  function LastIndexBefore(s: string, c: char, n: nat): (r: Option<nat>)
    requires n <= |s|
    ensures r.Some? ==> r.value < n && s[r.value] == c
    ensures r.Some? ==> forall j :: r.value < j < n ==> s[j] != c
    ensures r.None? ==> forall j :: 0 <= j < n ==> s[j] != c
  {
    if n == 0 then None
    else if s[n - 1] == c then Some(n - 1)
    else LastIndexBefore(s, c, n - 1)
  }

  /** `os.path.splitext(p)[0]`: drops the extension, that is the text from
      the last "." of the last path component, unless that component
      holds nothing but dots before it. */
  function SplitExtRoot(p: string): (r: string)
    ensures |r| <= |p| && r == p[..|r|]
  {
    var slash := LastIndexBefore(p, '/', |p|);
    var dot := LastIndexBefore(p, '.', |p|);
    var nameStart := if slash.Some? then slash.value + 1 else 0;
    if dot.Some? && dot.value >= nameStart &&
       exists k :: nameStart <= k < dot.value && p[k] != '.'
    then p[..dot.value]
    else p
  }

  /** Dropping the extension of `stem + "." + ext`, when the extension has
      no "." or "/" and the stem has no "/" and does not start with ".". */
  lemma SplitExtRootOf(stem: string, ext: string)
    requires '/' !in stem && '.' !in ext && '/' !in ext
    requires |stem| > 0 && stem[0] != '.'
    ensures SplitExtRoot(stem + "." + ext) == stem
  {
    var p := stem + "." + ext;
    var dot := LastIndexBefore(p, '.', |p|);
    var slash := LastIndexBefore(p, '/', |p|);
    assert p[|stem|] == '.';
    assert p[0] == stem[0];
    assert p[..|stem|] == stem;
  }
}
