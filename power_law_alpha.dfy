/** Grouping cascade time differences by minimum cascade size
    (`generate_min_rts_dict` in `code/data_analysis/estimate_power_law_alpha.py`).
    Key -1 collects every cascade; the size thresholds either pick one
    bucket per cascade (hard split) or every threshold the cascade
    reaches. */
module PowerLawAlpha {
  import opened Wrappers

  /** The size thresholds, largest first, in the order they are tested. */
  const Thresholds: seq<int> := [100000, 10000, 5000, 1000, 100, 10, 1]

  /** The key that receives every cascade. */
  const AllCascades: int := -1

  /** One cascade's entry: its size and its retweet time differences. */
  datatype CascadeDiffs = CascadeDiffs(length: int, timeDiffs: seq<real>)

  /** Position of the first entry of `ts` that is at most `size`. */
  function FirstAtMost(ts: seq<int>, size: int): (r: Option<nat>)
    ensures r.None? <==> forall i :: 0 <= i < |ts| ==> ts[i] > size
    ensures r.Some? ==> r.value < |ts| && ts[r.value] <= size
    ensures r.Some? ==> forall j :: 0 <= j < r.value ==> ts[j] > size
    decreases |ts|
  {
    if |ts| == 0 then None
    else if ts[0] <= size then Some(0)
    else
      match FirstAtMost(ts[1..], size)
      case None => None
      case Some(i) => Some(i + 1)
  }

  /** The thresholds are strictly decreasing. */
  lemma ThresholdsDecrease()
    ensures forall i, j :: 0 <= i < j < |Thresholds| ==> Thresholds[i] > Thresholds[j]
  {
  }

  /** Hard split: the single bucket of a cascade of size `size`, the
      first threshold it reaches; none when it reaches none. */
  function HardKey(size: int): (r: Option<int>)
    ensures r.None? <==> size < 1
  {
    assert Thresholds[6] == 1;
    match FirstAtMost(Thresholds, size)
    case None => None
    case Some(i) => Some(Thresholds[i])
  }

  /** The hard-split bucket is the largest threshold the size reaches. */
  lemma HardKeyIsLargest(size: int)
    requires size >= 1
    ensures HardKey(size).value in Thresholds && HardKey(size).value <= size
    ensures forall t :: t in Thresholds && t <= size ==> t <= HardKey(size).value
  {
    ThresholdsDecrease();
  }

  /** The entries of `ts` that are at most `size`, in order. */
  function AtMost(ts: seq<int>, size: int): (r: seq<int>)
    ensures forall t :: t in r <==> t in ts && t <= size
    decreases |ts|
  {
    if |ts| == 0 then []
    else (if ts[0] <= size then [ts[0]] else []) + AtMost(ts[1..], size)
  }

  /** The keys a cascade of size `size` contributes to: key -1, then its
      hard-split bucket or every threshold it reaches. */
  function KeysFor(size: int, hardSplit: bool): (r: seq<int>)
    requires !hardSplit || size >= 1
  {
    [AllCascades] + if hardSplit then [HardKey(size).value] else AtMost(Thresholds, size)
  }

  /** `min_rts_dict[key].extend(diffs)` on a defaultdict of lists. */
  function Extend(m: map<int, seq<real>>, key: int, diffs: seq<real>): (r: map<int, seq<real>>)
    ensures r.Keys == m.Keys + {key}
    ensures r[key] == Lookup(m, key) + diffs
    ensures forall k :: k in m && k != key ==> r[k] == m[k]
  {
    m[key := Lookup(m, key) + diffs]
  }

  /** The list stored under `key`, or the empty list a defaultdict would
      create. */
  function Lookup(m: map<int, seq<real>>, key: int): seq<real>
  {
    if key in m then m[key] else []
  }

  /** Extending under each of `keys` in turn. */
  function ExtendAll(m: map<int, seq<real>>, keys: seq<int>, diffs: seq<real>): map<int, seq<real>>
    decreases |keys|
  {
    if |keys| == 0 then m else ExtendAll(Extend(m, keys[0], diffs), keys[1..], diffs)
  }

  /** The dictionary after the cascades `cascades`, or the ValueError a
      hard split raises for a size below 1. */
  function MinRtsDict(cascades: seq<CascadeDiffs>, hardSplit: bool): Result<map<int, seq<real>>>
    decreases |cascades|
  {
    if |cascades| == 0 then Ok(map[])
    else
      var last := cascades[|cascades| - 1];
      match MinRtsDict(cascades[..|cascades| - 1], hardSplit)
      case Err(e) => Err(e)
      case Ok(m) =>
        if hardSplit && last.length < 1 then Err(ValueError)
        else Ok(ExtendAll(m, KeysFor(last.length, hardSplit), last.timeDiffs))
  }

  /** `generate_min_rts_dict`: the cascades are visited in the dictionary's
      order and their differences appended under each of their keys. */
  method GenerateMinRtsDict(timeDiffDict: seq<CascadeDiffs>, hardSplit: bool) returns (r: Result<map<int, seq<real>>>)
    ensures r == MinRtsDict(timeDiffDict, hardSplit)
  {
    var minRtsDict: map<int, seq<real>> := map[];
    for i := 0 to |timeDiffDict|
      invariant MinRtsDict(timeDiffDict[..i], hardSplit) == Ok(minRtsDict)
    {
      var cascadeSize := timeDiffDict[i].length;
      var rtTimeDiffs := timeDiffDict[i].timeDiffs;
      assert timeDiffDict[..i + 1][..i] == timeDiffDict[..i];
      ghost var start := minRtsDict;
      minRtsDict := Extend(minRtsDict, AllCascades, rtTimeDiffs);
      if hardSplit {
        if cascadeSize >= 100000 {
          minRtsDict := Extend(minRtsDict, 100000, rtTimeDiffs);
        } else if cascadeSize >= 10000 {
          minRtsDict := Extend(minRtsDict, 10000, rtTimeDiffs);
        } else if cascadeSize >= 5000 {
          minRtsDict := Extend(minRtsDict, 5000, rtTimeDiffs);
        } else if cascadeSize >= 1000 {
          minRtsDict := Extend(minRtsDict, 1000, rtTimeDiffs);
        } else if cascadeSize >= 100 {
          minRtsDict := Extend(minRtsDict, 100, rtTimeDiffs);
        } else if cascadeSize >= 10 {
          minRtsDict := Extend(minRtsDict, 10, rtTimeDiffs);
        } else if cascadeSize >= 1 {
          minRtsDict := Extend(minRtsDict, 1, rtTimeDiffs);
        } else {
          HardSplitFails(timeDiffDict, i + 1);
          return Err(ValueError);
        }
        HardKeyValue(cascadeSize);
        HardStep(start, cascadeSize, rtTimeDiffs);
      } else {
        ghost var m1 := minRtsDict;
        if cascadeSize >= 100000 {
          minRtsDict := Extend(minRtsDict, 100000, rtTimeDiffs);
        }
        if cascadeSize >= 10000 {
          minRtsDict := Extend(minRtsDict, 10000, rtTimeDiffs);
        }
        if cascadeSize >= 5000 {
          minRtsDict := Extend(minRtsDict, 5000, rtTimeDiffs);
        }
        if cascadeSize >= 1000 {
          minRtsDict := Extend(minRtsDict, 1000, rtTimeDiffs);
        }
        if cascadeSize >= 100 {
          minRtsDict := Extend(minRtsDict, 100, rtTimeDiffs);
        }
        if cascadeSize >= 10 {
          minRtsDict := Extend(minRtsDict, 10, rtTimeDiffs);
        }
        if cascadeSize >= 1 {
          minRtsDict := Extend(minRtsDict, 1, rtTimeDiffs);
        }
        SoftStep(start, cascadeSize, rtTimeDiffs);
      }
    }
    assert timeDiffDict[..|timeDiffDict|] == timeDiffDict;
    return Ok(minRtsDict);
  }

  /** `Extend` when `cond` holds. */
  function CondExtend(m: map<int, seq<real>>, cond: bool, key: int, diffs: seq<real>): map<int, seq<real>>
  {
    if cond then Extend(m, key, diffs) else m
  }

  /** The hard-split bucket as the chain of tests written out. */
  lemma HardKeyValue(size: int)
    ensures HardKey(size) ==
              if size >= 100000 then Some(100000) else if size >= 10000 then Some(10000)
              else if size >= 5000 then Some(5000) else if size >= 1000 then Some(1000)
              else if size >= 100 then Some(100) else if size >= 10 then Some(10)
              else if size >= 1 then Some(1) else None
  {
    ThresholdsDecrease();
  }

  lemma HardStep(m: map<int, seq<real>>, size: int, diffs: seq<real>)
    requires size >= 1
    ensures ExtendAll(m, KeysFor(size, true), diffs) == Extend(Extend(m, AllCascades, diffs), HardKey(size).value, diffs)
  {
    var keys := KeysFor(size, true);
    var m1 := Extend(m, AllCascades, diffs);
    assert keys == [AllCascades, HardKey(size).value];
    assert keys[1..] == [HardKey(size).value] && keys[1..][1..] == [];
    assert ExtendAll(m, keys, diffs) == ExtendAll(m1, keys[1..], diffs);
    assert ExtendAll(m1, keys[1..], diffs) == ExtendAll(Extend(m1, HardKey(size).value, diffs), [], diffs);
  }

  /** Extending under the thresholds reached, one test after another. */
  lemma SoftStep(m: map<int, seq<real>>, size: int, diffs: seq<real>)
    ensures ExtendAll(m, KeysFor(size, false), diffs) ==
              var m1 := Extend(m, AllCascades, diffs);
              CondExtend(CondExtend(CondExtend(CondExtend(CondExtend(CondExtend(CondExtend(m1,
                size >= 100000, 100000, diffs), size >= 10000, 10000, diffs), size >= 5000, 5000, diffs),
                size >= 1000, 1000, diffs), size >= 100, 100, diffs), size >= 10, 10, diffs), size >= 1, 1, diffs)
  {
    var m1 := Extend(m, AllCascades, diffs);
    var ts := Thresholds;
    assert KeysFor(size, false)[1..] == AtMost(ts, size);
    var m2 := CondExtend(m1, size >= 100000, 100000, diffs);
    AtMostStep(m1, ts, size, diffs);
    var m3 := CondExtend(m2, size >= 10000, 10000, diffs);
    AtMostStep(m2, ts[1..], size, diffs);
    var m4 := CondExtend(m3, size >= 5000, 5000, diffs);
    AtMostStep(m3, ts[2..], size, diffs);
    assert ts[2..][1..] == ts[3..] && ts[1..][1..] == ts[2..];
    SoftTail(m4, size, diffs);
  }

  /** The last four thresholds of `SoftStep`. */
  lemma SoftTail(m: map<int, seq<real>>, size: int, diffs: seq<real>)
    ensures ExtendAll(m, AtMost(Thresholds[3..], size), diffs) ==
              CondExtend(CondExtend(CondExtend(CondExtend(m,
                size >= 1000, 1000, diffs), size >= 100, 100, diffs), size >= 10, 10, diffs), size >= 1, 1, diffs)
  {
    var ts := Thresholds[3..];
    assert ts == [1000, 100, 10, 1];
    var m5 := CondExtend(m, size >= 1000, 1000, diffs);
    AtMostStep(m, ts, size, diffs);
    var m6 := CondExtend(m5, size >= 100, 100, diffs);
    AtMostStep(m5, ts[1..], size, diffs);
    var m7 := CondExtend(m6, size >= 10, 10, diffs);
    AtMostStep(m6, ts[2..], size, diffs);
    AtMostStep(m7, ts[3..], size, diffs);
    assert ts[1..][1..] == ts[2..] && ts[2..][1..] == ts[3..] && ts[3..][1..] == [];
  }

  lemma AtMostStep(m: map<int, seq<real>>, ts: seq<int>, size: int, diffs: seq<real>)
    requires |ts| > 0
    ensures ExtendAll(m, AtMost(ts, size), diffs) ==
              ExtendAll(CondExtend(m, ts[0] <= size, ts[0], diffs), AtMost(ts[1..], size), diffs)
  {
    if ts[0] <= size {
      assert AtMost(ts, size) == [ts[0]] + AtMost(ts[1..], size);
      assert AtMost(ts, size)[1..] == AtMost(ts[1..], size);
    } else {
      assert AtMost(ts, size) == [] + AtMost(ts[1..], size);
      assert AtMost(ts, size) == AtMost(ts[1..], size);
    }
  }

  /** A size below 1 in a hard split fails the whole call. */
  lemma {:induction false} HardSplitFails(cascades: seq<CascadeDiffs>, i: nat)
    requires 0 < i <= |cascades| && cascades[i - 1].length < 1
    requires MinRtsDict(cascades[..i - 1], true).Ok?
    ensures MinRtsDict(cascades, true) == Err(ValueError)
  {
    assert cascades[..i][..i - 1] == cascades[..i - 1];
    ErrPersists(cascades, i);
  }

  lemma {:induction false} ErrPersists(cascades: seq<CascadeDiffs>, i: nat)
    requires i <= |cascades| && MinRtsDict(cascades[..i], true) == Err(ValueError)
    ensures MinRtsDict(cascades, true) == Err(ValueError)
    decreases |cascades| - i
  {
    if i < |cascades| {
      assert cascades[..i + 1][..i] == cascades[..i];
      ErrPersists(cascades, i + 1);
    } else {
      assert cascades[..i] == cascades;
    }
  }

  // ---------------------------------------------------------------------
  // What the dictionary holds
  // ---------------------------------------------------------------------

  /** Whether a cascade of size `size` contributes to `key`: every cascade
      to -1; in a hard split to its bucket only; otherwise to every
      threshold it reaches. */
  predicate Receives(size: int, hardSplit: bool, key: int) {
    key == AllCascades || (if hardSplit then HardKey(size) == Some(key) else key in Thresholds && key <= size)
  }

  /** The differences of the cascades contributing to `key`, in order. */
  function Contributions(cascades: seq<CascadeDiffs>, hardSplit: bool, key: int): seq<real>
    decreases |cascades|
  {
    if |cascades| == 0 then []
    else
      var last := cascades[|cascades| - 1];
      Contributions(cascades[..|cascades| - 1], hardSplit, key) +
        (if Receives(last.length, hardSplit, key) then last.timeDiffs else [])
  }

  /** Every cascade's differences, in order. */
  function AllDiffs(cascades: seq<CascadeDiffs>): seq<real>
    decreases |cascades|
  {
    if |cascades| == 0 then []
    else AllDiffs(cascades[..|cascades| - 1]) + cascades[|cascades| - 1].timeDiffs
  }

  lemma {:induction false} AtMostDecreasing(ts: seq<int>, size: int)
    requires forall i, j :: 0 <= i < j < |ts| ==> ts[i] > ts[j]
    ensures forall i, j :: 0 <= i < j < |AtMost(ts, size)| ==> AtMost(ts, size)[i] > AtMost(ts, size)[j]
    decreases |ts|
  {
    if |ts| > 0 {
      var rest := AtMost(ts[1..], size);
      AtMostDecreasing(ts[1..], size);
      var r := AtMost(ts, size);
      if ts[0] <= size {
        assert r == [ts[0]] + rest;
        forall i, j | 0 <= i < j < |r| ensures r[i] > r[j] {
          assert r[j] == rest[j - 1];
          if i == 0 {
            assert rest[j - 1] in ts[1..];
            var k :| 0 <= k < |ts[1..]| && ts[1..][k] == rest[j - 1];
            assert ts[k + 1] == rest[j - 1];
          } else {
            assert r[i] == rest[i - 1];
          }
        }
      } else {
        assert r == rest;
      }
    }
  }

  /** The keys of one cascade are distinct and are exactly the keys it
      contributes to. */
  lemma KeysForReceives(size: int, hardSplit: bool)
    requires !hardSplit || size >= 1
    ensures forall k :: k in KeysFor(size, hardSplit) <==> Receives(size, hardSplit, k)
    ensures forall i, j :: 0 <= i < j < |KeysFor(size, hardSplit)| ==> KeysFor(size, hardSplit)[i] != KeysFor(size, hardSplit)[j]
  {
    if hardSplit {
      HardKeysFor(size);
    } else {
      SoftKeysFor(size);
    }
  }

  lemma HardKeysFor(size: int)
    requires size >= 1
    ensures forall k :: k in KeysFor(size, true) <==> Receives(size, true, k)
    ensures forall i, j :: 0 <= i < j < |KeysFor(size, true)| ==> KeysFor(size, true)[i] != KeysFor(size, true)[j]
  {
    HardKeyIsLargest(size);
    var t := HardKey(size).value;
    assert t >= 1 by {
      var k :| 0 <= k < |Thresholds| && Thresholds[k] == t;
    }
    assert KeysFor(size, true) == [AllCascades, t];
  }

  lemma SoftKeysFor(size: int)
    ensures forall k :: k in KeysFor(size, false) <==> Receives(size, false, k)
    ensures forall i, j :: 0 <= i < j < |KeysFor(size, false)| ==> KeysFor(size, false)[i] != KeysFor(size, false)[j]
  {
    ThresholdsDecrease();
    assert forall t :: t in Thresholds ==> t >= 1;
    DecreasingKeys(Thresholds, size);
  }

  /** Key -1 followed by the positive thresholds reached, in decreasing
      order: no key repeats. */
  lemma DecreasingKeys(ts: seq<int>, size: int)
    requires forall i, j :: 0 <= i < j < |ts| ==> ts[i] > ts[j]
    requires forall t :: t in ts ==> t >= 1
    ensures forall i, j :: 0 <= i < j < |[AllCascades] + AtMost(ts, size)| ==>
              ([AllCascades] + AtMost(ts, size))[i] != ([AllCascades] + AtMost(ts, size))[j]
  {
    var rest := AtMost(ts, size);
    var keys := [AllCascades] + rest;
    AtMostDecreasing(ts, size);
    forall i, j | 0 <= i < j < |keys| ensures keys[i] != keys[j] {
      assert keys[j] == rest[j - 1];
      assert rest[j - 1] in ts;
      if i > 0 {
        assert keys[i] == rest[i - 1];
      }
    }
  }

  lemma {:induction false} LookupExtendAll(m: map<int, seq<real>>, keys: seq<int>, diffs: seq<real>, k: int)
    requires forall i, j :: 0 <= i < j < |keys| ==> keys[i] != keys[j]
    ensures Lookup(ExtendAll(m, keys, diffs), k) == Lookup(m, k) + (if k in keys then diffs else [])
    ensures k in ExtendAll(m, keys, diffs) <==> k in m || k in keys
    decreases |keys|
  {
    if |keys| > 0 {
      var m1 := Extend(m, keys[0], diffs);
      LookupExtendAll(m1, keys[1..], diffs, k);
      assert keys == [keys[0]] + keys[1..];
      if k == keys[0] {
        assert k !in keys[1..];
      }
    }
  }

  /** Each key holds, in order, the differences of exactly the cascades
      that contribute to it, and a key exists exactly when some cascade
      contributes to it (even with no differences). */
  lemma {:induction false} MinRtsDictContents(cascades: seq<CascadeDiffs>, hardSplit: bool, key: int)
    requires MinRtsDict(cascades, hardSplit).Ok?
    ensures Lookup(MinRtsDict(cascades, hardSplit).value, key) == Contributions(cascades, hardSplit, key)
    ensures key in MinRtsDict(cascades, hardSplit).value <==>
              exists i :: 0 <= i < |cascades| && Receives(cascades[i].length, hardSplit, key)
    decreases |cascades|
  {
    if |cascades| > 0 {
      var last := |cascades| - 1;
      var prefix := cascades[..last];
      var c := cascades[last];
      MinRtsDictOkStep(cascades, hardSplit);
      var m := MinRtsDict(prefix, hardSplit).value;
      var keys := KeysFor(c.length, hardSplit);
      assert MinRtsDict(cascades, hardSplit) == Ok(ExtendAll(m, keys, c.timeDiffs));
      MinRtsDictContents(prefix, hardSplit, key);
      KeysForReceives(c.length, hardSplit);
      LookupExtendAll(m, keys, c.timeDiffs, key);
      ReceivedSomewhere(cascades, hardSplit, key);
    }
  }

  lemma ReceivedSomewhere(cascades: seq<CascadeDiffs>, hardSplit: bool, key: int)
    requires |cascades| > 0
    ensures var last := |cascades| - 1;
            (exists i :: 0 <= i < |cascades| && Receives(cascades[i].length, hardSplit, key)) <==>
            (exists i :: 0 <= i < last && Receives(cascades[..last][i].length, hardSplit, key)) ||
            Receives(cascades[last].length, hardSplit, key)
  {
    var last := |cascades| - 1;
    var prefix := cascades[..last];
    if exists i :: 0 <= i < |cascades| && Receives(cascades[i].length, hardSplit, key) {
      var i :| 0 <= i < |cascades| && Receives(cascades[i].length, hardSplit, key);
      if i < last {
        assert prefix[i] == cascades[i];
      }
    }
    if exists i :: 0 <= i < last && Receives(prefix[i].length, hardSplit, key) {
      var i :| 0 <= i < last && Receives(prefix[i].length, hardSplit, key);
      assert cascades[i] == prefix[i];
    }
  }

  /** The call fails exactly in a hard split with a cascade smaller than 1. */
  lemma {:induction false} MinRtsDictErrIff(cascades: seq<CascadeDiffs>, hardSplit: bool)
    ensures MinRtsDict(cascades, hardSplit).Err? <==>
              hardSplit && exists i :: 0 <= i < |cascades| && cascades[i].length < 1
    ensures MinRtsDict(cascades, hardSplit).Err? ==> MinRtsDict(cascades, hardSplit).error == ValueError
    decreases |cascades|
  {
    if |cascades| > 0 {
      var last := |cascades| - 1;
      var prefix := cascades[..last];
      MinRtsDictErrIff(prefix, hardSplit);
      MinRtsDictOkStep(cascades, hardSplit);
      SmallSomewhere(cascades);
    }
  }

  lemma SmallSomewhere(cascades: seq<CascadeDiffs>)
    requires |cascades| > 0
    ensures var last := |cascades| - 1;
            (exists i :: 0 <= i < |cascades| && cascades[i].length < 1) <==>
            (exists i :: 0 <= i < last && cascades[..last][i].length < 1) || cascades[last].length < 1
  {
    var last := |cascades| - 1;
    var prefix := cascades[..last];
    if exists i :: 0 <= i < |cascades| && cascades[i].length < 1 {
      var i :| 0 <= i < |cascades| && cascades[i].length < 1;
      if i < last {
        assert prefix[i] == cascades[i];
      }
    }
    if exists i :: 0 <= i < last && prefix[i].length < 1 {
      var i :| 0 <= i < last && prefix[i].length < 1;
      assert cascades[i] == prefix[i];
    }
  }

  /** One more cascade: the call still succeeds unless it failed before or
      this cascade is too small for a hard split. */
  lemma MinRtsDictOkStep(cascades: seq<CascadeDiffs>, hardSplit: bool)
    requires |cascades| > 0
    ensures var last := cascades[|cascades| - 1];
            var before := MinRtsDict(cascades[..|cascades| - 1], hardSplit);
            (MinRtsDict(cascades, hardSplit).Ok? <==> before.Ok? && !(hardSplit && last.length < 1)) &&
            (MinRtsDict(cascades, hardSplit).Err? ==>
               MinRtsDict(cascades, hardSplit).error == ValueError || MinRtsDict(cascades, hardSplit) == before)
  {
  }

  /** Key -1 holds every cascade's differences, in order. */
  lemma {:induction false} AllCascadesKey(cascades: seq<CascadeDiffs>, hardSplit: bool)
    requires MinRtsDict(cascades, hardSplit).Ok?
    ensures Lookup(MinRtsDict(cascades, hardSplit).value, AllCascades) == AllDiffs(cascades)
    ensures |cascades| > 0 ==> AllCascades in MinRtsDict(cascades, hardSplit).value
  {
    MinRtsDictContents(cascades, hardSplit, AllCascades);
    ContributionsToAll(cascades, hardSplit);
    if |cascades| > 0 {
      assert Receives(cascades[0].length, hardSplit, AllCascades);
    }
  }

  lemma {:induction false} ContributionsToAll(cascades: seq<CascadeDiffs>, hardSplit: bool)
    ensures Contributions(cascades, hardSplit, AllCascades) == AllDiffs(cascades)
    decreases |cascades|
  {
    if |cascades| > 0 {
      ContributionsToAll(cascades[..|cascades| - 1], hardSplit);
    }
  }

  /** In a hard split a cascade reaches exactly one threshold key, the
      largest it reaches; otherwise it reaches every threshold up to its
      size, and none when its size is below 1. */
  lemma ReceivingKeys(size: int, key: int)
    requires key in Thresholds
    ensures Receives(size, true, key) <==>
              key <= size && forall t :: t in Thresholds && t <= size ==> t <= key
    ensures Receives(size, false, key) <==> key <= size
    ensures size < 1 ==> !Receives(size, true, key) && !Receives(size, false, key)
  {
    if size >= 1 {
      HardKeyIsLargest(size);
    }
  }
}
