/** `get_dict_val` of the midterm package (`midterm/code/package/midterm/utils.py`): the value
    at the end of a path of keys through nested dictionaries, `None` when
    the path leaves the dictionaries. */
module MidtermUtils {
  import opened Wrappers
  import opened JsonValue

  /** Following `keys` from `v`, one dictionary level per key.  Reaching a
      non-dictionary before the keys run out, or a key that is absent,
      gives `None`; a list or dictionary used as a key cannot be hashed and
      raises TypeError. */
  function Walk(v: Json, keys: seq<Json>): (r: Result<Json>)
    ensures |keys| == 0 ==> r == Ok(v)
    ensures r.Err? ==> r.error == TypeError
    decreases |keys|
  {
    if |keys| == 0 then Ok(v)
    else if !v.JDict? then Ok(JNull)
    else
      match keys[0]
      case JStr(s) => if s in v.fields then Walk(v.fields[s], keys[1..]) else Ok(JNull)
      case JList(_) => Err(TypeError)
      case JDict(_) => Err(TypeError)
      case _ => Ok(JNull)
  }

  /** What `get_dict_val(dictionary, key_list)` returns or raises. */
  function GetDictValOf(dictionary: Json, keyList: Json): (r: Result<Json>)
    ensures !dictionary.JDict? || !keyList.JList? ==> r == Err(TypeError)
    ensures dictionary.JDict? && keyList == JList([]) ==> r == Ok(dictionary)
    ensures r.Err? ==> r.error == TypeError
  {
    if !dictionary.JDict? then Err(TypeError)
    else if !keyList.JList? then Err(TypeError)
    else Walk(dictionary, keyList.items)
  }

  /** `get_dict_val`: check both arguments' types, then descend one level
      per key, stopping with `None` as soon as the path leaves the
      dictionaries. */
  method GetDictVal(dictionary: Json, keyList: Json) returns (r: Result<Json>)
    ensures r == GetDictValOf(dictionary, keyList)
  {
    if !dictionary.JDict? {
      return Err(TypeError);
    }
    if !keyList.JList? {
      return Err(TypeError);
    }
    var keys := keyList.items;
    var retval := dictionary;
    for i := 0 to |keys|
      invariant Walk(dictionary, keys) == Walk(retval, keys[i..])
    {
      if !retval.JDict? {
        return Ok(JNull);
      }
      assert keys[i..][1..] == keys[i + 1..];
      match keys[i] {
        case JStr(k) =>
          if k in retval.fields {
            retval := retval.fields[k];
          } else {
            return Ok(JNull);
          }
        case JList(_) =>
          return Err(TypeError);
        case JDict(_) =>
          return Err(TypeError);
        case _ =>
          return Ok(JNull);
      }
    }
    assert keys[|keys|..] == [];
    return Ok(retval);
  }

  /** A path split in two is followed in two stages: the second part
      starts from wherever the first part ended. */
  lemma {:induction false} WalkConcat(v: Json, a: seq<Json>, b: seq<Json>)
    ensures Walk(v, a + b) == match Walk(v, a)
                              case Err(e) => Err(e)
                              case Ok(w) => Walk(w, b)
    decreases |a|
  {
    if |a| == 0 {
      assert a + b == b;
    } else if v.JDict? {
      assert (a + b)[0] == a[0];
      assert (a + b)[1..] == a[1..] + b;
      match a[0]
      case JStr(s) =>
        if s in v.fields {
          WalkConcat(v.fields[s], a[1..], b);
        }
      case _ =>
    }
  }

  /** A key that exists at the dictionary reached so far takes the path
      one level down. */
  lemma StepIn(v: Json, path: seq<Json>, key: string)
    requires Walk(v, path).Ok? && Walk(v, path).value.JDict?
    requires key in Walk(v, path).value.fields
    ensures Walk(v, path + [JStr(key)]) == Ok(Walk(v, path).value.fields[key])
  {
    WalkConcat(v, path, [JStr(key)]);
  }

  /** A key missing from the dictionary reached so far gives `None`,
      whatever keys come after it. */
  lemma MissingKeyGivesNone(v: Json, path: seq<Json>, key: string, rest: seq<Json>)
    requires Walk(v, path).Ok? && Walk(v, path).value.JDict?
    requires key !in Walk(v, path).value.fields
    ensures Walk(v, path + [JStr(key)] + rest) == Ok(JNull)
  {
    assert path + [JStr(key)] + rest == path + ([JStr(key)] + rest);
    WalkConcat(v, path, [JStr(key)] + rest);
  }

  /** Reaching a value that is not a dictionary while keys remain gives
      `None`, whatever those keys are. */
  lemma NonDictGivesNone(v: Json, path: seq<Json>, rest: seq<Json>)
    requires Walk(v, path).Ok? && !Walk(v, path).value.JDict?
    requires |rest| > 0
    ensures Walk(v, path + rest) == Ok(JNull)
  {
    WalkConcat(v, path, rest);
  }

  /** A path made only of strings never raises: the only failure of the
      walk is an unhashable key. */
  lemma {:induction false} StringKeysNeverFail(v: Json, ks: seq<string>)
    ensures Walk(v, Keys(ks).items).Ok?
    decreases |ks|
  {
    if |ks| > 0 && v.JDict? {
      assert Keys(ks).items[1..] == Keys(ks[1..]).items;
      if ks[0] in v.fields {
        StringKeysNeverFail(v.fields[ks[0]], ks[1..]);
      }
    }
  }

  /** The dictionary of the function's own documentation. */
  function ExampleDictionary(): (d: Json)
    ensures d.JDict? && "b" in d.fields && d.fields["b"].JDict?
  {
    JDict(map[
      "a" := JInt(1),
      "b" := JDict(map["c" := JInt(2), "d" := JInt(5)]),
      "e" := JDict(map["f" := JInt(4), "g" := JInt(3)]),
      "h" := JInt(3)])
  }

  /** The documented examples: ['b', 'c'] finds 2 and ['b', 'k'] finds
      nothing. */
  lemma DocumentedExamples()
    ensures GetDictValOf(ExampleDictionary(), Keys(["b", "c"])) == Ok(JInt(2))
    ensures GetDictValOf(ExampleDictionary(), Keys(["b", "k"])) == Ok(JNull)
  {
    var d := ExampleDictionary();
    var b := d.fields["b"];
    assert Keys(["b", "c"]).items == [JStr("b"), JStr("c")];
    assert Keys(["b", "k"]).items == [JStr("b"), JStr("k")];
    assert "c" in b.fields && b.fields["c"] == JInt(2);
    assert "k" !in b.fields;
    StepIn(d, [], "b");
    StepIn(d, [JStr("b")], "c");
    assert [JStr("b")] == [] + [JStr("b")];
    MissingKeyGivesNone(d, [JStr("b")], "k", []);
    assert [JStr("b")] + [JStr("k")] + [] == [JStr("b"), JStr("k")];
  }

  /** Looking a path up in a nested dictionary is looking it up, one key
      longer, in the dictionary that holds it. */
  lemma DescendOne(post: Json, key: string, ks: seq<string>)
    requires post.JDict? && key in post.fields && post.fields[key].JDict?
    ensures GetDictValOf(post.fields[key], Keys(ks)) == GetDictValOf(post, Keys([key] + ks))
  {
    assert Keys([key] + ks).items == [JStr(key)] + Keys(ks).items;
    assert [JStr(key)] == [] + [JStr(key)];
    StepIn(post, [], key);
    WalkConcat(post, [JStr(key)], Keys(ks).items);
  }
}
