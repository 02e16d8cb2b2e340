/** Decoded JSON values, as the Python code sees them after `json.loads`:
    dictionaries with string keys, lists, strings, integers, booleans and
    `None`.  The few Python operations the modelled code applies to such
    values (`in`, iteration, `str`) are defined here once. */
module JsonValue {
  import opened Wrappers
  import opened PyStrings

  datatype Json =
    | JNull
    | JBool(b: bool)
    | JInt(i: int)
    | JStr(s: string)
    | JList(items: seq<Json>)
    | JDict(fields: map<string, Json>)

  /** Python's `x in container` for a string `x`: a substring test on a
      string, an element test on a list, a key test on a dictionary; any
      other value is not a container and raises TypeError. */
  function In(x: string, container: Json): (r: Result<bool>)
    ensures r.Err? <==> !(container.JStr? || container.JList? || container.JDict?)
    ensures r.Err? ==> r.error == TypeError
    ensures container.JDict? ==> r == Ok(x in container.fields)
  {
    match container
    case JStr(s) => Ok(Contains(s, x))
    case JList(items) => Ok(JStr(x) in items)
    case JDict(m) => Ok(x in m)
    case _ => Err(TypeError)
  }

  /** A list or a dictionary cannot be a set member or a dictionary key. */
  predicate Hashable(j: Json) {
    !(j.JList? || j.JDict?)
  }

  /** Python's `j[key]` for a string key: a dictionary lookup, KeyError
      when the key is absent; strings and lists need integer indices and
      other values are not subscriptable, both TypeError. */
  function GetItem(j: Json, key: string): (r: Result<Json>)
    ensures r.Ok? <==> j.JDict? && key in j.fields
    ensures r.Ok? ==> r.value == j.fields[key]
    ensures r.Err? ==> (r.error == KeyError <==> j.JDict?) && (r.error == KeyError || r.error == TypeError)
  {
    if !j.JDict? then Err(TypeError)
    else if key in j.fields then Ok(j.fields[key])
    else Err(KeyError)
  }

  /** `d.get(key)` on a dictionary: the value, or `None` when the key is
      absent.  A table cell that is NaN is modelled the same way. */
  function DictGet(d: map<string, Json>, key: string): (v: Json)
    ensures key in d ==> v == d[key]
    ensures key !in d ==> v == JNull
  {
    if key in d then d[key] else JNull
  }

  /** The items `for item in j` goes through.  A list yields its elements
      and a string its one-character strings.  An empty dictionary yields
      nothing.  Every modelled loop over such items reads each item as a
      dictionary, so the first key of a non-empty dictionary (a string)
      would make it raise TypeError; that failure is reported here.
      `None`, booleans and integers are not iterable. */
  function Items(j: Json): (r: Result<seq<Json>>)
    ensures j.JList? ==> r == Ok(j.items)
    ensures j.JStr? ==> r.Ok? && |r.value| == |j.s|
    ensures r.Err? ==> r.error == TypeError
    ensures r.Err? <==> !(j.JList? || j.JStr? || j == JDict(map[]))
  {
    match j
    case JList(items) => Ok(items)
    case JStr(s) => Ok(seq(|s|, k requires 0 <= k < |s| => JStr([s[k]])))
    case JDict(m) => if m == map[] then Ok([]) else Err(TypeError)
    case _ => Err(TypeError)
  }

  /** Python's `str(n)` for any integer. */
  function IntToString(n: int): (s: string)
    ensures |s| >= 1
    ensures n >= 0 ==> s == NatToString(n)
    ensures n < 0 ==> s == "-" + NatToString(-n)
  {
    if n >= 0 then NatToString(n) else "-" + NatToString(-n)
  }

  /** Python's `str(v)` for a scalar value; lists and dictionaries have no
      text here. */
  function Display(v: Json): (r: Option<string>)
    ensures r.None? <==> v.JList? || v.JDict?
    ensures v.JStr? ==> r == Some(v.s)
    ensures v.JNull? ==> r == Some("None")
  {
    match v
    case JNull => Some("None")
    case JBool(b) => Some(if b then "True" else "False")
    case JInt(n) => Some(IntToString(n))
    case JStr(s) => Some(s)
    case _ => None
  }

  /** A list of string keys, as a JSON list. */
  function Keys(ks: seq<string>): (r: Json)
    ensures r.JList? && |r.items| == |ks|
    ensures forall k :: 0 <= k < |ks| ==> r.items[k] == JStr(ks[k])
  {
    JList(seq(|ks|, k requires 0 <= k < |ks| => JStr(ks[k])))
  }

  /** A list comprehension `[f(x) for x in items]` whose step may raise:
      the first item whose step raises decides the error. */
  function MapItems(f: Json -> Result<Json>, items: seq<Json>): (r: Result<seq<Json>>)
    ensures r.Ok? ==> |r.value| == |items|
    decreases |items|
  {
    if |items| == 0 then Ok([])
    else
      var last := |items| - 1;
      match MapItems(f, items[..last])
      case Err(e) => Err(e)
      case Ok(done) =>
        match f(items[last])
        case Err(e) => Err(e)
        case Ok(x) => Ok(done + [x])
  }

  /** A successful comprehension has one result per item, each the step's
      result on that item; it succeeds exactly when every step does. */
  lemma {:induction false} MapItemsOk(f: Json -> Result<Json>, items: seq<Json>)
    ensures MapItems(f, items).Ok? <==> forall k :: 0 <= k < |items| ==> f(items[k]).Ok?
    ensures MapItems(f, items).Ok? ==>
              |MapItems(f, items).value| == |items| &&
              forall k :: 0 <= k < |items| ==> f(items[k]) == Ok(MapItems(f, items).value[k])
    decreases |items|
  {
    if |items| > 0 {
      var last := |items| - 1;
      var prefix := items[..last];
      MapItemsOk(f, prefix);
      assert forall k :: 0 <= k < last ==> prefix[k] == items[k];
    }
  }

  /** Once a prefix has failed, the whole comprehension fails with the
      same error. */
  lemma {:induction false} MapItemsErrPersists(f: Json -> Result<Json>, items: seq<Json>, n: nat)
    requires n <= |items| && MapItems(f, items[..n]).Err?
    ensures MapItems(f, items) == MapItems(f, items[..n])
    decreases |items| - n
  {
    if n < |items| {
      assert items[..n + 1][..n] == items[..n];
      MapItemsErrPersists(f, items, n + 1);
    } else {
      assert items[..n] == items;
    }
  }
}
