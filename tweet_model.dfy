/** The `Tweet` wrapper of a Twitter V1 post object
    (`midterm/code/package/midterm/data_model.py`): flags for the nested
    quoted, retweeted and extended objects, fixed at construction, and
    accessors that read paths of keys through `get_dict_val`. */
module TweetModel {
  import opened Wrappers
  import opened PyStrings
  import opened JsonValue
  import opened MidtermUtils

  const QuotedKey := "quoted_status"
  const RetweetedKey := "retweeted_status"
  const ExtendedKey := "extended_tweet"

  /** The attributes every valid post object has at its top level. */
  const ValidityAttributes := ["id_str", "user", "text", "created_at"]

  /** The values `Tweet(...)` wraps without raising.  The constructor asks
      `key in post_object` for the quoted, retweeted and extended keys:
      `None`, booleans and integers are not containers (TypeError); a
      string or a list answers by substring or element, and a key found
      there cannot index it (TypeError again); a dictionary wraps each
      nested object it holds, which must be wrappable in turn. */
  predicate Constructs(j: Json)
    decreases j
  {
    match j
    case JDict(m) =>
      (QuotedKey in m ==> Constructs(m[QuotedKey])) &&
      (RetweetedKey in m ==> Constructs(m[RetweetedKey])) &&
      (ExtendedKey in m ==> Constructs(m[ExtendedKey]))
    case JStr(_) => In(QuotedKey, j) == Ok(false) && In(RetweetedKey, j) == Ok(false) && In(ExtendedKey, j) == Ok(false)
    case JList(_) => In(QuotedKey, j) == Ok(false) && In(RetweetedKey, j) == Ok(false) && In(ExtendedKey, j) == Ok(false)
    case _ => false
  }

  /** Whether a wrappable value holds a nested object under `key`: only a
      dictionary can. */
  predicate Holds(j: Json, key: string) {
    j.JDict? && key in j.fields
  }

  /** One URL object of the entities: its expanded URL when there is one
      that does not point back to Twitter, its short URL otherwise. */
  function UrlOf(item: Json): (r: Result<Json>)
    ensures (item.JDict? && "expanded_url" in item.fields && item.fields["expanded_url"].JStr? &&
             !Contains(item.fields["expanded_url"].s, "twitter.com")) ==>
              r == Ok(item.fields["expanded_url"])
    ensures (item.JDict? && "expanded_url" in item.fields && item.fields["expanded_url"].JStr? &&
             Contains(item.fields["expanded_url"].s, "twitter.com")) ==>
              r == Ok(if "url" in item.fields then item.fields["url"] else JNull)
    ensures item.JDict? && ("expanded_url" !in item.fields || item.fields["expanded_url"] == JNull) ==>
              r == Ok(if "url" in item.fields then item.fields["url"] else JNull)
    ensures !item.JDict? ==> r == Err(TypeError)
  {
    match GetDictValOf(item, Keys(["expanded_url"]))
    case Err(e) => Err(e)
    case Ok(expandedUrl) =>
      if expandedUrl == JNull then GetDictValOf(item, Keys(["url"]))
      else
        match In("twitter.com", expandedUrl)
        case Err(e) => Err(e)
        case Ok(isTwitter) =>
          if !isTwitter then Ok(expandedUrl) else GetDictValOf(item, Keys(["url"]))
  }

  /** `ht["text"]` for one hashtag object. */
  function HashtagText(ht: Json): (r: Result<Json>)
    ensures ht.JDict? && "text" in ht.fields ==> r == Ok(ht.fields["text"])
    ensures ht.JDict? && "text" !in ht.fields ==> r == Err(KeyError)
    ensures !ht.JDict? ==> r == Err(TypeError)
  {
    match ht
    case JDict(m) => if "text" in m then Ok(m["text"]) else Err(KeyError)
    case _ => Err(TypeError)
  }

  /** The URL list built from the value found at the entities' "urls":
      nothing when that value is `None`, one entry per URL object
      otherwise. */
  function UrlsFrom(urlObjects: Json): (r: Result<seq<Json>>)
  {
    if urlObjects == JNull then Ok([])
    else
      match Items(urlObjects)
      case Err(e) => Err(e)
      case Ok(items) => MapItems(UrlOf, items)
  }

  /** The hashtag list built from the value found at the entities'
      "hashtags".  When that value is `None` the result variable is never
      bound, and returning it raises UnboundLocalError, a NameError. */
  function HashtagsFrom(rawHashtags: Json): (r: Result<seq<Json>>)
  {
    if rawHashtags == JNull then Err(NameError)
    else
      match Items(rawHashtags)
      case Err(e) => Err(e)
      case Ok(items) => MapItems(HashtagText, items)
  }

  /** The value `get_dict_val` finds at a path of string keys in a post
      object; such a lookup never raises. */
  function PathValue(post: Json, keys: seq<string>): (v: Json)
    requires post.JDict?
    ensures GetDictValOf(post, Keys(keys)) == Ok(v)
  {
    StringKeysNeverFail(post, keys);
    GetDictValOf(post, Keys(keys)).value
  }

  /** `get_value(keys)` on the extended tweet's object when the post has
      one, on the post itself otherwise; either raises TypeError when the
      object it reads is not a dictionary. */
  function PreferExtended(post: Json, keys: seq<string>): (r: Result<Json>)
    ensures Holds(post, ExtendedKey) ==> r == GetDictValOf(post.fields[ExtendedKey], Keys(keys))
    ensures !Holds(post, ExtendedKey) ==> r == GetDictValOf(post, Keys(keys))
  {
    if Holds(post, ExtendedKey) then GetDictValOf(post.fields[ExtendedKey], Keys(keys))
    else GetDictValOf(post, Keys(keys))
  }

  /** The text of a post: the extended tweet's "full_text" when there is
      one, its own "text" otherwise. */
  function TextOfPost(post: Json): Result<Json> {
    if Holds(post, ExtendedKey) then PreferExtended(post, ["full_text"])
    else PreferExtended(post, ["text"])
  }

  /** The URL list of a post, from the preferred entities. */
  function UrlsOfPost(post: Json): (r: Result<seq<Json>>)
  {
    match PreferExtended(post, ["entities", "urls"])
    case Err(e) => Err(e)
    case Ok(objs) => UrlsFrom(objs)
  }

  /** The hashtag list of a post, from the preferred entities. */
  function HashtagsOfPost(post: Json): (r: Result<seq<Json>>)
  {
    match PreferExtended(post, ["entities", "hashtags"])
    case Err(e) => Err(e)
    case Ok(raw) => HashtagsFrom(raw)
  }

  /** `is_valid`: every validity attribute is `in` the post object (a key
      of a dictionary, a substring of a string, an element of a list). */
  predicate ValidPost(post: Json) {
    forall a :: a in ValidityAttributes ==> In(a, post) == Ok(true)
  }

  class Tweet {
    const postObject: Json
    const isQuote: bool
    const quoteObject: Option<Tweet>
    const isRetweet: bool
    const retweetObject: Option<Tweet>
    const isExtended: bool
    const extendedObject: Option<Tweet>

    /** The post object is wrappable, the flags say which nested objects it
        holds, and each nested object wraps the matching part of it. */
    predicate Linked()
      decreases postObject
    {
      Constructs(postObject) &&
      isQuote == Holds(postObject, QuotedKey) &&
      isRetweet == Holds(postObject, RetweetedKey) &&
      isExtended == Holds(postObject, ExtendedKey) &&
      (quoteObject.Some? <==> isQuote) &&
      (retweetObject.Some? <==> isRetweet) &&
      (extendedObject.Some? <==> isExtended) &&
      (isQuote ==> quoteObject.value.postObject == postObject.fields[QuotedKey] && quoteObject.value.Linked()) &&
      (isRetweet ==> retweetObject.value.postObject == postObject.fields[RetweetedKey] && retweetObject.value.Linked()) &&
      (isExtended ==> extendedObject.value.postObject == postObject.fields[ExtendedKey] && extendedObject.value.Linked())
    }

    /** Binds the post object, the three flags and the nested objects, as
        the body of `__init__` leaves them. */
    constructor (post: Json, quote: Option<Tweet>, retweet: Option<Tweet>, extended: Option<Tweet>)
      ensures postObject == post
      ensures isQuote == quote.Some? && quoteObject == quote
      ensures isRetweet == retweet.Some? && retweetObject == retweet
      ensures isExtended == extended.Some? && extendedObject == extended
    {
      postObject := post;
      isQuote := quote.Some?;
      quoteObject := quote;
      isRetweet := retweet.Some?;
      retweetObject := retweet;
      isExtended := extended.Some?;
      extendedObject := extended;
    }

    /** `Tweet(post_object)`: for each of the quoted, retweeted and
        extended keys in turn, test `key in post_object` and, when it
        holds, wrap `post_object[key]`.  It raises TypeError exactly when
        the value is not wrappable. */
    static method New(post: Json) returns (r: Result<Tweet>)
      ensures r.Err? <==> !Constructs(post)
      ensures r.Err? ==> r.error == TypeError
      ensures r.Ok? ==> fresh(r.value) && r.value.postObject == post && r.value.Linked()
      decreases post
    {
      var quote := None;
      var isQuote := In(QuotedKey, post);
      if isQuote.Err? {
        return Err(isQuote.error);
      }
      if isQuote.value {
        var nested := GetItem(post, QuotedKey);
        if nested.Err? {
          return Err(nested.error);
        }
        var q := New(nested.value);
        if q.Err? {
          return Err(q.error);
        }
        quote := Some(q.value);
      }
      var retweet := None;
      // Once the first test has answered, the value is a container.
      var isRetweet := In(RetweetedKey, post).value;
      if isRetweet {
        var nested := GetItem(post, RetweetedKey);
        if nested.Err? {
          return Err(nested.error);
        }
        var rt := New(nested.value);
        if rt.Err? {
          return Err(rt.error);
        }
        retweet := Some(rt.value);
      }
      var extended := None;
      var isExtended := In(ExtendedKey, post).value;
      if isExtended {
        var nested := GetItem(post, ExtendedKey);
        if nested.Err? {
          return Err(nested.error);
        }
        var ext := New(nested.value);
        if ext.Err? {
          return Err(ext.error);
        }
        extended := Some(ext.value);
      }
      var t := new Tweet(post, quote, retweet, extended);
      return Ok(t);
    }

    /** `get_value`: `get_dict_val` on the wrapped post object, which
        raises TypeError when that object is not a dictionary. */
    function GetValue(keys: seq<string>): (r: Result<Json>)
      ensures postObject.JDict? ==> r == Ok(PathValue(postObject, keys))
      ensures !postObject.JDict? ==> r == Err(TypeError)
    {
      GetDictValOf(postObject, Keys(keys))
    }

    /** `is_valid`: every validity attribute is `in` the post object. */
    method IsValid() returns (valid: bool)
      requires Linked()
      ensures valid <==> ValidPost(postObject)
    {
      var attributesToCheck := ValidityAttributes;
      for i := 0 to |attributesToCheck|
        invariant forall k :: 0 <= k < i ==> In(attributesToCheck[k], postObject) == Ok(true)
      {
        var present := In(attributesToCheck[i], postObject);
        if !present.value {
          return false;
        }
      }
      return true;
    }

    function GetPostID(): Result<Json> {
      GetValue(["id_str"])
    }

    function GetUserID(): Result<Json> {
      GetValue(["user", "id_str"])
    }

    function GetUserScreenname(): Result<Json> {
      GetValue(["user", "screen_name"])
    }

    function GetCreatedAt(): Result<Json> {
      GetValue(["created_at"])
    }

    function GetFollowerCount(): Result<Json> {
      GetValue(["user", "followers_count"])
    }

    /** `get_retweeted_post_ID`: the retweeted post's id, else the quoted
        post's id, else `None`.  Reading it from a nested object that is
        not a dictionary raises TypeError. */
    function GetRetweetedPostID(): (r: Result<Json>)
      requires Linked()
      ensures isRetweet ==> r == GetDictValOf(postObject.fields[RetweetedKey], Keys(["id_str"]))
      ensures isRetweet && postObject.fields[RetweetedKey].JDict? ==>
                r == GetDictValOf(postObject, Keys([RetweetedKey, "id_str"]))
      ensures !isRetweet && isQuote ==> r == GetDictValOf(postObject.fields[QuotedKey], Keys(["id_str"]))
      ensures !isRetweet && isQuote && postObject.fields[QuotedKey].JDict? ==>
                r == GetDictValOf(postObject, Keys([QuotedKey, "id_str"]))
      ensures !isRetweet && !isQuote ==> r == Ok(JNull)
    {
      if isRetweet then
        if postObject.fields[RetweetedKey].JDict? then
          DescendOne(postObject, RetweetedKey, ["id_str"]);
          assert [RetweetedKey] + ["id_str"] == [RetweetedKey, "id_str"];
          retweetObject.value.GetPostID()
        else retweetObject.value.GetPostID()
      else if isQuote then
        if postObject.fields[QuotedKey].JDict? then
          DescendOne(postObject, QuotedKey, ["id_str"]);
          assert [QuotedKey] + ["id_str"] == [QuotedKey, "id_str"];
          quoteObject.value.GetPostID()
        else quoteObject.value.GetPostID()
      else Ok(JNull)
    }

    /** `get_retweeted_user_ID`: the retweeted post's user id, else the
        quoted post's user id, else `None`.  Reading it from a nested
        object that is not a dictionary raises TypeError. */
    function GetRetweetedUserID(): (r: Result<Json>)
      requires Linked()
      ensures isRetweet ==> r == GetDictValOf(postObject.fields[RetweetedKey], Keys(["user", "id_str"]))
      ensures isRetweet && postObject.fields[RetweetedKey].JDict? ==>
                r == GetDictValOf(postObject, Keys([RetweetedKey, "user", "id_str"]))
      ensures !isRetweet && isQuote ==> r == GetDictValOf(postObject.fields[QuotedKey], Keys(["user", "id_str"]))
      ensures !isRetweet && isQuote && postObject.fields[QuotedKey].JDict? ==>
                r == GetDictValOf(postObject, Keys([QuotedKey, "user", "id_str"]))
      ensures !isRetweet && !isQuote ==> r == Ok(JNull)
    {
      if isRetweet then
        if postObject.fields[RetweetedKey].JDict? then
          DescendOne(postObject, RetweetedKey, ["user", "id_str"]);
          assert [RetweetedKey] + ["user", "id_str"] == [RetweetedKey, "user", "id_str"];
          retweetObject.value.GetUserID()
        else retweetObject.value.GetUserID()
      else if isQuote then
        if postObject.fields[QuotedKey].JDict? then
          DescendOne(postObject, QuotedKey, ["user", "id_str"]);
          assert [QuotedKey] + ["user", "id_str"] == [QuotedKey, "user", "id_str"];
          quoteObject.value.GetUserID()
        else quoteObject.value.GetUserID()
      else Ok(JNull)
    }

    /** `get_text`: the extended tweet's full text when there is one, the
        plain text otherwise. */
    function GetText(): (r: Result<Json>)
      requires Linked()
      ensures isExtended ==> r == GetDictValOf(postObject.fields[ExtendedKey], Keys(["full_text"]))
      ensures !isExtended ==> r == GetDictValOf(postObject, Keys(["text"]))
      ensures r == TextOfPost(postObject)
    {
      if isExtended then extendedObject.value.GetValue(["full_text"])
      else GetValue(["text"])
    }

    /** The entities at `keys`, read from the extended tweet when there is
        one. */
    function EntitiesAt(keys: seq<string>): (r: Result<Json>)
      requires Linked()
      ensures isExtended ==> r == GetDictValOf(postObject.fields[ExtendedKey], Keys(keys))
      ensures !isExtended ==> r == GetDictValOf(postObject, Keys(keys))
      ensures r == PreferExtended(postObject, keys)
    {
      if isExtended then extendedObject.value.GetValue(keys)
      else GetValue(keys)
    }

    /** `get_urls`: one entry per URL object of the (preferably extended)
        entities, appended in order. */
    method GetUrls() returns (r: Result<seq<Json>>)
      requires Linked()
      ensures r == UrlsOfPost(postObject)
    {
      var found: Result<Json>;
      if isExtended {
        found := extendedObject.value.GetValue(["entities", "urls"]);
      } else {
        found := GetValue(["entities", "urls"]);
      }
      assert EntitiesAt(["entities", "urls"]) == found;
      if found.Err? {
        return Err(found.error);
      }
      var urlObjects := found.value;
      var urlList: seq<Json> := [];
      if urlObjects != JNull {
        var items;
        match Items(urlObjects) {
          case Err(e) =>
            return Err(e);
          case Ok(xs) =>
            items := xs;
        }
        for i := 0 to |items|
          invariant MapItems(UrlOf, items[..i]) == Ok(urlList)
        {
          var item := items[i];
          assert items[..i + 1][..i] == items[..i];
          var expandedUrl := GetDictVal(item, Keys(["expanded_url"]));
          if expandedUrl.Err? {
            MapItemsErrPersists(UrlOf, items, i + 1);
            assert items[..|items|] == items;
            return Err(expandedUrl.error);
          }
          var url: Json;
          var isTwitter := if expandedUrl.value == JNull then Ok(true) else In("twitter.com", expandedUrl.value);
          if isTwitter.Err? {
            MapItemsErrPersists(UrlOf, items, i + 1);
            assert items[..|items|] == items;
            return Err(isTwitter.error);
          }
          if expandedUrl.value != JNull && !isTwitter.value {
            url := expandedUrl.value;
          } else {
            var shortUrl := GetDictVal(item, Keys(["url"]));
            if shortUrl.Err? {
              MapItemsErrPersists(UrlOf, items, i + 1);
              assert items[..|items|] == items;
              return Err(shortUrl.error);
            }
            url := shortUrl.value;
          }
          assert UrlOf(item) == Ok(url);
          urlList := urlList + [url];
        }
        assert items[..|items|] == items;
      }
      return Ok(urlList);
    }

    /** `get_hashtags`: the "text" of every hashtag object of the
        (preferably extended) entities. */
    function GetHashtags(): (r: Result<seq<Json>>)
      requires Linked()
      ensures r == HashtagsOfPost(postObject)
    {
      match EntitiesAt(["entities", "hashtags"])
      case Err(e) => Err(e)
      case Ok(raw) => HashtagsFrom(raw)
    }

    /** `get_link_to_post`: the post's address on twitter.com, built from
        the screen name and the post id as `str` shows them.  Reading
        either raises TypeError when the post object is not a dictionary.
        The f-string would also print a list or a dictionary found there,
        in Python's own notation; that text is not modelled and gives
        `None`. */
    function GetLinkToPost(): (r: Result<Option<string>>)
      requires Linked()
      ensures !postObject.JDict? ==> r == Err(TypeError)
    {
      match (GetUserScreenname(), GetPostID())
      case (Ok(name), Ok(id)) =>
        (match (Display(name), Display(id))
         case (Some(n), Some(i)) => Ok(Some("https://twitter.com/" + n + "/status/" + i))
         case _ => Ok(None))
      case _ => Err(TypeError)
    }
  }

  /** The URL list has one entry per URL object, each chosen by `UrlOf`;
      no URL objects at all (`None`) gives an empty list, and an entities
      object that cannot be read gives its TypeError. */
  lemma UrlsShape(post: Json)
    ensures PreferExtended(post, ["entities", "urls"]) == Ok(JNull) ==> UrlsOfPost(post) == Ok([])
    ensures PreferExtended(post, ["entities", "urls"]).Err? ==> UrlsOfPost(post) == Err(TypeError)
    ensures var objs := PreferExtended(post, ["entities", "urls"]);
            UrlsOfPost(post).Ok? && objs.Ok? && objs.value.JList? ==>
              |UrlsOfPost(post).value| == |objs.value.items| &&
              forall k :: 0 <= k < |objs.value.items| ==> UrlOf(objs.value.items[k]) == Ok(UrlsOfPost(post).value[k])
  {
    var objs := PreferExtended(post, ["entities", "urls"]);
    if objs.Ok? && objs.value.JList? {
      MapItemsOk(UrlOf, objs.value.items);
    }
  }

  /** The hashtag list holds each hashtag object's "text", in order; it
      raises NameError exactly when the hashtag entities are `None` or
      absent, and TypeError when the object they are read from is not a
      dictionary. */
  lemma HashtagsShape(post: Json)
    ensures HashtagsOfPost(post) == Err(NameError) <==> PreferExtended(post, ["entities", "hashtags"]) == Ok(JNull)
    ensures PreferExtended(post, ["entities", "hashtags"]).Err? ==> HashtagsOfPost(post) == Err(TypeError)
    ensures var raw := PreferExtended(post, ["entities", "hashtags"]);
            HashtagsOfPost(post).Ok? && raw.Ok? && raw.value.JList? ==>
              |HashtagsOfPost(post).value| == |raw.value.items| &&
              forall k :: 0 <= k < |raw.value.items| ==>
                raw.value.items[k].JDict? && "text" in raw.value.items[k].fields &&
                HashtagsOfPost(post).value[k] == raw.value.items[k].fields["text"]
  {
    var raw := PreferExtended(post, ["entities", "hashtags"]);
    if raw.Ok? && raw.value != JNull && Items(raw.value).Ok? {
      MapItemsOk(HashtagText, Items(raw.value).value);
      HashtagErrors(Items(raw.value).value);
    }
  }

  /** Reading hashtag texts fails only with TypeError or KeyError. */
  lemma {:induction false} HashtagErrors(items: seq<Json>)
    ensures MapItems(HashtagText, items).Err? ==>
              MapItems(HashtagText, items).error in {TypeError, KeyError}
    decreases |items|
  {
    if |items| > 0 {
      HashtagErrors(items[..|items| - 1]);
    }
  }

  /** With a string screen name and a string id, the link is
      https://twitter.com/<screen name>/status/<id>. */
  lemma LinkToPost(t: Tweet, name: string, id: string)
    requires t.Linked()
    requires t.GetUserScreenname() == Ok(JStr(name)) && t.GetPostID() == Ok(JStr(id))
    ensures t.GetLinkToPost() == Ok(Some("https://twitter.com/" + name + "/status/" + id))
  {
  }

  /** The values `Tweet(...)` accepts are exactly the dictionaries whose
      nested objects it accepts, and the strings and lists in which none
      of the three keys occurs; nothing else. */
  lemma ConstructsCases(j: Json)
    ensures j.JNull? || j.JBool? || j.JInt? ==> !Constructs(j)
    ensures j.JStr? ==> (Constructs(j) <==>
              !Contains(j.s, QuotedKey) && !Contains(j.s, RetweetedKey) && !Contains(j.s, ExtendedKey))
    ensures j.JList? ==> (Constructs(j) <==>
              JStr(QuotedKey) !in j.items && JStr(RetweetedKey) !in j.items && JStr(ExtendedKey) !in j.items)
    ensures Constructs(j) && Holds(j, QuotedKey) ==> Constructs(j.fields[QuotedKey])
  {
  }
}
