/** Entity records from a stream of Twitter V1 posts
    (`midterm/code/003_extract_tweet_data.py`): for every valid post one
    text record, one record per hashtag and one per URL, all sharing the
    post's base information; a post that quotes another adds the same
    records for the quoted post.  A line whose processing raises is
    counted as skipped, keeping whatever it had already emitted; but when
    no line has been wrapped yet, the handler's own reference to the
    variable `tweet` raises UnboundLocalError (a NameError) and ends the
    call.  A line is `None` when it does not decode as UTF-8 JSON. */
module ExtractTweetData {
  import opened Wrappers
  import opened JsonValue
  import opened MidtermUtils
  import opened TweetModel

  /** The information every record of one post carries. */
  datatype BaseInfo = BaseInfo(
    postId: Json,
    userId: Json,
    timestamp: int,
    tweetType: string,
    retweetedUserId: Json,
    retweetedPostId: Json,
    quotedUserId: Json,
    quotedPostId: Json,
    fromQuotedStatus: bool)

  /** One record: the base information and the text, hashtag or raw URL. */
  datatype Entry = Entry(info: BaseInfo, value: Json)

  /** What one post adds to the three record lists, and whether its
      processing raised. */
  datatype Emitted = Emitted(texts: seq<Entry>, hashtags: seq<Entry>, urls: seq<Entry>, failed: bool)

  /** What `extract_entities` returns, with its count of skipped posts. */
  datatype Extracted = Extracted(texts: seq<Entry>, hashtags: seq<Entry>, urls: seq<Entry>, numSkipped: nat)

  /** One record per value, each with the same base information. */
  function Tagged(info: BaseInfo, values: seq<Json>): (r: seq<Entry>)
    ensures |r| == |values|
    ensures forall k :: 0 <= k < |values| ==> r[k] == Entry(info, values[k])
  {
    seq(|values|, k requires 0 <= k < |values| => Entry(info, values[k]))
  }

  /** A nested post whose "id_str" a path lookup finds is a dictionary
      held under its key. */
  lemma NestedIdNeedsDict(post: Json, key: string)
    requires post.JDict?
    ensures PathValue(post, [key, "id_str"]) != JNull ==> key in post.fields && post.fields[key].JDict?
  {
    assert Keys([key, "id_str"]).items == [JStr(key)] + [JStr("id_str")];
    assert [] + [JStr(key)] == [JStr(key)];
    assert [] + [JStr(key)] + [JStr("id_str")] == [JStr(key)] + [JStr("id_str")];
    if key !in post.fields {
      MissingKeyGivesNone(post, [], key, [JStr("id_str")]);
    } else if !post.fields[key].JDict? {
      StepIn(post, [], key);
      NonDictGivesNone(post, [JStr(key)], [JStr("id_str")]);
    }
  }

  /** The base information of a valid post with timestamp `ts`, and the
      quoted post id that decides whether quoted records follow.  A
      retweet of a quote is typed "retweet" and keeps its quoted ids out
      of the base information; its retweeted ids are read through the
      retweeted object, which raises TypeError when that is not a
      dictionary. */
  function BaseInfoOf(post: Json, ts: int): (r: Result<(BaseInfo, Json)>)
    requires post.JDict?
    ensures r.Err? <==> Holds(post, RetweetedKey) && Holds(post, QuotedKey) && !post.fields[RetweetedKey].JDict?
    ensures r.Err? ==> r.error == TypeError
    ensures r.Ok? && r.value.1 != JNull ==> Holds(post, QuotedKey) && post.fields[QuotedKey].JDict?
  {
    var isRetweet := Holds(post, RetweetedKey);
    var isQuote := Holds(post, QuotedKey);
    var base := BaseInfo(PathValue(post, ["id_str"]), PathValue(post, ["user", "id_str"]), ts,
                         "original", JNull, JNull, JNull, JNull, false);
    if isRetweet && isQuote then
      if !post.fields[RetweetedKey].JDict? then Err(TypeError)
      else
        var q := PathValue(post, [QuotedKey, "id_str"]);
        NestedIdNeedsDict(post, QuotedKey);
        Ok((base.(tweetType := "retweet",
                  retweetedUserId := PathValue(post, [RetweetedKey, "user", "id_str"]),
                  retweetedPostId := PathValue(post, [RetweetedKey, "id_str"])),
            q))
    else if isRetweet then
      Ok((base.(tweetType := "retweet",
                retweetedUserId := PathValue(post, [RetweetedKey, "user", "id_str"]),
                retweetedPostId := PathValue(post, [RetweetedKey, "id_str"])),
          JNull))
    else if isQuote then
      var q := PathValue(post, [QuotedKey, "id_str"]);
      NestedIdNeedsDict(post, QuotedKey);
      Ok((base.(tweetType := "quote",
                quotedUserId := PathValue(post, [QuotedKey, "user", "id_str"]),
                quotedPostId := q),
          q))
    else Ok((base, JNull))
  }

  /** The text record, then the hashtag records, then the URL records of
      one post, stopping where reading the text, the hashtags or the URLs
      raises. */
  function EntitiesOf(post: Json, info: BaseInfo): (e: Emitted)
  {
    match TextOfPost(post)
    case Err(_) => Emitted([], [], [], true)
    case Ok(text) =>
      var texts := [Entry(info, text)];
      match HashtagsOfPost(post)
      case Err(_) => Emitted(texts, [], [], true)
      case Ok(tags) =>
        match UrlsOfPost(post)
        case Err(_) => Emitted(texts, Tagged(info, tags), [], true)
        case Ok(urls) => Emitted(texts, Tagged(info, tags), Tagged(info, urls), false)
  }

  /** The base information of the records read from the quoted post:
      typed "quote", marked as coming from the quoted status, with the
      quoting post's ids and timestamp. */
  function QuoteInfoOf(post: Json, quoted: Json, ts: int): (q: BaseInfo)
    requires post.JDict? && quoted.JDict?
  {
    BaseInfo(PathValue(post, ["id_str"]), PathValue(post, ["user", "id_str"]), ts, "quote",
             JNull, JNull, PathValue(quoted, ["user", "id_str"]), PathValue(quoted, ["id_str"]), true)
  }

  /** What one decoded line adds.  A value `Tweet(...)` rejects, or a
      valid one that is not a dictionary (its post id cannot be read),
      raises; an invalid one is skipped silently.  `timestampOf` stands
      for reading the "created_at" text as a time, which raises on a
      malformed date. */
  function TweetOutcome(post: Json, timestampOf: Json -> Result<int>): (o: Emitted)
  {
    if !Constructs(post) then Emitted([], [], [], true)
    else if !ValidPost(post) then Emitted([], [], [], false)
    else if !post.JDict? then Emitted([], [], [], true)
    else
      match timestampOf(PathValue(post, ["created_at"]))
      case Err(_) => Emitted([], [], [], true)
      case Ok(ts) =>
        match BaseInfoOf(post, ts)
        case Err(_) => Emitted([], [], [], true)
        case Ok(classified) =>
          var (info, quotedPostId) := classified;
          var base := EntitiesOf(post, info);
          if base.failed || quotedPostId == JNull then base
          else
            var quoted := post.fields[QuotedKey];
            var more := EntitiesOf(quoted, QuoteInfoOf(post, quoted, ts));
            Emitted(base.texts + more.texts, base.hashtags + more.hashtags, base.urls + more.urls, more.failed)
  }

  /** A line that decodes to a value `Tweet(...)` accepts. */
  predicate Wraps(line: Option<Json>) {
    line.Some? && Constructs(line.value)
  }

  /** What one line adds; a line that does not decode raises before any
      tweet is built. */
  function LineOutcome(line: Option<Json>, timestampOf: Json -> Result<int>): (o: Emitted)
    ensures !Wraps(line) ==> o == Emitted([], [], [], true)
  {
    if line.None? then Emitted([], [], [], true) else TweetOutcome(line.value, timestampOf)
  }

  /** The records of a whole stream, line after line.  The variable
      `tweet` is bound by the first line that wraps, so a line that raises
      before wrapping finds it unbound only when it is the first line:
      then the handler raises NameError and the call ends. */
  function ExtractedOf(lines: seq<Option<Json>>, timestampOf: Json -> Result<int>): (r: Result<Extracted>)
    ensures r.Err? <==> |lines| > 0 && !Wraps(lines[0])
    ensures r.Err? ==> r.error == NameError
    ensures r.Ok? ==> r.value.numSkipped <= |lines|
    decreases |lines|
  {
    if |lines| == 0 then Ok(Extracted([], [], [], 0))
    else
      var last := |lines| - 1;
      match ExtractedOf(lines[..last], timestampOf)
      case Err(e) => Err(e)
      case Ok(before) =>
        if last == 0 && !Wraps(lines[last]) then Err(NameError)
        else
          var o := LineOutcome(lines[last], timestampOf);
          Ok(Extracted(before.texts + o.texts, before.hashtags + o.hashtags, before.urls + o.urls,
                       before.numSkipped + if o.failed then 1 else 0))
  }

  /** `data.append(...)` of one record per value. */
  method AppendTagged(data: seq<Entry>, info: BaseInfo, values: seq<Json>) returns (out: seq<Entry>)
    ensures out == data + Tagged(info, values)
  {
    out := data;
    for i := 0 to |values|
      invariant out == data + Tagged(info, values[..i])
    {
      assert Tagged(info, values[..i + 1]) == Tagged(info, values[..i]) + [Entry(info, values[i])];
      out := out + [Entry(info, values[i])];
    }
    assert values[..|values|] == values;
  }

  /** The records of one tweet object, as the body of the loop emits them
      into `out`, stopping at the first step that raises. */
  method EmitEntities(tweet: Tweet, info: BaseInfo, out: Emitted) returns (r: Emitted)
    requires tweet.Linked() && !out.failed
    ensures var e := EntitiesOf(tweet.postObject, info);
            r == Emitted(out.texts + e.texts, out.hashtags + e.hashtags, out.urls + e.urls, e.failed)
  {
    var text := tweet.GetText();
    if text.Err? {
      assert out.texts + [] == out.texts && out.hashtags + [] == out.hashtags && out.urls + [] == out.urls;
      return Emitted(out.texts, out.hashtags, out.urls, true);
    }
    var texts := out.texts + [Entry(info, text.value)];
    var tags := tweet.GetHashtags();
    if tags.Err? {
      assert out.hashtags + [] == out.hashtags && out.urls + [] == out.urls;
      return Emitted(texts, out.hashtags, out.urls, true);
    }
    var hashtags := out.hashtags;
    if |tags.value| > 0 {
      hashtags := AppendTagged(hashtags, info, tags.value);
    } else {
      assert Tagged(info, tags.value) == [];
    }
    var urls := tweet.GetUrls();
    if urls.Err? {
      assert out.urls + [] == out.urls;
      return Emitted(texts, hashtags, out.urls, true);
    }
    var urlData := out.urls;
    if |urls.value| > 0 {
      urlData := AppendTagged(urlData, info, urls.value);
    } else {
      assert Tagged(info, urls.value) == [];
    }
    return Emitted(texts, hashtags, urlData, false);
  }

  /** The base information of a valid tweet: typed by which of the
      retweeted and quoted objects it holds, with the ids of each. */
  method ClassifyTweet(tweet: Tweet, baseTweetId: Json, baseUserId: Json, baseTimestamp: int)
    returns (r: Result<(BaseInfo, Json)>)
    requires tweet.Linked() && tweet.postObject.JDict?
    requires baseTweetId == PathValue(tweet.postObject, ["id_str"])
    requires baseUserId == PathValue(tweet.postObject, ["user", "id_str"])
    ensures r == BaseInfoOf(tweet.postObject, baseTimestamp)
  {
    var baseInfo := BaseInfo(baseTweetId, baseUserId, baseTimestamp, "original", JNull, JNull, JNull, JNull, false);
    var quotedPostId := JNull;
    if tweet.isRetweet && tweet.isQuote {
      baseInfo := baseInfo.(tweetType := "retweet");
      var retweetedUserId := tweet.GetRetweetedUserID();
      if retweetedUserId.Err? {
        return Err(retweetedUserId.error);
      }
      baseInfo := baseInfo.(retweetedUserId := retweetedUserId.value);
      baseInfo := baseInfo.(retweetedPostId := tweet.GetRetweetedPostID().value);
      quotedPostId := tweet.GetValue([QuotedKey, "id_str"]).value;
    } else if tweet.isRetweet && !tweet.isQuote {
      baseInfo := baseInfo.(tweetType := "retweet");
      baseInfo := baseInfo.(retweetedUserId := tweet.GetValue([RetweetedKey, "user", "id_str"]).value);
      baseInfo := baseInfo.(retweetedPostId := tweet.GetValue([RetweetedKey, "id_str"]).value);
    } else if !tweet.isRetweet && tweet.isQuote {
      baseInfo := baseInfo.(tweetType := "quote");
      baseInfo := baseInfo.(quotedUserId := tweet.GetValue([QuotedKey, "user", "id_str"]).value);
      quotedPostId := tweet.GetValue([QuotedKey, "id_str"]).value;
      baseInfo := baseInfo.(quotedPostId := quotedPostId);
    }
    return Ok((baseInfo, quotedPostId));
  }

  /** The body of the loop for one line: decode and wrap the post, skip it
      if it is not valid, build the base information, emit the post's
      records and then the quoted post's.  `constructed` tells whether
      the line bound the variable `tweet`. */
  method ExtractTweet(line: Option<Json>, timestampOf: Json -> Result<int>) returns (o: Emitted, constructed: bool)
    ensures o == LineOutcome(line, timestampOf)
    ensures constructed <==> Wraps(line)
  {
    if line.None? {
      return Emitted([], [], [], true), false;
    }
    var post := line.value;
    var wrapped := Tweet.New(post);
    if wrapped.Err? {
      return Emitted([], [], [], true), false;
    }
    var tweet := wrapped.value;
    constructed := true;
    var valid := tweet.IsValid();
    if !valid {
      return Emitted([], [], [], false), true;
    }
    var postId := tweet.GetPostID();
    if postId.Err? {
      return Emitted([], [], [], true), true;
    }
    var baseTweetId := postId.value;
    var baseUserId := tweet.GetUserID().value;
    var tsResult := timestampOf(tweet.GetValue(["created_at"]).value);
    if tsResult.Err? {
      return Emitted([], [], [], true), true;
    }
    var baseTimestamp := tsResult.value;
    var classified := ClassifyTweet(tweet, baseTweetId, baseUserId, baseTimestamp);
    if classified.Err? {
      return Emitted([], [], [], true), true;
    }
    var baseInfo := classified.value.0;
    var quotedPostId := classified.value.1;
    o := EmitEntities(tweet, baseInfo, Emitted([], [], [], false));
    ghost var base := EntitiesOf(post, baseInfo);
    assert [] + base.texts == base.texts && [] + base.hashtags == base.hashtags && [] + base.urls == base.urls;
    if o.failed {
      return;
    }
    if quotedPostId != JNull {
      var quoted := tweet.GetValue([QuotedKey]).value;
      o := EmitQuote(post, quoted, baseTweetId, baseUserId, baseTimestamp, o);
    }
  }

  /** Adds the texts, hashtags and urls of the post a quote tweet quotes,
      attributed to the quoting post. */
  method EmitQuote(post: Json, quoted: Json, baseTweetId: Json, baseUserId: Json, ts: int, out: Emitted)
    returns (r: Emitted)
    requires Constructs(post) && Holds(post, QuotedKey) && post.fields[QuotedKey].JDict? && !out.failed
    requires quoted == PathValue(post, [QuotedKey])
    requires baseTweetId == PathValue(post, ["id_str"])
    requires baseUserId == PathValue(post, ["user", "id_str"])
    ensures var e := EntitiesOf(post.fields[QuotedKey], QuoteInfoOf(post, post.fields[QuotedKey], ts));
            r == Emitted(out.texts + e.texts, out.hashtags + e.hashtags, out.urls + e.urls, e.failed)
  {
    QuotedObject(post);
    var wrapped := Tweet.New(quoted);
    var quotedTweet := wrapped.value;
    var quoteInfo := BaseInfo(baseTweetId, baseUserId, ts, "quote", JNull, JNull,
                              quotedTweet.GetUserID().value, quotedTweet.GetPostID().value, true);
    assert quoteInfo == QuoteInfoOf(post, quoted, ts);
    r := EmitEntities(quotedTweet, quoteInfo, out);
  }

  /** The quoted object a post's path lookup returns is its "quoted_status"
      entry, which can be wrapped in turn. */
  lemma QuotedObject(post: Json)
    requires Constructs(post) && Holds(post, QuotedKey)
    ensures PathValue(post, [QuotedKey]) == post.fields[QuotedKey]
    ensures Constructs(post.fields[QuotedKey])
  {
    assert [JStr(QuotedKey)] == [] + [JStr(QuotedKey)];
    assert Keys([QuotedKey]).items == [JStr(QuotedKey)];
    StepIn(post, [], QuotedKey);
  }

  /** `extract_entities` over the lines of one file: every line is
      processed in turn, and a line whose processing raises is counted as
      skipped, unless no line has bound `tweet` yet. */
  method ExtractEntities(lines: seq<Option<Json>>, timestampOf: Json -> Result<int>) returns (r: Result<Extracted>)
    ensures r == ExtractedOf(lines, timestampOf)
  {
    var textData: seq<Entry> := [];
    var hashtagData: seq<Entry> := [];
    var urlData: seq<Entry> := [];
    var numSkippedPosts: nat := 0;
    var tweetBound := false;
    for i := 0 to |lines|
      invariant tweetBound <==> i > 0
      invariant ExtractedOf(lines[..i], timestampOf) == Ok(Extracted(textData, hashtagData, urlData, numSkippedPosts))
    {
      assert lines[..i + 1][..i] == lines[..i];
      var o, constructed := ExtractTweet(lines[i], timestampOf);
      if constructed {
        tweetBound := true;
      }
      if o.failed && !tweetBound {
        // The handler reads `tweet.post_object` before any line bound it.
        return Err(NameError);
      }
      textData := textData + o.texts;
      hashtagData := hashtagData + o.hashtags;
      urlData := urlData + o.urls;
      if o.failed {
        numSkippedPosts := numSkippedPosts + 1;
      }
    }
    assert lines[..|lines|] == lines;
    return Ok(Extracted(textData, hashtagData, urlData, numSkippedPosts));
  }

  // ---------------------------------------------------------------------
  // What the records say
  // ---------------------------------------------------------------------

  /** The post wraps, is a valid dictionary, its creation time reads as
      `ts`, and its base information and its text read. */
  predicate Readable(post: Json, timestampOf: Json -> Result<int>, ts: int) {
    Constructs(post) && ValidPost(post) && post.JDict? &&
    timestampOf(PathValue(post, ["created_at"])) == Ok(ts) &&
    BaseInfoOf(post, ts).Ok? && TextOfPost(post).Ok?
  }

  /** A readable post's records: its own entities, then the quoted
      status's when its own were all read and it has a quoted id. */
  lemma TweetOutcomeReadable(post: Json, timestampOf: Json -> Result<int>, ts: int)
    requires Readable(post, timestampOf, ts)
    ensures var (info, q) := BaseInfoOf(post, ts).value;
            var base := EntitiesOf(post, info);
            var o := TweetOutcome(post, timestampOf);
            if base.failed || q == JNull then o == base
            else
              var quoted := post.fields[QuotedKey];
              var more := EntitiesOf(quoted, QuoteInfoOf(post, quoted, ts));
              o == Emitted(base.texts + more.texts, base.hashtags + more.hashtags, base.urls + more.urls, more.failed)
  {
  }

  /** A line that does not wrap, a valid post that is not a dictionary, or
      one whose creation time, base information or text does not read,
      adds no record and is counted as skipped; an invalid post adds none
      and is not counted. */
  lemma UnreadablePostsEmitNothing(post: Json, timestampOf: Json -> Result<int>)
    ensures !Constructs(post) ==> TweetOutcome(post, timestampOf) == Emitted([], [], [], true)
    ensures Constructs(post) && !ValidPost(post) ==> TweetOutcome(post, timestampOf) == Emitted([], [], [], false)
    ensures Constructs(post) && ValidPost(post) && !post.JDict? ==>
              TweetOutcome(post, timestampOf) == Emitted([], [], [], true)
    ensures Constructs(post) && ValidPost(post) && post.JDict? &&
            timestampOf(PathValue(post, ["created_at"])).Err? ==>
              TweetOutcome(post, timestampOf) == Emitted([], [], [], true)
    ensures (Constructs(post) && ValidPost(post) && post.JDict? &&
             timestampOf(PathValue(post, ["created_at"])).Ok?) ==>
            var ts := timestampOf(PathValue(post, ["created_at"])).value;
            (BaseInfoOf(post, ts).Err? || TextOfPost(post).Err?) ==>
              TweetOutcome(post, timestampOf) == Emitted([], [], [], true)
  {
  }

  /** A readable post's first text record is its own text with its own
      ids and timestamp, not marked as quoted; every later text record
      comes from the quoted status. */
  lemma BaseTextRecord(post: Json, timestampOf: Json -> Result<int>, ts: int)
    requires Readable(post, timestampOf, ts)
    ensures var o := TweetOutcome(post, timestampOf);
            var info := BaseInfoOf(post, ts).value.0;
            |o.texts| >= 1 && o.texts[0] == Entry(info, TextOfPost(post).value) &&
            !info.fromQuotedStatus && info.postId == PathValue(post, ["id_str"]) &&
            info.userId == PathValue(post, ["user", "id_str"]) && info.timestamp == ts
    ensures var o := TweetOutcome(post, timestampOf);
            forall k :: 1 <= k < |o.texts| ==> o.texts[k].info.fromQuotedStatus
  {
    OutcomeTexts(post, timestampOf, ts);
    BaseInfoIds(post, ts);
  }

  /** The text records of a readable post: its own text, then the quoted
      status's text when the quoted records are read and that text reads. */
  lemma OutcomeTexts(post: Json, timestampOf: Json -> Result<int>, ts: int)
    requires Readable(post, timestampOf, ts)
    ensures var (info, quotedPostId) := BaseInfoOf(post, ts).value;
            var first := Entry(info, TextOfPost(post).value);
            TweetOutcome(post, timestampOf).texts ==
              if EntitiesOf(post, info).failed || quotedPostId == JNull then [first]
              else
                var quoted := post.fields[QuotedKey];
                if TextOfPost(quoted).Ok? then [first, Entry(QuoteInfoOf(post, quoted, ts), TextOfPost(quoted).value)]
                else [first]
  {
    TweetOutcomeReadable(post, timestampOf, ts);
    var (info, quotedPostId) := BaseInfoOf(post, ts).value;
    EntitiesTexts(post, info);
    if !EntitiesOf(post, info).failed && quotedPostId != JNull {
      var quoted := post.fields[QuotedKey];
      EntitiesTexts(quoted, QuoteInfoOf(post, quoted, ts));
    }
  }

  /** Whatever the nested statuses, the base information carries the
      post's own ids and timestamp and is not marked as quoted. */
  lemma BaseInfoIds(post: Json, ts: int)
    requires post.JDict? && BaseInfoOf(post, ts).Ok?
    ensures var info := BaseInfoOf(post, ts).value.0;
            !info.fromQuotedStatus && info.postId == PathValue(post, ["id_str"]) &&
            info.userId == PathValue(post, ["user", "id_str"]) && info.timestamp == ts
  {
  }

  /** A post's entities hold one text record, its own text, when that
      text reads, and none otherwise. */
  lemma EntitiesTexts(post: Json, info: BaseInfo)
    ensures EntitiesOf(post, info).texts == if TextOfPost(post).Ok? then [Entry(info, TextOfPost(post).value)] else []
    ensures TextOfPost(post).Err? ==> EntitiesOf(post, info).failed
  {
  }

  /** The type and the ids of the base information, by which nested
      statuses the post holds.  A retweet of a quote is a "retweet" whose
      base information has no quoted ids, yet its quoted id is kept for
      the quoted records. */
  lemma TweetTypes(post: Json, ts: int)
    requires post.JDict? && BaseInfoOf(post, ts).Ok?
    ensures var (info, q) := BaseInfoOf(post, ts).value;
            var isRetweet := RetweetedKey in post.fields;
            var isQuote := QuotedKey in post.fields;
            (isRetweet ==>
               info.tweetType == "retweet" &&
               info.retweetedPostId == PathValue(post, [RetweetedKey, "id_str"]) &&
               info.retweetedUserId == PathValue(post, [RetweetedKey, "user", "id_str"]) &&
               info.quotedPostId == JNull && info.quotedUserId == JNull) &&
            (isRetweet && isQuote ==> q == PathValue(post, [QuotedKey, "id_str"])) &&
            (isRetweet && !isQuote ==> q == JNull) &&
            (!isRetweet && isQuote ==>
               info.tweetType == "quote" &&
               info.quotedPostId == q && q == PathValue(post, [QuotedKey, "id_str"]) &&
               info.quotedUserId == PathValue(post, [QuotedKey, "user", "id_str"]) &&
               info.retweetedPostId == JNull && info.retweetedUserId == JNull) &&
            (!isRetweet && !isQuote ==> info.tweetType == "original" && q == JNull)
  {
  }

  /** A quoting post (quote, or retweet of a quote) whose own records were
      all read and whose quoted status has an id and a readable text also
      emits a text record for the quoted status: typed "quote", marked as
      quoted, carrying the quoting post's ids and timestamp and the quoted
      post's ids. */
  lemma QuotedRecords(post: Json, timestampOf: Json -> Result<int>, ts: int)
    requires Readable(post, timestampOf, ts)
    requires QuotedKey in post.fields && PathValue(post, [QuotedKey, "id_str"]) != JNull
    requires !EntitiesOf(post, BaseInfoOf(post, ts).value.0).failed
    requires TextOfPost(post.fields[QuotedKey]).Ok?
    ensures var o := TweetOutcome(post, timestampOf);
            var quoted := post.fields[QuotedKey];
            quoted.JDict? &&
            |o.texts| == 2 && o.texts[1].value == TextOfPost(quoted).value &&
            o.texts[1].info.fromQuotedStatus && o.texts[1].info.tweetType == "quote" &&
            o.texts[1].info.postId == PathValue(post, ["id_str"]) &&
            o.texts[1].info.userId == PathValue(post, ["user", "id_str"]) &&
            o.texts[1].info.timestamp == ts &&
            o.texts[1].info.quotedPostId == PathValue(quoted, ["id_str"]) &&
            o.texts[1].info.quotedUserId == PathValue(quoted, ["user", "id_str"])
  {
    NestedIdNeedsDict(post, QuotedKey);
    OutcomeTexts(post, timestampOf, ts);
    TweetTypes(post, ts);
  }

  /** A retweet that quotes nothing emits only records of its own, typed
      "retweet". */
  lemma RetweetOnlyRecords(post: Json, timestampOf: Json -> Result<int>, ts: int)
    requires Readable(post, timestampOf, ts)
    requires RetweetedKey in post.fields && QuotedKey !in post.fields
    ensures var o := TweetOutcome(post, timestampOf);
            forall e :: e in o.texts + o.hashtags + o.urls ==>
              !e.info.fromQuotedStatus && e.info.tweetType == "retweet"
  {
    TweetOutcomeReadable(post, timestampOf, ts);
    TweetTypes(post, ts);
    BaseInfoIds(post, ts);
    EntitiesInfo(post, BaseInfoOf(post, ts).value.0);
  }

  /** Every record of a post's entities carries the same base information. */
  lemma EntitiesInfo(post: Json, info: BaseInfo)
    ensures var e := EntitiesOf(post, info);
            forall r :: r in e.texts + e.hashtags + e.urls ==> r.info == info
  {
  }

  /** One hashtag record per hashtag and one URL record per URL of the
      post, in order, each carrying the base information; the quoted
      status's records, if any, follow them. */
  lemma EntityRecords(post: Json, timestampOf: Json -> Result<int>, ts: int)
    requires Readable(post, timestampOf, ts)
    ensures var o := TweetOutcome(post, timestampOf);
            var info := BaseInfoOf(post, ts).value.0;
            HashtagsOfPost(post).Ok? ==>
              |o.hashtags| >= |HashtagsOfPost(post).value| &&
              o.hashtags[..|HashtagsOfPost(post).value|] == Tagged(info, HashtagsOfPost(post).value)
    ensures var o := TweetOutcome(post, timestampOf);
            var info := BaseInfoOf(post, ts).value.0;
            HashtagsOfPost(post).Ok? && UrlsOfPost(post).Ok? ==>
              |o.urls| >= |UrlsOfPost(post).value| &&
              o.urls[..|UrlsOfPost(post).value|] == Tagged(info, UrlsOfPost(post).value)
  {
    TweetOutcomeReadable(post, timestampOf, ts);
    var o := TweetOutcome(post, timestampOf);
    var info := BaseInfoOf(post, ts).value.0;
    var base := EntitiesOf(post, info);
    assert o.hashtags[..|base.hashtags|] == base.hashtags;
    assert o.urls[..|base.urls|] == base.urls;
  }

  /** The number of records not marked as coming from a quoted status. */
  function CountBase(es: seq<Entry>): (n: nat)
    ensures n <= |es|
    decreases |es|
  {
    if |es| == 0 then 0
    else CountBase(es[..|es| - 1]) + if es[|es| - 1].info.fromQuotedStatus then 0 else 1
  }

  lemma {:induction false} CountBaseConcat(a: seq<Entry>, b: seq<Entry>)
    ensures CountBase(a + b) == CountBase(a) + CountBase(b)
    decreases |b|
  {
    if |b| > 0 {
      var last := |b| - 1;
      assert (a + b)[..|a + b| - 1] == a + b[..last];
      CountBaseConcat(a, b[..last]);
    } else {
      assert a + b == a;
    }
  }

  /** A line that decodes to a post whose creation time reads and which
      is readable at that time. */
  predicate Recorded(line: Option<Json>, timestampOf: Json -> Result<int>) {
    line.Some? && line.value.JDict? &&
    var t := timestampOf(PathValue(line.value, ["created_at"]));
    t.Ok? && Readable(line.value, timestampOf, t.value)
  }

  /** The number of lines that are recorded. */
  function ReadableLines(lines: seq<Option<Json>>, timestampOf: Json -> Result<int>): (n: nat)
    ensures n <= |lines|
    decreases |lines|
  {
    if |lines| == 0 then 0
    else
      var last := |lines| - 1;
      ReadableLines(lines[..last], timestampOf) + if Recorded(lines[last], timestampOf) then 1 else 0
  }

  /** One line adds one unquoted text record when it is recorded, none
      otherwise. */
  lemma OneBaseText(line: Option<Json>, timestampOf: Json -> Result<int>)
    ensures CountBase(LineOutcome(line, timestampOf).texts) == if Recorded(line, timestampOf) then 1 else 0
  {
    if Recorded(line, timestampOf) {
      var post := line.value;
      var ts := timestampOf(PathValue(post, ["created_at"])).value;
      BaseTextRecord(post, timestampOf, ts);
      OneUnquotedFirst(TweetOutcome(post, timestampOf).texts);
    } else if line.Some? {
      UnreadablePostsEmitNothing(line.value, timestampOf);
    }
  }

  /** Records whose first alone is not from a quoted status count one. */
  lemma OneUnquotedFirst(texts: seq<Entry>)
    requires |texts| >= 1 && !texts[0].info.fromQuotedStatus
    requires forall k :: 1 <= k < |texts| ==> texts[k].info.fromQuotedStatus
    ensures CountBase(texts) == 1
  {
    CountBaseConcat([texts[0]], texts[1..]);
    assert texts == [texts[0]] + texts[1..];
    AllQuoted(texts[1..]);
    assert CountBase([texts[0]]) == 1 by {
      assert [texts[0]][..0] == [];
    }
  }

  lemma {:induction false} AllQuoted(es: seq<Entry>)
    requires forall k :: 0 <= k < |es| ==> es[k].info.fromQuotedStatus
    ensures CountBase(es) == 0
    decreases |es|
  {
    if |es| > 0 {
      AllQuoted(es[..|es| - 1]);
    }
  }

  /** A stream that does not end in NameError extends the records of all
      its lines but the last by those of the last. */
  lemma ExtractedStep(lines: seq<Option<Json>>, timestampOf: Json -> Result<int>)
    requires |lines| > 0 && ExtractedOf(lines, timestampOf).Ok?
    ensures var last := |lines| - 1;
            ExtractedOf(lines[..last], timestampOf).Ok? &&
            ExtractedOf(lines, timestampOf).value.texts ==
              ExtractedOf(lines[..last], timestampOf).value.texts + LineOutcome(lines[last], timestampOf).texts
    ensures ReadableLines(lines, timestampOf) ==
              ReadableLines(lines[..|lines| - 1], timestampOf) + if Recorded(lines[|lines| - 1], timestampOf) then 1 else 0
  {
  }

  /** Over a whole stream that does not end in NameError, the unquoted
      text records are exactly one per recorded line. */
  lemma {:induction false} OneBaseTextPerTweet(lines: seq<Option<Json>>, timestampOf: Json -> Result<int>)
    requires ExtractedOf(lines, timestampOf).Ok?
    ensures CountBase(ExtractedOf(lines, timestampOf).value.texts) == ReadableLines(lines, timestampOf)
    decreases |lines|
  {
    if |lines| > 0 {
      var last := |lines| - 1;
      ExtractedStep(lines, timestampOf);
      OneBaseTextPerTweet(lines[..last], timestampOf);
      OneBaseText(lines[last], timestampOf);
      CountBaseConcat(ExtractedOf(lines[..last], timestampOf).value.texts, LineOutcome(lines[last], timestampOf).texts);
    }
  }
}
