/** Records of the sampled cascades from a stream of posts
    (`midterm/code/data_extraction/002_extract_cascade_data.py`): an
    original post of a sampled cascade becomes its root record the first
    time it is seen; every retweet of a sampled post becomes a non-root
    record of that cascade and, the first time, also brings in the
    retweeted post as the root.  Afterwards exact duplicate rows are
    dropped and negative follower counts are set to 0. */
module ExtractCascadeData {
  import opened Wrappers
  import opened JsonValue
  import opened MidtermUtils
  import opened TweetModel

  /** One row of the cascade records. */
  datatype CascadeRecord = CascadeRecord(
    cascadeId: Json,
    tweetId: Json,
    isRoot: bool,
    userId: Json,
    timestamp: int,
    followerCount: Json,
    text: Json,
    createdAt: Json)

  /** The state carried from line to line: the records so far, the
      cascade ids already given a root, and the last value bound to the
      variable `tweet_id` (`None` while it is unbound). */
  datatype ScanState = ScanState(records: seq<CascadeRecord>, seen: set<Json>, tweetId: Option<Json>)

  /** `id in sampled_cascade_ids` for a set of id strings. */
  function InSample(id: Json, sampled: set<string>): (r: Result<bool>)
    ensures r.Ok? <==> Hashable(id)
    ensures r.Ok? ==> (r.value <==> id.JStr? && id.s in sampled)
  {
    if !Hashable(id) then Err(TypeError)
    else Ok(id.JStr? && id.s in sampled)
  }

  /** The timestamp of a post, read from its "created_at" text by
      `timestampOf`, which may raise. */
  function TimestampOf(post: Json, timestampOf: Json -> Result<int>): Result<int>
    requires post.JDict?
  {
    timestampOf(PathValue(post, ["created_at"]))
  }

  /** The record of `post` with the given cascade id, tweet id and root
      flag, its fields read in the order the record is written: reading
      the timestamp may raise, and so may reading the text when the post's
      extended object is not a dictionary. */
  function RecordOf(post: Json, cascadeId: Json, tweetId: Json, isRoot: bool, timestampOf: Json -> Result<int>)
    : (r: Result<CascadeRecord>)
    requires post.JDict?
    ensures r.Err? <==> TimestampOf(post, timestampOf).Err? || TextOfPost(post).Err?
    ensures TimestampOf(post, timestampOf).Err? ==> r == Err(TimestampOf(post, timestampOf).error)
    ensures TimestampOf(post, timestampOf).Ok? && TextOfPost(post).Err? ==> r == Err(TypeError)
    ensures r.Ok? ==> r.value.cascadeId == cascadeId && r.value.tweetId == tweetId && r.value.isRoot == isRoot &&
                      r.value.timestamp == TimestampOf(post, timestampOf).value &&
                      r.value.text == TextOfPost(post).value &&
                      r.value.userId == PathValue(post, ["user", "id_str"])
  {
    match TimestampOf(post, timestampOf)
    case Err(e) => Err(e)
    case Ok(ts) =>
      match TextOfPost(post)
      case Err(e) => Err(e)
      case Ok(text) =>
        Ok(CascadeRecord(cascadeId, tweetId, isRoot, PathValue(post, ["user", "id_str"]), ts,
                         PathValue(post, ["user", "followers_count"]), text, PathValue(post, ["created_at"])))
  }

  /** One decoded line of the stream.  A value `Tweet(...)` rejects
      raises TypeError, and so does reading the id of a post that is not a
      dictionary, whether the line's own or its retweeted object's.  With
      `intended` false this is the code as written: the non-root record of
      a retweet takes its `tweet_id` from the variable last bound by an
      original post.  With `intended` true it takes the retweet's own id. */
  function Step(st: ScanState, post: Json, sampled: set<string>, timestampOf: Json -> Result<int>,
                intended: bool): (r: Result<ScanState>)
    ensures !Constructs(post) ==> r == Err(TypeError)
    ensures Constructs(post) && !post.JDict? ==> r == Err(TypeError)
    ensures Holds(post, RetweetedKey) && !post.fields[RetweetedKey].JDict? ==> r == Err(TypeError)
  {
    if !Constructs(post) then Err(TypeError)
    else if !Holds(post, RetweetedKey) then
      if !post.JDict? then Err(TypeError)
      else
        var tweetId := PathValue(post, ["id_str"]);
        var bound := st.(tweetId := Some(tweetId));
        match InSample(tweetId, sampled)
        case Err(e) => Err(e)
        case Ok(sampledId) =>
          if !sampledId || tweetId in st.seen then Ok(bound)
          else
            match RecordOf(post, tweetId, tweetId, true, timestampOf)
            case Err(e) => Err(e)
            case Ok(root) => Ok(ScanState(st.records + [root], st.seen + {tweetId}, Some(tweetId)))
    else
      var retweeted := post.fields[RetweetedKey];
      if !retweeted.JDict? then Err(TypeError)
      else
        var rtId := PathValue(retweeted, ["id_str"]);
        match InSample(rtId, sampled)
        case Err(e) => Err(e)
        case Ok(sampledId) =>
          if !sampledId then Ok(st)
          else if !intended && st.tweetId.None? then Err(NameError)
          else
            var recordTweetId := if intended then PathValue(post, ["id_str"]) else st.tweetId.value;
            match RecordOf(post, rtId, recordTweetId, false, timestampOf)
            case Err(e) => Err(e)
            case Ok(leaf) =>
              var records := st.records + [leaf];
              if rtId in st.seen then Ok(st.(records := records))
              else
                match RecordOf(retweeted, rtId, rtId, true, timestampOf)
                case Err(e) => Err(e)
                case Ok(root) => Ok(ScanState(records + [root], st.seen + {rtId}, st.tweetId))
  }

  /** One line: a line that does not decode as JSON raises ValueError. */
  function LineStep(st: ScanState, line: Option<Json>, sampled: set<string>, timestampOf: Json -> Result<int>,
                    intended: bool): (r: Result<ScanState>)
    ensures line.None? ==> r == Err(ValueError)
  {
    if line.None? then Err(ValueError) else Step(st, line.value, sampled, timestampOf, intended)
  }

  /** The state after every line, or the first error raised. */
  function Scan(lines: seq<Option<Json>>, sampled: set<string>, timestampOf: Json -> Result<int>, intended: bool)
    : (r: Result<ScanState>)
    decreases |lines|
  {
    if |lines| == 0 then Ok(ScanState([], {}, None))
    else
      var last := |lines| - 1;
      match Scan(lines[..last], sampled, timestampOf, intended)
      case Err(e) => Err(e)
      case Ok(st) => LineStep(st, lines[last], sampled, timestampOf, intended)
  }

  /** What `extract_cascade_data` returns or raises. */
  function CascadeDataOf(lines: seq<Option<Json>>, sampled: set<string>, timestampOf: Json -> Result<int>)
    : (r: Result<seq<CascadeRecord>>)
  {
    match Scan(lines, sampled, timestampOf, false)
    case Err(e) => Err(e)
    case Ok(st) => Ok(st.records)
  }

  /** Once a prefix of the stream has raised, the whole stream has. */
  lemma {:induction false} ScanErrPersists(lines: seq<Option<Json>>, sampled: set<string>, timestampOf: Json -> Result<int>,
                                           intended: bool, n: nat)
    requires n <= |lines| && Scan(lines[..n], sampled, timestampOf, intended).Err?
    ensures Scan(lines, sampled, timestampOf, intended) == Scan(lines[..n], sampled, timestampOf, intended)
    decreases |lines| - n
  {
    if n < |lines| {
      assert lines[..n + 1][..n] == lines[..n];
      ScanErrPersists(lines, sampled, timestampOf, intended, n + 1);
    } else {
      assert lines[..n] == lines;
    }
  }

  /** A line that does not wrap, or a post whose id cannot be read, ends
      the whole extraction with TypeError; a line that does not decode
      ends it with ValueError. */
  lemma UnwrappableLineRaises(lines: seq<Option<Json>>, sampled: set<string>, timestampOf: Json -> Result<int>, n: nat)
    requires n < |lines| && Scan(lines[..n], sampled, timestampOf, false).Ok?
    ensures lines[n].None? ==> CascadeDataOf(lines, sampled, timestampOf) == Err(ValueError)
    ensures lines[n].Some? &&
            (!Constructs(lines[n].value) || !lines[n].value.JDict? ||
             (Holds(lines[n].value, RetweetedKey) && !lines[n].value.fields[RetweetedKey].JDict?)) ==>
              CascadeDataOf(lines, sampled, timestampOf) == Err(TypeError)
  {
    assert lines[..n + 1][..n] == lines[..n];
    if lines[n].None? || !Constructs(lines[n].value) || !lines[n].value.JDict? ||
       (Holds(lines[n].value, RetweetedKey) && !lines[n].value.fields[RetweetedKey].JDict?) {
      ScanErrPersists(lines, sampled, timestampOf, false, n + 1);
    }
  }

  /** `extract_cascade_data` over the lines of all files, in order, each
      decoded (`None` for a line that does not decode).  `tweetId` models
      the variable `tweet_id`, unbound until the first original post. */
  method ExtractCascadeData(lines: seq<Option<Json>>, sampled: set<string>, timestampOf: Json -> Result<int>)
    returns (r: Result<seq<CascadeRecord>>)
    ensures r == CascadeDataOf(lines, sampled, timestampOf)
  {
    var records: seq<CascadeRecord> := [];
    var seenCascades: set<Json> := {};
    var tweetId: Option<Json> := None;
    for i := 0 to |lines|
      invariant Scan(lines[..i], sampled, timestampOf, false) == Ok(ScanState(records, seenCascades, tweetId))
    {
      assert lines[..i + 1][..i] == lines[..i];
      if lines[i].None? {
        ScanErrPersists(lines, sampled, timestampOf, false, i + 1);
        return Err(ValueError);
      }
      var step := ScanLine(lines[i].value, sampled, timestampOf, records, seenCascades, tweetId);
      if step.Err? {
        ScanErrPersists(lines, sampled, timestampOf, false, i + 1);
        return Err(step.error);
      }
      records, seenCascades, tweetId := step.value.records, step.value.seen, step.value.tweetId;
    }
    assert lines[..|lines|] == lines;
    return Ok(records);
  }

  /** The record dictionary built from a wrapped post, its values read in
      the order they are written. */
  method RecordFrom(tweet: Tweet, cascadeId: Json, tweetId: Json, isRoot: bool, timestampOf: Json -> Result<int>)
    returns (r: Result<CascadeRecord>)
    requires tweet.Linked() && tweet.postObject.JDict?
    ensures r == RecordOf(tweet.postObject, cascadeId, tweetId, isRoot, timestampOf)
  {
    var userId := tweet.GetUserID().value;
    var ts := timestampOf(tweet.GetCreatedAt().value);
    if ts.Err? {
      return Err(ts.error);
    }
    var followerCount := tweet.GetFollowerCount().value;
    var text := tweet.GetText();
    if text.Err? {
      return Err(text.error);
    }
    return Ok(CascadeRecord(cascadeId, tweetId, isRoot, userId, ts.value, followerCount, text.value,
                            tweet.GetCreatedAt().value));
  }

  /** The body of the loop for one decoded line. */
  method ScanLine(data: Json, sampled: set<string>, timestampOf: Json -> Result<int>,
                  records: seq<CascadeRecord>, seenCascades: set<Json>, tweetIdBound: Option<Json>)
    returns (r: Result<ScanState>)
    ensures r == Step(ScanState(records, seenCascades, tweetIdBound), data, sampled, timestampOf, false)
  {
    var wrapped := Tweet.New(data);
    if wrapped.Err? {
      return Err(wrapped.error);
    }
    var tweetObj := wrapped.value;
    if !tweetObj.isRetweet {
      var postId := tweetObj.GetPostID();
      if postId.Err? {
        return Err(postId.error);
      }
      var tweetId := postId.value;
      var inSample := InSample(tweetId, sampled);
      if inSample.Err? {
        return Err(inSample.error);
      }
      if !inSample.value {
        return Ok(ScanState(records, seenCascades, Some(tweetId)));
      }
      if tweetId in seenCascades {
        return Ok(ScanState(records, seenCascades, Some(tweetId)));
      }
      var record := RecordFrom(tweetObj, tweetId, tweetId, true, timestampOf);
      if record.Err? {
        return Err(record.error);
      }
      return Ok(ScanState(records + [record.value], seenCascades + {tweetId}, Some(tweetId)));
    } else {
      var rtObj := tweetObj.retweetObject.value;
      var rtIdResult := rtObj.GetPostID();
      if rtIdResult.Err? {
        return Err(rtIdResult.error);
      }
      var rtId := rtIdResult.value;
      var inSample := InSample(rtId, sampled);
      if inSample.Err? {
        return Err(inSample.error);
      }
      if !inSample.value {
        return Ok(ScanState(records, seenCascades, tweetIdBound));
      }
      if tweetIdBound.None? {
        return Err(NameError);
      }
      var record := RecordFrom(tweetObj, rtId, tweetIdBound.value, false, timestampOf);
      if record.Err? {
        return Err(record.error);
      }
      var newRecords := records + [record.value];
      if rtId in seenCascades {
        return Ok(ScanState(newRecords, seenCascades, tweetIdBound));
      }
      var rootRecord := RecordFrom(rtObj, rtId, rtId, true, timestampOf);
      if rootRecord.Err? {
        return Err(rootRecord.error);
      }
      return Ok(ScanState(newRecords + [rootRecord.value], seenCascades + {rtId}, tweetIdBound));
    }
  }

  // ---------------------------------------------------------------------
  // Roots
  // ---------------------------------------------------------------------

  /** The records so far name sampled cascades only; each root record is
      the post its cascade is named after; `seen` holds exactly the
      cascades that have a root record; and no cascade has two. */
  predicate ScanInv(st: ScanState, sampled: set<string>) {
    (forall k :: 0 <= k < |st.records| ==>
       st.records[k].cascadeId.JStr? && st.records[k].cascadeId.s in sampled) &&
    (forall k :: 0 <= k < |st.records| && st.records[k].isRoot ==>
       st.records[k].tweetId == st.records[k].cascadeId && st.records[k].cascadeId in st.seen) &&
    (forall x :: x in st.seen ==> exists k :: 0 <= k < |st.records| && st.records[k].isRoot && st.records[k].cascadeId == x) &&
    (forall i, j :: 0 <= i < j < |st.records| && st.records[i].isRoot && st.records[j].isRoot ==>
       st.records[i].cascadeId != st.records[j].cascadeId)
  }

  /** A non-root record of a sampled cascade keeps the invariant. */
  lemma AddLeafKeepsInv(st: ScanState, rec: CascadeRecord, sampled: set<string>, tweetId: Option<Json>)
    requires ScanInv(st, sampled) && !rec.isRoot && rec.cascadeId.JStr? && rec.cascadeId.s in sampled
    ensures ScanInv(ScanState(st.records + [rec], st.seen, tweetId), sampled)
  {
    var rs := st.records + [rec];
    forall x | x in st.seen
      ensures exists k :: 0 <= k < |rs| && rs[k].isRoot && rs[k].cascadeId == x
    {
      var k :| 0 <= k < |st.records| && st.records[k].isRoot && st.records[k].cascadeId == x;
      assert rs[k] == st.records[k];
    }
  }

  /** The root record of a sampled cascade that has none yet keeps the
      invariant once its id is marked as seen. */
  lemma AddRootKeepsInv(st: ScanState, rec: CascadeRecord, sampled: set<string>, tweetId: Option<Json>)
    requires ScanInv(st, sampled) && rec.isRoot && rec.tweetId == rec.cascadeId
    requires rec.cascadeId.JStr? && rec.cascadeId.s in sampled && rec.cascadeId !in st.seen
    ensures ScanInv(ScanState(st.records + [rec], st.seen + {rec.cascadeId}, tweetId), sampled)
  {
    var rs := st.records + [rec];
    forall x | x in st.seen + {rec.cascadeId}
      ensures exists k :: 0 <= k < |rs| && rs[k].isRoot && rs[k].cascadeId == x
    {
      if x in st.seen {
        var k :| 0 <= k < |st.records| && st.records[k].isRoot && st.records[k].cascadeId == x;
        assert rs[k] == st.records[k];
      } else {
        assert rs[|rs| - 1] == rec;
      }
    }
  }

  lemma StepKeepsInv(st: ScanState, post: Json, sampled: set<string>, timestampOf: Json -> Result<int>, intended: bool)
    requires ScanInv(st, sampled)
    requires Step(st, post, sampled, timestampOf, intended).Ok?
    ensures ScanInv(Step(st, post, sampled, timestampOf, intended).value, sampled)
  {
    if RetweetedKey !in post.fields {
      var id := PathValue(post, ["id_str"]);
      if id.JStr? && id.s in sampled && id !in st.seen {
        AddRootKeepsInv(st, RecordOf(post, id, id, true, timestampOf).value, sampled, Some(id));
      }
    } else {
      var retweeted := post.fields[RetweetedKey];
      var rtId := PathValue(retweeted, ["id_str"]);
      if rtId.JStr? && rtId.s in sampled {
        var recordTweetId := if intended then PathValue(post, ["id_str"]) else st.tweetId.value;
        var leaf := RecordOf(post, rtId, recordTweetId, false, timestampOf).value;
        AddLeafKeepsInv(st, leaf, sampled, st.tweetId);
        if rtId !in st.seen {
          var st1 := ScanState(st.records + [leaf], st.seen, st.tweetId);
          AddRootKeepsInv(st1, RecordOf(retweeted, rtId, rtId, true, timestampOf).value, sampled, st.tweetId);
        }
      }
    }
  }

  lemma {:induction false} ScanKeepsInv(lines: seq<Option<Json>>, sampled: set<string>, timestampOf: Json -> Result<int>,
                                        intended: bool)
    requires Scan(lines, sampled, timestampOf, intended).Ok?
    ensures ScanInv(Scan(lines, sampled, timestampOf, intended).value, sampled)
    decreases |lines|
  {
    if |lines| > 0 {
      var last := |lines| - 1;
      ScanKeepsInv(lines[..last], sampled, timestampOf, intended);
      StepKeepsInv(Scan(lines[..last], sampled, timestampOf, intended).value, lines[last].value, sampled, timestampOf,
                   intended);
    }
  }

  /** Every record belongs to a sampled cascade, and each cascade has at
      most one root record, which is the cascade's own post. */
  lemma RootsAreUnique(lines: seq<Option<Json>>, sampled: set<string>, timestampOf: Json -> Result<int>)
    requires CascadeDataOf(lines, sampled, timestampOf).Ok?
    ensures var rs := CascadeDataOf(lines, sampled, timestampOf).value;
            (forall k :: 0 <= k < |rs| ==> rs[k].cascadeId.JStr? && rs[k].cascadeId.s in sampled) &&
            (forall k :: 0 <= k < |rs| && rs[k].isRoot ==> rs[k].tweetId == rs[k].cascadeId) &&
            (forall i, j :: 0 <= i < j < |rs| && rs[i].isRoot && rs[j].isRoot ==> rs[i].cascadeId != rs[j].cascadeId)
  {
    ScanKeepsInv(lines, sampled, timestampOf, false);
  }

  // ---------------------------------------------------------------------
  // One line
  // ---------------------------------------------------------------------

  /** An original post adds its root record exactly when its id is
      sampled and not seen yet; otherwise it adds nothing. */
  lemma OriginalPostStep(st: ScanState, post: Json, sampled: set<string>, timestampOf: Json -> Result<int>, intended: bool)
    requires post.JDict? && RetweetedKey !in post.fields
    requires Step(st, post, sampled, timestampOf, intended).Ok?
    ensures var id := PathValue(post, ["id_str"]);
            var st' := Step(st, post, sampled, timestampOf, intended).value;
            (id.JStr? && id.s in sampled && id !in st.seen ==>
               RecordOf(post, id, id, true, timestampOf).Ok? &&
               st'.records == st.records + [RecordOf(post, id, id, true, timestampOf).value]) &&
            (!(id.JStr? && id.s in sampled) || id in st.seen ==> st'.records == st.records)
  {
  }

  /** A retweet of a post outside the sample adds nothing.  A retweet of a
      sampled post always adds a non-root record of the retweeted post's
      cascade, and also that post's root record when the cascade has none
      yet. */
  lemma RetweetStep(st: ScanState, post: Json, sampled: set<string>, timestampOf: Json -> Result<int>, intended: bool)
    requires post.JDict? && RetweetedKey in post.fields
    requires Step(st, post, sampled, timestampOf, intended).Ok?
    ensures var retweeted := post.fields[RetweetedKey];
            retweeted.JDict? &&
            var rtId := PathValue(retweeted, ["id_str"]);
            var st' := Step(st, post, sampled, timestampOf, intended).value;
            (!(rtId.JStr? && rtId.s in sampled) ==> st' == st) &&
            (rtId.JStr? && rtId.s in sampled ==>
               |st'.records| == |st.records| + (if rtId in st.seen then 1 else 2) &&
               st'.records[..|st.records|] == st.records &&
               st'.records[|st.records|].cascadeId == rtId && !st'.records[|st.records|].isRoot &&
               (rtId !in st.seen ==>
                  Ok(st'.records[|st.records| + 1]) == RecordOf(retweeted, rtId, rtId, true, timestampOf)))
  {
  }

  // ---------------------------------------------------------------------
  // The `tweet_id` of retweet records
  // ---------------------------------------------------------------------

  /** The id of the last original post of the stream: the last line that
      decodes to a dictionary holding no retweeted status. */
  function LastOriginalId(lines: seq<Option<Json>>): Option<Json>
    decreases |lines|
  {
    if |lines| == 0 then None
    else
      var last := |lines| - 1;
      var line := lines[last];
      if line.Some? && line.value.JDict? && RetweetedKey !in line.value.fields then Some(PathValue(line.value, ["id_str"]))
      else LastOriginalId(lines[..last])
  }

  /** As written, the variable read for a retweet record holds the id of
      the last original post seen, whatever cascade it belongs to. */
  lemma {:induction false} BoundTweetId(lines: seq<Option<Json>>, sampled: set<string>, timestampOf: Json -> Result<int>)
    requires Scan(lines, sampled, timestampOf, false).Ok?
    ensures Scan(lines, sampled, timestampOf, false).value.tweetId == LastOriginalId(lines)
    decreases |lines|
  {
    if |lines| > 0 {
      BoundTweetId(lines[..|lines| - 1], sampled, timestampOf);
    }
  }

  /** As written, a retweet of a sampled post records as its `tweet_id`
      the id of the last original post before it, and raises NameError
      when no original post came before it. */
  lemma StaleRetweetId(lines: seq<Option<Json>>, post: Json, sampled: set<string>, timestampOf: Json -> Result<int>)
    requires Scan(lines, sampled, timestampOf, false).Ok?
    requires Constructs(post) && post.JDict? && RetweetedKey in post.fields && post.fields[RetweetedKey].JDict?
    requires InSample(PathValue(post.fields[RetweetedKey], ["id_str"]), sampled) == Ok(true)
    ensures LastOriginalId(lines).None? ==>
              Step(Scan(lines, sampled, timestampOf, false).value, post, sampled, timestampOf, false) == Err(NameError)
    ensures var st := Scan(lines, sampled, timestampOf, false).value;
            var r := Step(st, post, sampled, timestampOf, false);
            r.Ok? ==> r.value.records[|st.records|].tweetId == LastOriginalId(lines).value
  {
    BoundTweetId(lines, sampled, timestampOf);
  }

  /** A retweet of a post with id "1" whose own id is "2", first in the
      stream: as written the extraction raises NameError. */
  lemma StaleTweetIdCounterexample(retweet: Json, timestampOf: Json -> Result<int>)
    requires retweet == JDict(map[RetweetedKey := JDict(map["id_str" := JStr("1")]), "id_str" := JStr("2")])
    requires forall j :: timestampOf(j) == Ok(0)
    ensures Constructs(retweet)
    ensures CascadeDataOf([Some(retweet)], {"1"}, timestampOf) == Err(NameError)
    ensures Scan([Some(retweet)], {"1"}, timestampOf, true).Ok?
  {
    var retweeted := JDict(map["id_str" := JStr("1")]);
    assert retweet.fields[RetweetedKey] == retweeted;
    assert Constructs(retweeted);
    assert Constructs(retweet);
    assert [Some(retweet)][..0] == [];
    assert Scan([Some(retweet)][..0], {"1"}, timestampOf, false) == Ok(ScanState([], {}, None));
    assert PathValue(retweeted, ["id_str"]) == JStr("1") by {
      assert Keys(["id_str"]).items == [JStr("id_str")];
      assert [JStr("id_str")] == [] + [JStr("id_str")];
      StepIn(retweeted, [], "id_str");
    }
    assert InSample(JStr("1"), {"1"}) == Ok(true);
    assert Scan([Some(retweet)], {"1"}, timestampOf, false) == Err(NameError);
    StringKeysNeverFail(retweet, ["text"]);
    StringKeysNeverFail(retweeted, ["text"]);
  }

  /** With the retweet's own id, each retweet of a sampled post whose
      records read records that id as its `tweet_id`, whatever came
      before it. */
  lemma IntendedRetweetRecord(st: ScanState, post: Json, sampled: set<string>, timestampOf: Json -> Result<int>)
    requires Constructs(post) && post.JDict? && RetweetedKey in post.fields && post.fields[RetweetedKey].JDict?
    requires InSample(PathValue(post.fields[RetweetedKey], ["id_str"]), sampled) == Ok(true)
    requires TimestampOf(post, timestampOf).Ok? && TextOfPost(post).Ok?
    requires TimestampOf(post.fields[RetweetedKey], timestampOf).Ok? && TextOfPost(post.fields[RetweetedKey]).Ok?
    ensures var r := Step(st, post, sampled, timestampOf, true);
            r.Ok? && r.value.records[|st.records|].tweetId == PathValue(post, ["id_str"]) &&
            !r.value.records[|st.records|].isRoot
  {
  }

  // ---------------------------------------------------------------------
  // Cleaning the frame
  // ---------------------------------------------------------------------

  /** `drop_duplicates()`: the first copy of every row, in order. */
  function DropDuplicates(rs: seq<CascadeRecord>): (out: seq<CascadeRecord>)
    ensures forall r :: r in out <==> r in rs
    ensures forall i, j :: 0 <= i < j < |out| ==> out[i] != out[j]
    decreases |rs|
  {
    if |rs| == 0 then []
    else
      var last := |rs| - 1;
      var kept := DropDuplicates(rs[..last]);
      assert forall r :: r in rs <==> r in rs[..last] || r == rs[last];
      if rs[last] in rs[..last] then kept else kept + [rs[last]]
  }

  /** A negative follower count becomes 0; every other value stays. */
  function ClampFollowers(r: CascadeRecord): (c: CascadeRecord)
    ensures c == r.(followerCount := c.followerCount)
    ensures r.followerCount.JInt? && r.followerCount.i < 0 ==> c.followerCount == JInt(0)
    ensures !(r.followerCount.JInt? && r.followerCount.i < 0) ==> c == r
  {
    if r.followerCount.JInt? && r.followerCount.i < 0 then r.(followerCount := JInt(0)) else r
  }

  /** The frame that is saved: duplicates dropped, then negative follower
      counts set to 0. */
  function CleanRecords(rs: seq<CascadeRecord>): (out: seq<CascadeRecord>)
    ensures |out| == |DropDuplicates(rs)|
    ensures forall k :: 0 <= k < |out| ==> out[k] == ClampFollowers(DropDuplicates(rs)[k])
    ensures forall k :: 0 <= k < |out| ==> !(out[k].followerCount.JInt? && out[k].followerCount.i < 0)
  {
    var unique := DropDuplicates(rs);
    seq(|unique|, k requires 0 <= k < |unique| => ClampFollowers(unique[k]))
  }
}
