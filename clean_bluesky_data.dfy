/** Cleaning the Bluesky firehose records
    (`bluesky/code/data_cleaning/001_clean_bluesky_data.py`): each decoded
    line is kept when it creates a post or a repost that is neither a reply
    nor a quote; a kept record gets the web address of the post it names,
    with a repost's subject moved into two top-level fields; the frame of
    kept records is reduced to ten columns, the type is shortened and the
    language list becomes one string. */
module CleanBlueskyData {
  import opened Wrappers
  import opened PyStrings
  import opened JsonValue

  const PostType: string := "app.bsky.feed.post"
  const RepostType: string := "app.bsky.feed.repost"
  const BaseUrl: string := "https://bsky.app/profile"

  const Columns2Keep: seq<string> :=
    ["type", "uri", "author", "cid", "createdAt", "text", "langs", "url", "subject_uri", "subject_cid"]

  // ---------------------------------------------------------------------
  // extract_file_date
  // ---------------------------------------------------------------------

  /** The last "/" component of `path`, up to its first ".". */
  function ExtractFileDate(path: string): (date: string)
    ensures '.' !in date
  {
    var name := Last(Split(path, "/"));
    SplitCharPiecesFree(name, '.');
    var date := Split(name, ".")[0];
    assert date in Split(name, ".");
    date
  }

  /** A data file named after its date gives back that date. */
  lemma FileDateOf(dir: string, date: string, ext: string)
    requires '/' !in date && '.' !in date && '/' !in ext
    ensures ExtractFileDate(dir + "/" + date + "." + ext) == date
  {
    var name := date + "." + ext;
    assert '/' !in name by {
      assert forall k :: 0 <= k < |name| ==> name[k] != '/' by {
        forall k | 0 <= k < |name| ensures name[k] != '/' {
          if k < |date| {
            assert name[k] == date[k];
          } else if k > |date| {
            assert name[k] == ext[k - |date| - 1];
          }
        }
      }
    }
    assert dir + "/" + date + "." + ext == dir + "/" + name;
    LastSplitChar(dir, '/', name);
    SplitCharConcat(date, '.', ext);
    assert name == date + ['.'] + ext;
  }

  // ---------------------------------------------------------------------
  // lang_to_string
  // ---------------------------------------------------------------------

  predicate AllStrings(items: seq<Json>) {
    forall k :: 0 <= k < |items| ==> items[k].JStr?
  }

  function Texts(items: seq<Json>): (ts: seq<string>)
    requires AllStrings(items)
    ensures |ts| == |items| && forall k :: 0 <= k < |items| ==> ts[k] == items[k].s
  {
    seq(|items|, k requires 0 <= k < |items| => items[k].s)
  }

  /** `lang_to_string`: anything but a list unchanged, a one-element list
      its element, and any other list its strings joined with "|".  A list
      with a non-string raises inside the `try`, which prints and returns
      `None`. */
  function LangToString(lang: Json): (r: Json)
    ensures !lang.JList? ==> r == lang
    ensures lang.JList? && |lang.items| == 1 ==> r == lang.items[0]
    ensures lang.JList? && |lang.items| != 1 && AllStrings(lang.items) ==> r.JStr?
    ensures lang.JList? && |lang.items| != 1 && !AllStrings(lang.items) ==> r == JNull
  {
    if !lang.JList? then lang
    else if |lang.items| == 1 then lang.items[0]
    else if AllStrings(lang.items) then JStr(Join(Texts(lang.items), "|"))
    else JNull
  }

  /** Two or more language codes without "|" can be read back by splitting
      on "|"; none is lost or merged. */
  lemma LangsRoundTrip(codes: seq<string>)
    requires |codes| >= 2 && forall c :: c in codes ==> '|' !in c
    ensures var r := LangToString(JList(seq(|codes|, k requires 0 <= k < |codes| => JStr(codes[k]))));
            r.JStr? && Split(r.s, "|") == codes
  {
    var items := seq(|codes|, k requires 0 <= k < |codes| => JStr(codes[k]));
    assert Texts(items) == codes;
    SplitJoinChar(codes, '|');
  }

  // ---------------------------------------------------------------------
  // uri_to_bsky_url
  // ---------------------------------------------------------------------

  /** `uri_to_bsky_url(uri)`: only URIs mentioning the post collection have
      a web address; it is built from the third and fifth "/" pieces. */
  function UriToBskyUrl(uri: Json): (r: Result<string>)
    ensures !(uri.JStr? || uri.JList? || uri.JDict?) ==> r == Err(TypeError)
    ensures (uri.JList? || uri.JDict?) ==> r == Err(if In(PostType, uri) == Ok(true) then AttributeError else Exception)
    ensures uri.JStr? && !Contains(uri.s, PostType) ==> r == Err(Exception)
    ensures uri.JStr? && Contains(uri.s, PostType) && |Split(uri.s, "/")| < 5 ==> r == Err(IndexError)
  {
    var mentionsPost :- In(PostType, uri);
    if !mentionsPost then Err(Exception)
    else if !uri.JStr? then Err(AttributeError)
    else
      var parts := Split(uri.s, "/");
      if |parts| < 5 then Err(IndexError)
      else Ok(BaseUrl + "/" + parts[2] + "/post/" + parts[4])
  }

  /** The URI of the post `rkey` of the account `did`. */
  function PostUri(did: string, rkey: string): string {
    "at://" + did + "/" + PostType + "/" + rkey
  }

  /** The web address of that post. */
  function PostUrl(did: string, rkey: string): string {
    BaseUrl + "/" + did + "/post/" + rkey
  }

  /** The "/" pieces of a post URI. */
  lemma PostUriPieces(did: string, rkey: string)
    requires '/' !in did && '/' !in rkey
    ensures Split(PostUri(did, rkey), "/") == ["at:", "", did, PostType, rkey]
  {
    var t3 := PostType + ['/'] + rkey;
    var t2 := did + ['/'] + t3;
    var t1 := "" + ['/'] + t2;
    assert PostUri(did, rkey) == "at:" + ['/'] + t1;
    assert '/' !in PostType;
    SplitCharNone(rkey, '/');
    SplitCharConcat(PostType, '/', rkey);
    assert Split(t3, "/") == [PostType, rkey];
    SplitCharConcat(did, '/', t3);
    assert Split(t2, "/") == [did, PostType, rkey];
    SplitCharConcat("", '/', t2);
    assert Split(t1, "/") == ["", did, PostType, rkey];
    SplitCharConcat("at:", '/', t1);
  }

  /** A post URI mentions the post collection. */
  lemma PostUriMentionsPost(did: string, rkey: string)
    ensures Contains(PostUri(did, rkey), PostType)
  {
    var uri := PostUri(did, rkey);
    var j := |"at://" + did + "/"|;
    assert uri == ("at://" + did + "/") + PostType + ("/" + rkey);
    assert uri[j..j + |PostType|] == PostType;
    OccursAtSlice(uri, PostType, j);
    ContainsIff(uri, PostType);
  }

  /** A post URI becomes the web address of the same post. */
  lemma UrlOfPostUri(did: string, rkey: string)
    requires '/' !in did && '/' !in rkey
    ensures UriToBskyUrl(JStr(PostUri(did, rkey))) == Ok(PostUrl(did, rkey))
  {
    PostUriPieces(did, rkey);
    PostUriMentionsPost(did, rkey);
  }

  /** The "/" pieces of the account-and-post tail of a web address. */
  lemma UrlTailPieces(did: string, rkey: string)
    requires '/' !in did && '/' !in rkey
    ensures Split(did + "/post/" + rkey, "/") == [did, "post", rkey]
  {
    var t5 := "post" + ['/'] + rkey;
    assert did + "/post/" + rkey == did + ['/'] + t5;
    SplitCharNone(rkey, '/');
    SplitCharConcat("post", '/', rkey);
    SplitCharConcat(did, '/', t5);
  }

  /** The web address names the account and the post again: its "/"
      pieces hold `did` and `rkey` where a reader expects them. */
  lemma PostUrlPieces(did: string, rkey: string)
    requires '/' !in did && '/' !in rkey
    ensures Split(PostUrl(did, rkey), "/") == ["https:", "", "bsky.app", "profile", did, "post", rkey]
  {
    var t2 := "bsky.app/profile/" + did + "/post/" + rkey;
    var t1 := "" + ['/'] + t2;
    PostUrlScheme(did, rkey);
    UrlHostPieces(did, rkey);
    SplitCharConcat("", '/', t2);
    SplitCharConcat("https:", '/', t1);
  }

  /** A post URL is its scheme, two slashes and the rest of the address. */
  lemma PostUrlScheme(did: string, rkey: string)
    ensures PostUrl(did, rkey) == "https:" + ['/'] + ("" + ['/'] + ("bsky.app/profile/" + did + "/post/" + rkey))
  {
    assert BaseUrl + "/" == "https:" + ['/'] + ("" + ['/'] + "bsky.app/profile/");
  }

  /** The "/" pieces of a web address after its scheme. */
  lemma UrlHostPieces(did: string, rkey: string)
    requires '/' !in did && '/' !in rkey
    ensures Split("bsky.app/profile/" + did + "/post/" + rkey, "/") == ["bsky.app", "profile", did, "post", rkey]
  {
    var t4 := did + "/post/" + rkey;
    var t3 := "profile" + ['/'] + t4;
    assert "bsky.app/profile/" + did + "/post/" + rkey == "bsky.app" + ['/'] + t3;
    UrlTailPieces(did, rkey);
    SplitCharConcat("profile", '/', t4);
    SplitCharConcat("bsky.app", '/', t3);
  }

  /** A URI of any other collection (a like, a follow, a repost record)
      has no web address. */
  lemma OtherCollectionsRaise(uri: string)
    requires !Contains(uri, PostType)
    ensures UriToBskyUrl(JStr(uri)) == Err(Exception)
  {
  }

  // ---------------------------------------------------------------------
  // clean_post
  // ---------------------------------------------------------------------

  /** The dictionary after `clean_post`, and the exception it raised, if
      any.  The subject's fields are copied before the URL is built, so
      they stay even when building the URL raises. */
  datatype Cleaned = Cleaned(after: map<string, Json>, raised: Option<PyError>)

  function CleanPostOf(m: map<string, Json>): (c: Cleaned)
    ensures c.raised.None? ==> "url" in c.after && c.after["url"].JStr? && "subject" !in c.after
  {
    if "subject" in m then
      var subject := m["subject"];
      if !subject.JDict? then Cleaned(m, Some(AttributeError))
      else
        var m1 := m["subject_uri" := DictGet(subject.fields, "uri")]["subject_cid" := DictGet(subject.fields, "cid")];
        match UriToBskyUrl(m1["subject_uri"])
        case Err(e) => Cleaned(m1, Some(e))
        case Ok(url) => Cleaned(m1["url" := JStr(url)] - {"subject"}, None)
    else if "uri" !in m then Cleaned(m, Some(KeyError))
    else
      match UriToBskyUrl(m["uri"])
      case Err(e) => Cleaned(m, Some(e))
      case Ok(url) => Cleaned(m["url" := JStr(url)], None)
  }

  /** The keys `clean_post` may write or delete. */
  const CleanedKeys: set<string> := {"subject", "subject_uri", "subject_cid", "url"}

  /** A repost of the post `rkey` of `did`: the subject's URI and CID move
      to the top level, the web address is the reposted post's, the
      subject is gone and every other field is untouched. */
  lemma CleanRepost(m: map<string, Json>, did: string, rkey: string)
    requires "subject" in m && m["subject"].JDict?
    requires "uri" in m["subject"].fields && m["subject"].fields["uri"] == JStr(PostUri(did, rkey))
    requires '/' !in did && '/' !in rkey
    ensures var c := CleanPostOf(m);
            c.raised.None? &&
            c.after.Keys == m.Keys - {"subject"} + {"subject_uri", "subject_cid", "url"} &&
            c.after["subject_uri"] == JStr(PostUri(did, rkey)) &&
            c.after["subject_cid"] == DictGet(m["subject"].fields, "cid") &&
            c.after["url"] == JStr(PostUrl(did, rkey)) &&
            forall k :: k in m && k !in CleanedKeys ==> c.after[k] == m[k]
  {
    UrlOfPostUri(did, rkey);
  }

  /** An original post gets its own web address and nothing else changes. */
  lemma CleanOriginalPost(m: map<string, Json>, did: string, rkey: string)
    requires "subject" !in m && "uri" in m && m["uri"] == JStr(PostUri(did, rkey))
    requires '/' !in did && '/' !in rkey
    ensures CleanPostOf(m) == Cleaned(m["url" := JStr(PostUrl(did, rkey))], None)
  {
    UrlOfPostUri(did, rkey);
  }

  /** Whatever the record, a successful clean leaves every field outside
      the four it manages as it was, and adds none. */
  lemma CleanKeepsOtherFields(m: map<string, Json>)
    requires CleanPostOf(m).raised.None?
    ensures var a := CleanPostOf(m).after;
            (forall k :: k in m && k !in CleanedKeys ==> k in a && a[k] == m[k]) &&
            (forall k :: k in a && k !in CleanedKeys ==> k in m)
  {
  }

  /** A post object as a mutable dictionary. */
  class PostObject {
    var fields: map<string, Json>

    constructor(fields0: map<string, Json>)
      ensures fields == fields0
    {
      fields := fields0;
    }

    /** `clean_post(post_object)`: updates this dictionary in place and
        returns it. */
    method CleanPost() returns (r: Result<PostObject>)
      modifies this
      ensures fields == CleanPostOf(old(fields)).after
      ensures r.Ok? <==> CleanPostOf(old(fields)).raised.None?
      ensures r.Err? ==> Some(r.error) == CleanPostOf(old(fields)).raised
      ensures r.Ok? ==> r.value == this
    {
      if "subject" in fields {
        var subject := fields["subject"];
        if !subject.JDict? {
          return Err(AttributeError);
        }
        fields := fields["subject_uri" := DictGet(subject.fields, "uri")];
        fields := fields["subject_cid" := DictGet(subject.fields, "cid")];
      }
      if "subject" in fields {
        var url := UriToBskyUrl(fields["subject_uri"]);
        if url.Err? {
          return Err(url.error);
        }
        fields := fields["url" := JStr(url.value)];
        fields := fields - {"subject"};
        return Ok(this);
      } else {
        if "uri" !in fields {
          return Err(KeyError);
        }
        var url := UriToBskyUrl(fields["uri"]);
        if url.Err? {
          return Err(url.error);
        }
        fields := fields["url" := JStr(url.value)];
      }
      return Ok(this);
    }
  }

  // ---------------------------------------------------------------------
  // Which records are kept
  // ---------------------------------------------------------------------

  /** The filter of the main loop: `Ok(true)` keeps the record, `Ok(false)`
      skips it, and an error is raised outside any `try` and stops the
      script. */
  function KeepRecord(record: Json): (r: Result<bool>)
    ensures r.Ok? && r.value ==> record.JDict?
  {
    var action :- GetItem(record, "action");
    var isCreation := action == JStr("create");
    var rtype :- GetItem(record, "type");
    var hasApp :- In("app.bsky", rtype);
    var isPost :- if hasApp then In("post", rtype) else Ok(false);
    if !isCreation || !isPost then Ok(false)
    else
      var isReply := "reply" in record.fields || "parent" in record.fields;
      var embed := if "embed" in record.fields then record.fields["embed"] else JDict(map[]);
      if !embed.JDict? then Err(AttributeError)
      else
        var embedType := DictGet(embed.fields, "$type");
        var isQuote := embedType != JNull && embedType == JStr("app.bsky.embed.record");
        Ok(!(isReply || isQuote))
  }

  /** For a record whose type is a string: it is kept exactly when it is a
      creation, its type mentions "app.bsky" and "post", it is not a reply,
      and it does not embed another record. */
  lemma KeepRecordIff(m: map<string, Json>, t: string)
    requires "action" in m && "type" in m && m["type"] == JStr(t)
    requires "embed" in m ==> m["embed"].JDict?
    ensures KeepRecord(JDict(m)) ==
              Ok(m["action"] == JStr("create") && Contains(t, "app.bsky") && Contains(t, "post") &&
                 "reply" !in m && "parent" !in m &&
                 !("embed" in m && DictGet(m["embed"].fields, "$type") == JStr("app.bsky.embed.record")))
  {
  }

  /** Posts and reposts pass the type test; likes do not. */
  lemma PostTypesPass()
    ensures Contains(PostType, "app.bsky") && Contains(PostType, "post")
    ensures Contains(RepostType, "app.bsky") && Contains(RepostType, "post")
    ensures !Contains("app.bsky.feed.like", "post")
  {
    PostTypeMentions();
    RepostTypeMentions();
    assert 'o' !in "app.bsky.feed.like";
    FindNoneWithoutChar("app.bsky.feed.like", "post", 1);
  }

  lemma PostTypeMentions()
    ensures Contains(PostType, "app.bsky") && Contains(PostType, "post")
  {
    assert PostType[..8] == "app.bsky" && PostType[14..18] == "post";
    ContainsSlice(PostType, "app.bsky", 0);
    ContainsSlice(PostType, "post", 14);
  }

  lemma RepostTypeMentions()
    ensures Contains(RepostType, "app.bsky") && Contains(RepostType, "post")
  {
    assert RepostType[..8] == "app.bsky" && RepostType[16..20] == "post";
    ContainsSlice(RepostType, "app.bsky", 0);
    ContainsSlice(RepostType, "post", 16);
  }

  // ---------------------------------------------------------------------
  // The records of one file
  // ---------------------------------------------------------------------

  /** The list `records` after every line, or the error that stopped the
      script.  A kept record whose cleaning raises is skipped. */
  function CollectedOf(lines: seq<Json>): (r: Result<seq<map<string, Json>>>)
    decreases |lines|
  {
    if |lines| == 0 then Ok([])
    else
      var last := |lines| - 1;
      var records :- CollectedOf(lines[..last]);
      var keep :- KeepRecord(lines[last]);
      if !keep then Ok(records)
      else
        var c := CleanPostOf(lines[last].fields);
        if c.raised.None? then Ok(records + [c.after]) else Ok(records)
  }

  lemma {:induction false} CollectedErrPersists(lines: seq<Json>, n: nat)
    requires n <= |lines| && CollectedOf(lines[..n]).Err?
    ensures CollectedOf(lines) == CollectedOf(lines[..n])
    decreases |lines| - n
  {
    if n < |lines| {
      assert lines[..n + 1][..n] == lines[..n];
      CollectedErrPersists(lines, n + 1);
    } else {
      assert lines[..n] == lines;
    }
  }

  /** The main loop over the decoded lines of one file. */
  method CollectRecords(lines: seq<Json>) returns (r: Result<seq<map<string, Json>>>)
    ensures r == CollectedOf(lines)
  {
    var records: seq<map<string, Json>> := [];
    for i := 0 to |lines|
      invariant CollectedOf(lines[..i]) == Ok(records)
    {
      assert lines[..i + 1][..i] == lines[..i];
      var record := lines[i];
      var keep := KeepRecord(record);
      if keep.Err? {
        CollectedErrPersists(lines, i + 1);
        assert lines[..|lines|] == lines;
        return Err(keep.error);
      }
      if keep.value {
        var post := new PostObject(record.fields);
        var cleaned := post.CleanPost();
        if cleaned.Ok? {
          records := records + [cleaned.value.fields];
        }
      }
    }
    assert lines[..|lines|] == lines;
    return Ok(records);
  }

  /** Every collected record is a creation, not a reply, with a web
      address and no nested subject. */
  lemma {:induction false} CollectedRecordsShape(lines: seq<Json>)
    requires CollectedOf(lines).Ok?
    ensures forall k :: 0 <= k < |CollectedOf(lines).value| ==>
              var rec := CollectedOf(lines).value[k];
              "url" in rec && rec["url"].JStr? && "subject" !in rec &&
              "action" in rec && rec["action"] == JStr("create") && "reply" !in rec && "parent" !in rec
    decreases |lines|
  {
    if |lines| > 0 {
      CollectedRecordsShape(lines[..|lines| - 1]);
      CollectedRecordsStep(lines, CollectedOf(lines[..|lines| - 1]).value);
    }
  }

  lemma CollectedRecordsStep(lines: seq<Json>, records: seq<map<string, Json>>)
    requires |lines| > 0 && CollectedOf(lines).Ok?
    requires CollectedOf(lines[..|lines| - 1]) == Ok(records)
    requires forall k :: 0 <= k < |records| ==>
               "url" in records[k] && records[k]["url"].JStr? && "subject" !in records[k] &&
               "action" in records[k] && records[k]["action"] == JStr("create") &&
               "reply" !in records[k] && "parent" !in records[k]
    ensures forall k :: 0 <= k < |CollectedOf(lines).value| ==>
              var rec := CollectedOf(lines).value[k];
              "url" in rec && rec["url"].JStr? && "subject" !in rec &&
              "action" in rec && rec["action"] == JStr("create") && "reply" !in rec && "parent" !in rec
  {
    var line := lines[|lines| - 1];
    assert KeepRecord(line).Ok?;
    if KeepRecord(line).value && CleanPostOf(line.fields).raised.None? {
      CleanedRecordShape(line);
      assert CollectedOf(lines).value == records + [CleanPostOf(line.fields).after];
    } else {
      assert CollectedOf(lines).value == records;
    }
  }

  /** A kept record that cleans without raising is a creation, not a
      reply, with a web address and no nested subject. */
  lemma CleanedRecordShape(line: Json)
    requires KeepRecord(line) == Ok(true) && CleanPostOf(line.fields).raised.None?
    ensures var rec := CleanPostOf(line.fields).after;
            "url" in rec && rec["url"].JStr? && "subject" !in rec &&
            "action" in rec && rec["action"] == JStr("create") && "reply" !in rec && "parent" !in rec
  {
    CleanKeepsOtherFields(line.fields);
  }

  // ---------------------------------------------------------------------
  // The frame
  // ---------------------------------------------------------------------

  /** `df.type.map({...})`: the two known types shortened, anything else
      missing. */
  function TypeLabel(t: Json): (r: Json)
    ensures r == JStr("post") <==> t == JStr(PostType)
    ensures r == JStr("repost") <==> t == JStr(RepostType)
    ensures r != JStr("post") && r != JStr("repost") ==> r == JNull
  {
    if t == JStr(PostType) then JStr("post")
    else if t == JStr(RepostType) then JStr("repost")
    else JNull
  }

  /** One cell of the saved frame: the record's value for the column
      (missing when the record lacks it), with the type shortened and the
      languages joined. */
  function Cell(rec: map<string, Json>, column: string): Json {
    var v := DictGet(rec, column);
    if column == "type" then TypeLabel(v)
    else if column == "langs" then LangToString(v)
    else v
  }

  /** `pd.DataFrame.from_records(records)[COLUMNS2KEEP]` with the two
      column maps: a column that no record has does not exist in the frame
      and selecting it raises KeyError. */
  function FrameOf(records: seq<map<string, Json>>): (r: Result<seq<seq<Json>>>)
    ensures r.Err? <==> exists c :: c in Columns2Keep && forall k :: 0 <= k < |records| ==> c !in records[k]
    ensures r.Err? ==> r.error == KeyError
    ensures r.Ok? ==> |r.value| == |records| &&
                      forall k :: 0 <= k < |records| ==> r.value[k] == seq(|Columns2Keep|, j requires 0 <= j < |Columns2Keep| => Cell(records[k], Columns2Keep[j]))
  {
    if exists c :: c in Columns2Keep && forall k :: 0 <= k < |records| ==> c !in records[k] then Err(KeyError)
    else Ok(seq(|records|, k requires 0 <= k < |records| =>
              seq(|Columns2Keep|, j requires 0 <= j < |Columns2Keep| => Cell(records[k], Columns2Keep[j]))))
  }

  /** A file without any repost has no "subject_uri" column, so selecting
      the columns raises. */
  lemma NoRepostsNoFrame(records: seq<map<string, Json>>)
    requires forall k :: 0 <= k < |records| ==> "subject_uri" !in records[k]
    ensures FrameOf(records) == Err(KeyError)
  {
    assert "subject_uri" in Columns2Keep;
  }

  /** In a saved frame every type cell is "post", "repost" or missing. */
  lemma FrameTypes(records: seq<map<string, Json>>)
    requires FrameOf(records).Ok?
    ensures forall k :: 0 <= k < |records| ==>
              var t := FrameOf(records).value[k][0];
              t == JStr("post") || t == JStr("repost") || t == JNull
  {
    forall k | 0 <= k < |records|
      ensures var t := FrameOf(records).value[k][0]; t == JStr("post") || t == JStr("repost") || t == JNull
    {
      assert FrameOf(records).value[k][0] == Cell(records[k], "type");
    }
  }
}
