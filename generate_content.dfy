/** `POST /api/generate-content`: a signed-in, connected user asks for one of
    three canned summaries. The handler records the result as a history entry
    and stamps the user's `lastFeedRefresh`. */
module GenerateContent {
  import opened KV
  import opened Text
  import opened Http

  const InvalidContentType := "Invalid content type"
  const NotConnected := "BlueSky account not connected"
  const WordsPerMinute := 200

  datatype ContentType = Quick | WhatsGoingOn | DeepDive

  function TypeName(t: ContentType): string {
    match t
    case Quick => "quick"
    case WhatsGoingOn => "whats-going-on"
    case DeepDive => "deep-dive"
  }

  /** `type && ["quick", "whats-going-on", "deep-dive"].includes(type)` */
  function ParseType(s: string): (t: Option<ContentType>)
    ensures t.Some? ==> TypeName(t.value) == s
  {
    if s == "quick" then Some(Quick)
    else if s == "whats-going-on" then Some(WhatsGoingOn)
    else if s == "deep-dive" then Some(DeepDive)
    else None
  }

  /** Every content type is accepted under its own name. */
  lemma ParseTypeName(t: ContentType)
    ensures ParseType(TypeName(t)) == Some(t)
  {
  }

  /** `${v}` inside a template literal. `Null` renders as `undefined`, the
      missing-field case. */
  function Render(v: Value): (r: string)
    ensures v.Str? ==> r == v.s
    ensures !v.Str? ==> |r| >= 1
  {
    match v
    case Str(s) => s
    case Bool(b) => if b then "true" else "false"
    case Int(i) => IntToString(i)
    case Null => "undefined"
  }

  /** The fixed template texts. The quick template is cut where it
      interpolates the requested window into its heading; the other two
      interpolate nothing. The texts themselves are left abstract: every
      handler takes them as a parameter. */
  datatype Templates = Templates(
    quickHeading: string,
    quickBody: string,
    whatsGoingOn: string,
    deepDive: string)

  /** `contentTemplates[type]` for a requested window. */
  function Template(texts: Templates, t: ContentType, window: Value): (c: string)
    ensures t == Quick ==>
      var h := |texts.quickHeading|;
      && |c| == h + |Render(window)| + |texts.quickBody|
      && c[..h] == texts.quickHeading
      && c[h..h + |Render(window)|] == Render(window)
      && c[h + |Render(window)|..] == texts.quickBody
    ensures t == WhatsGoingOn ==> c == texts.whatsGoingOn
    ensures t == DeepDive ==> c == texts.deepDive
  {
    match t
    case Quick => texts.quickHeading + Render(window) + texts.quickBody
    case WhatsGoingOn => texts.whatsGoingOn
    case DeepDive => texts.deepDive
  }

  /** Only the quick template depends on the window. */
  lemma TemplateIgnoresWindow(texts: Templates, t: ContentType, w1: Value, w2: Value)
    requires t != Quick
    ensures Template(texts, t, w1) == Template(texts, t, w2)
  {
  }

  /** The quick template shows the window: equal contents mean equally
      rendered windows. */
  lemma QuickTemplateShowsWindow(texts: Templates, w1: Value, w2: Value)
    requires Template(texts, Quick, w1) == Template(texts, Quick, w2)
    ensures Render(w1) == Render(w2)
  {
    var c1, c2 := Template(texts, Quick, w1), Template(texts, Quick, w2);
    var h := |texts.quickHeading|;
    assert |Render(w1)| == |Render(w2)|;
    assert c1[h..h + |Render(w1)|] == Render(w1);
    assert c2[h..h + |Render(w2)|] == Render(w2);
  }

  /** `content.split(" ").length`: one more than the number of spaces. */
  function WordCount(content: string): (n: nat)
    ensures n == CountOf(content, ' ') + 1
    ensures n >= 1
  {
    |Split(content, ' ')|
  }

  /** `Math.ceil(words / 200)`: the fewest whole minutes that cover all the
      words at 200 words a minute. */
  function ReadingTime(words: nat): (minutes: nat)
    ensures WordsPerMinute * (minutes - 1) < words <= WordsPerMinute * minutes
  {
    (words + WordsPerMinute - 1) / WordsPerMinute
  }

  /** The fields written to the new history entry. */
  function EntryFields(kind: string, window: Value, content: string, now: int): Record {
    var words := WordCount(content);
    map[
      "type" := Str(kind),
      "feedTimeWindow" := window,
      "content" := Str(content),
      "createdAt" := Int(now),
      "wordCount" := Int(words),
      "readingTime" := Int(ReadingTime(words))]
  }

  /** `userSettings?.blueskyConnected` is truthy. */
  predicate Connected(db: DB, email: string) {
    Truthy(Field(Lookup(db, UserKey(email)), "blueskyConnected"))
  }

  /** One generation request at `now` (epoch milliseconds). */
  function GenerateSpec(texts: Templates, db: DB, session: Principal, kind: string, window: Value, now: nat): (o: Outcome)
    ensures !SignedIn(session) ==> o == Outcome(Unauthorized, db)
    ensures SignedIn(session) && ParseType(kind).None? ==>
      o == Outcome(Reply(400, Failure(InvalidContentType)), db)
    ensures SignedIn(session) && ParseType(kind).Some? && !Connected(db, session.value) ==>
      o == Outcome(Reply(400, Failure(NotConnected)), db)
    ensures o.reply.status == 200 <==> SignedIn(session) && ParseType(kind).Some? && Connected(db, session.value)
    ensures o.reply.status == 200 ==>
      var email := session.value;
      var hk := HistoryKey(email, now);
      var content := Template(texts, ParseType(kind).value, window);
      && o.reply.body == Content(content)
      && o.db.Keys == db.Keys + {hk}
      && o.db[hk] == Lookup(db, hk) + EntryFields(kind, window, content, now)
      && UserKey(email) in db
      && Field(o.db[UserKey(email)], "lastFeedRefresh") == Int(now)
      && (forall f :: f != "lastFeedRefresh" ==> Field(o.db[UserKey(email)], f) == Field(db[UserKey(email)], f))
      && o.db[UserKey(email)].Keys == db[UserKey(email)].Keys + {"lastFeedRefresh"}
      && (forall f :: f in db[UserKey(email)] && f != "lastFeedRefresh" ==>
            o.db[UserKey(email)][f] == db[UserKey(email)][f])
      && (forall k :: k in db && k != hk && k != UserKey(email) ==> o.db[k] == db[k])
  {
    if !SignedIn(session) then Outcome(Unauthorized, db)
    else if ParseType(kind).None? then Outcome(Reply(400, Failure(InvalidContentType)), db)
    else if !Connected(db, session.value) then Outcome(Reply(400, Failure(NotConnected)), db)
    else
      var email := session.value;
      var content := Template(texts, ParseType(kind).value, window);
      var hk := HistoryKey(email, now);
      var withEntry := Merge(db, hk, EntryFields(kind, window, content, now));
      assert hk != UserKey(email) by {
        assert hk[0] == 'h' && UserKey(email)[0] == 'u';
      }
      assert Lookup(withEntry, UserKey(email)) == db[UserKey(email)];
      var stamp := map["lastFeedRefresh" := Int(now)];
      var after := Merge(withEntry, UserKey(email), stamp);
      assert after[UserKey(email)] == db[UserKey(email)] + stamp;
      assert after[UserKey(email)].Keys == db[UserKey(email)].Keys + {"lastFeedRefresh"};
      Outcome(Reply(200, Content(content)), after)
  }

  /** The handler: session, type and connection checks, then two merges, the
      history entry first and the user's refresh time second. */
  method Generate(texts: Templates, kv: Store, session: Principal, kind: string, window: Value, now: nat) returns (r: Reply)
    modifies kv
    ensures Outcome(r, kv.data) == GenerateSpec(texts, old(kv.data), session, kind, window, now)
  {
    if !(session.Some? && session.value != "") {
      return Unauthorized;
    }
    if kind == "" || !(kind == "quick" || kind == "whats-going-on" || kind == "deep-dive") {
      return Reply(400, Failure(InvalidContentType));
    }
    var userSettings := kv.HGetAll(UserKey(session.value));
    if userSettings.None? || !Truthy(Field(userSettings.value, "blueskyConnected")) {
      return Reply(400, Failure(NotConnected));
    }
    var content := Template(texts, ParseType(kind).value, window);
    var historyKey := HistoryKey(session.value, now);
    var words := |Split(content, ' ')|;
    var entry := map[
      "type" := Str(kind),
      "feedTimeWindow" := window,
      "content" := Str(content),
      "createdAt" := Int(now),
      "wordCount" := Int(words),
      "readingTime" := Int((words + WordsPerMinute - 1) / WordsPerMinute)];
    assert entry == EntryFields(kind, window, content, now);
    kv.HSet(historyKey, entry);
    kv.HSet(UserKey(session.value), map["lastFeedRefresh" := Int(now)]);
    return Reply(200, Content(content));
  }

  /** The entry of a first generation at `now` holds exactly the written
      fields; its word count is at least one and its reading time is the
      ceiling of words over 200. */
  lemma GeneratedEntry(texts: Templates, db: DB, session: Principal, kind: string, window: Value, now: nat)
    requires GenerateSpec(texts, db, session, kind, window, now).reply.status == 200
    requires HistoryKey(session.value, now) !in db
    ensures var entry := GenerateSpec(texts, db, session, kind, window, now).db[HistoryKey(session.value, now)];
      && entry == EntryFields(kind, window, Template(texts, ParseType(kind).value, window), now)
      && entry["wordCount"].i >= 1
      && 200 * (entry["readingTime"].i - 1) < entry["wordCount"].i <= 200 * entry["readingTime"].i
      && entry["createdAt"] == Int(now)
      && "favorited" !in entry
  {
    var content := Template(texts, ParseType(kind).value, window);
    var fields := EntryFields(kind, window, content, now);
    assert Lookup(db, HistoryKey(session.value, now)) + fields == fields;
  }
}
