/** `/api/user/settings`: a signed-in user reads a projection of their record
    (`GET`) or changes their feed window and connection flag (`PATCH`). */
module UserSettings {
  import opened KV
  import opened Http

  const UserNotFound := "User not found"
  const NoValidUpdates := "No valid updates provided"
  const SettingsUpdated := "Settings updated successfully"
  const DefaultWindow := "4hours"

  /** `["1hour", "4hours", "8hours", "24hours"].includes(v)` */
  predicate IsTimeWindow(v: Value) {
    v.Str? && v.s in {"1hour", "4hours", "8hours", "24hours"}
  }

  /** The settings shown for a stored record: a falsy window shows as the
      default, the connection flag is true only for `true` or `"true"`, and a
      falsy refresh time shows as `null`. */
  function Project(rec: Record): (s: Settings)
    ensures s.email == Field(rec, "email")
    ensures Truthy(s.feedTimeWindow)
    ensures Truthy(Field(rec, "feedTimeWindow")) ==> s.feedTimeWindow == Field(rec, "feedTimeWindow")
    ensures s.blueskyConnected ==> Truthy(Field(rec, "blueskyConnected"))
    ensures Field(rec, "blueskyConnected").Bool? ==> s.blueskyConnected == Field(rec, "blueskyConnected").b
    ensures !Truthy(Field(rec, "feedTimeWindow")) ==> s.feedTimeWindow == Str(DefaultWindow)
    ensures s.blueskyConnected <==>
      Field(rec, "blueskyConnected") == Bool(true) || Field(rec, "blueskyConnected") == Str("true")
    ensures Truthy(Field(rec, "lastFeedRefresh")) ==> s.lastFeedRefresh == Field(rec, "lastFeedRefresh")
    ensures !Truthy(Field(rec, "lastFeedRefresh")) ==> s.lastFeedRefresh == Null
  {
    var fw := Field(rec, "feedTimeWindow");
    var bc := Field(rec, "blueskyConnected");
    var refreshed := Field(rec, "lastFeedRefresh");
    Settings(
      Field(rec, "email"),
      if Truthy(fw) then fw else Str(DefaultWindow),
      bc == Str("true") || bc == Bool(true),
      if Truthy(refreshed) then refreshed else Null)
  }

  /** `GET`: a pure read of `user:{email}`. */
  function GetSettings(db: DB, session: Principal): (r: Reply)
    ensures r.status == 401 <==> !SignedIn(session)
    ensures !SignedIn(session) ==> r == Unauthorized
    ensures SignedIn(session) && !Present(db, UserKey(session.value)) ==> r == Reply(404, Failure(UserNotFound))
    ensures r.status == 404 <==> SignedIn(session) && !Present(db, UserKey(session.value))
    ensures SignedIn(session) && Present(db, UserKey(session.value)) ==> r.status == 200
    ensures r.status == 200 ==> r.body == SettingsView(Project(db[UserKey(session.value)]))
  {
    if !SignedIn(session) then Unauthorized
    else if !Present(db, UserKey(session.value)) then Reply(404, Failure(UserNotFound))
    else Reply(200, SettingsView(Project(db[UserKey(session.value)])))
  }

  /** The fields of a `PATCH` body that pass validation; anything else is
      dropped without complaint. */
  function Accepted(feedTimeWindow: Value, blueskyConnected: Value): (u: Record)
    ensures "feedTimeWindow" in u <==> IsTimeWindow(feedTimeWindow)
    ensures "blueskyConnected" in u <==> blueskyConnected.Bool?
    ensures forall f :: f in u ==> f == "feedTimeWindow" || f == "blueskyConnected"
    ensures "feedTimeWindow" in u ==> u["feedTimeWindow"] == feedTimeWindow
    ensures "blueskyConnected" in u ==> u["blueskyConnected"] == blueskyConnected
  {
    (if IsTimeWindow(feedTimeWindow) then map["feedTimeWindow" := feedTimeWindow] else map[]) +
    (if blueskyConnected.Bool? then map["blueskyConnected" := blueskyConnected] else map[])
  }

  /** One `PATCH` request. There is no existence check: a missing record is
      created by the merge. */
  function PatchSettingsSpec(db: DB, session: Principal, feedTimeWindow: Value, blueskyConnected: Value, now: int): (o: Outcome)
    ensures !SignedIn(session) ==> o == Outcome(Unauthorized, db)
    ensures SignedIn(session) && !IsTimeWindow(feedTimeWindow) && !blueskyConnected.Bool? ==>
      o == Outcome(Reply(400, Failure(NoValidUpdates)), db)
    ensures o.reply.status == 200 <==> SignedIn(session) && (IsTimeWindow(feedTimeWindow) || blueskyConnected.Bool?)
    ensures o.reply.status == 200 ==>
      && o.reply.body == Acknowledged(SettingsUpdated)
      && o.db == Merge(db, UserKey(session.value), Accepted(feedTimeWindow, blueskyConnected)["updatedAt" := Int(now)])
  {
    var updates := Accepted(feedTimeWindow, blueskyConnected);
    if !SignedIn(session) then Outcome(Unauthorized, db)
    else if updates == map[] then
      assert !IsTimeWindow(feedTimeWindow) && !blueskyConnected.Bool?;
      Outcome(Reply(400, Failure(NoValidUpdates)), db)
    else
      Outcome(Reply(200, Acknowledged(SettingsUpdated)), Merge(db, UserKey(session.value), updates["updatedAt" := Int(now)]))
  }

  /** The `PATCH` handler builds the update field by field, then merges it. */
  method PatchSettings(kv: Store, session: Principal, feedTimeWindow: Value, blueskyConnected: Value, now: int) returns (r: Reply)
    modifies kv
    ensures Outcome(r, kv.data) == PatchSettingsSpec(old(kv.data), session, feedTimeWindow, blueskyConnected, now)
  {
    if !(session.Some? && session.value != "") {
      return Unauthorized;
    }
    var updates: Record := map[];
    if Truthy(feedTimeWindow) && IsTimeWindow(feedTimeWindow) {
      updates := updates["feedTimeWindow" := feedTimeWindow];
    }
    if blueskyConnected.Bool? {
      updates := updates["blueskyConnected" := blueskyConnected];
    }
    if updates == map[] {
      return Reply(400, Failure(NoValidUpdates));
    }
    assert updates == Accepted(feedTimeWindow, blueskyConnected);
    updates := updates["updatedAt" := Int(now)];
    kv.HSet(UserKey(session.value), updates);
    return Reply(200, Acknowledged(SettingsUpdated));
  }

  /** Reading back after a successful `PATCH` shows what was accepted, and for
      a field that was not accepted, what was shown before. */
  lemma PatchThenGet(db: DB, session: Principal, feedTimeWindow: Value, blueskyConnected: Value, now: int)
    requires SignedIn(session) && (IsTimeWindow(feedTimeWindow) || blueskyConnected.Bool?)
    ensures var view := GetSettings(PatchSettingsSpec(db, session, feedTimeWindow, blueskyConnected, now).db, session);
      var before := Project(Lookup(db, UserKey(session.value)));
      && view.status == 200
      && view.body.settings.feedTimeWindow == (if IsTimeWindow(feedTimeWindow) then feedTimeWindow else before.feedTimeWindow)
      && view.body.settings.blueskyConnected == (if blueskyConnected.Bool? then blueskyConnected.b else before.blueskyConnected)
      && view.body.settings.email == before.email
      && view.body.settings.lastFeedRefresh == before.lastFeedRefresh
  {
    var k := UserKey(session.value);
    var after := PatchSettingsSpec(db, session, feedTimeWindow, blueskyConnected, now).db;
    assert "updatedAt" in after[k];
  }
}
