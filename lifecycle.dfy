/** How the handlers fit together: the store invariants every request keeps,
    the access state machine (only an admin's status change opens or closes
    sign-in), the three admin gates agreeing, and the round trips between
    handlers. */
module Lifecycle {
  import opened KV
  import opened Text
  import opened Http
  import opened Access
  import opened Listing
  import opened Waitlist
  import opened AdminUsers
  import opened UserSettings
  import opened UserHistory
  import opened GenerateContent
  import opened Auth
  import opened Middleware

  /** Every stored `blueskyConnected` is a boolean. */
  predicate FlagsBoolean(db: DB) {
    forall k :: k in db && "blueskyConnected" in db[k] ==> db[k]["blueskyConnected"].Bool?
  }

  /** The store invariant the handlers keep between them. */
  predicate Consistent(db: DB) {
    StatusesKnown(db) && NoEmptyHashes(db) && FlagsBoolean(db)
  }

  /** A merge of non-empty fields whose status (if any) is known and whose
      connection flag (if any) is a boolean keeps the invariant. */
  lemma MergeConsistent(db: DB, k: string, fields: Record, written: string)
    requires Consistent(db) && written in fields
    requires "status" in fields ==> IsKnownStatus(fields["status"])
    requires "blueskyConnected" in fields ==> fields["blueskyConnected"].Bool?
    ensures Consistent(Merge(db, k, fields))
  {
    var r := Merge(db, k, fields);
    assert written in r[k];
    assert "status" in r[k] ==> IsKnownStatus(r[k]["status"]) by {
      if "status" in r[k] && "status" !in fields {
        assert Field(r[k], "status") == Field(Lookup(db, k), "status");
      }
    }
    assert "blueskyConnected" in r[k] ==> r[k]["blueskyConnected"].Bool? by {
      if "blueskyConnected" in r[k] && "blueskyConnected" !in fields {
        assert Field(r[k], "blueskyConnected") == Field(Lookup(db, k), "blueskyConnected");
      }
    }
  }

  /** A merge that writes no status keeps every status. */
  lemma MergeKeepsStatuses(db: DB, k: string, fields: Record)
    requires "status" !in fields
    ensures StatusesKept(db, Merge(db, k, fields))
  {
    var r := Merge(db, k, fields);
    assert Status(r[k]) == Status(Lookup(db, k));
  }

  lemma JoinKeeps(db: DB, email: string, now: int)
    requires Consistent(db)
    ensures Consistent(JoinSpec(db, email, now).db)
    ensures StatusesKept(db, JoinSpec(db, email, now).db)
  {
    var o := JoinSpec(db, email, now);
    if ValidEmail(email) && !Registered(db, email) {
      MergeConsistent(db, UserKey(email), NewUser(email, now), "status");
      assert Status(o.db[UserKey(email)]) == Str(Waitlisted);
    }
  }

  lemma SetStatusKeeps(db: DB, session: Principal, email: string, status: string, now: int)
    requires Consistent(db)
    ensures Consistent(SetStatusSpec(db, session, email, status, now).db)
  {
    if SetStatusSpec(db, session, email, status, now).reply.status == 200 {
      MergeConsistent(db, UserKey(email), StatusFields(status, now, session.value), "status");
    }
  }

  lemma PatchSettingsKeeps(db: DB, session: Principal, feedTimeWindow: Value, blueskyConnected: Value, now: int)
    requires Consistent(db)
    ensures Consistent(PatchSettingsSpec(db, session, feedTimeWindow, blueskyConnected, now).db)
    ensures StatusesKept(db, PatchSettingsSpec(db, session, feedTimeWindow, blueskyConnected, now).db)
  {
    if PatchSettingsSpec(db, session, feedTimeWindow, blueskyConnected, now).reply.status == 200 {
      var updates := Accepted(feedTimeWindow, blueskyConnected)["updatedAt" := Int(now)];
      MergeConsistent(db, UserKey(session.value), updates, "updatedAt");
      MergeKeepsStatuses(db, UserKey(session.value), updates);
    }
  }

  lemma ToggleKeeps(db: DB, session: Principal, id: string, action: string)
    requires Consistent(db)
    ensures Consistent(ToggleSpec(db, session, id, action).db)
    ensures StatusesKept(db, ToggleSpec(db, session, id, action).db)
  {
    if SignedIn(session) && action == ToggleFavorite && id in db {
      var flip := map["favorited" := Bool(!Truthy(Field(db[id], "favorited")))];
      MergeConsistent(db, id, flip, "favorited");
      MergeKeepsStatuses(db, id, flip);
    }
  }

  lemma GenerateKeeps(texts: Templates, db: DB, session: Principal, kind: string, window: Value, now: nat)
    requires Consistent(db)
    ensures Consistent(GenerateSpec(texts, db, session, kind, window, now).db)
    ensures StatusesKept(db, GenerateSpec(texts, db, session, kind, window, now).db)
  {
    if GenerateSpec(texts, db, session, kind, window, now).reply.status == 200 {
      var email := session.value;
      var hk := HistoryKey(email, now);
      var entry := EntryFields(kind, window, Template(texts, ParseType(kind).value, window), now);
      var stamp := map["lastFeedRefresh" := Int(now)];
      var withEntry := Merge(db, hk, entry);
      MergeConsistent(db, hk, entry, "createdAt");
      MergeKeepsStatuses(db, hk, entry);
      MergeConsistent(withEntry, UserKey(email), stamp, "lastFeedRefresh");
      MergeKeepsStatuses(withEntry, UserKey(email), stamp);
    }
  }

  lemma SignInKeeps(db: DB, email: Principal, storeError: bool, now: int)
    requires Consistent(db)
    ensures Consistent(SignInSpec(db, email, storeError, now).db)
    ensures StatusesKept(db, SignInSpec(db, email, storeError, now).db)
  {
    if SignInSpec(db, email, storeError, now).allowed {
      var stamp := map["lastLogin" := Int(now)];
      MergeConsistent(db, UserKey(email.value), stamp, "lastLogin");
      MergeKeepsStatuses(db, UserKey(email.value), stamp);
    }
  }

  /** Under a request that keeps the statuses, nobody gains sign-in. */
  lemma KeptStatusesGrantNothing(db: DB, db': DB, email: string)
    requires StatusesKept(db, db')
    ensures IsActive(db', email) ==> IsActive(db, email)
    ensures IsActive(db, email) ==> IsActive(db', email)
  {
  }

  /** A fresh signup cannot sign in: the record it writes is `waitlist`. */
  lemma SignupCannotSignIn(db: DB, email: string, now: int, t: int)
    requires !IsActive(db, email)
    ensures !SignInSpec(JoinSpec(db, email, now).db, Some(email), false, t).allowed
  {
    var o := JoinSpec(db, email, now);
    if ValidEmail(email) && !Registered(db, email) {
      assert Status(o.db[UserKey(email)]) == Str(Waitlisted);
    }
  }

  /** An admin activating an existing account lets it sign in; disabling or
      waitlisting it shuts it out. */
  lemma StatusChangeDecidesSignIn(db: DB, admin: Principal, email: string, status: string, now: int, t: int)
    requires IsAdmin(admin) && email != "" && IsStatusName(status) && Present(db, UserKey(email))
    ensures SignInSpec(SetStatusSpec(db, admin, email, status, now).db, Some(email), false, t).allowed <==> status == Active
  {
    var after := SetStatusSpec(db, admin, email, status, now).db;
    assert Status(after[UserKey(email)]) == Str(status);
  }

  /** The three admin tests are one test: the admin API's 403, the guard on
      `/admin` pages and the session flag all come down to the email ending
      with the trusted domain. */
  lemma AdminGatesAgree(db: DB, p: Principal, email: string, status: string, now: int, path: string)
    requires StartsWith(path, AdminPrefix)
    ensures SetStatusSpec(db, p, email, status, now).reply.status != 403 <==> IsAdmin(p)
    ensures Route(path, Some(Token(p))) == Next <==> IsAdmin(p)
    ensures Session(SessionUser(p, None)).isAdmin == Some(true) <==> IsAdmin(p)
  {
    AdminPageGate(path, p);
    SessionFlagIsAdminGate(SessionUser(p, None));
  }

  /** When every connection flag is a boolean, the settings page and the
      generator agree on whether the account is connected. */
  lemma ConnectionViewsAgree(db: DB, email: string)
    requires FlagsBoolean(db) && email != "" && Present(db, UserKey(email))
    ensures GetSettings(db, Some(email)).body.settings.blueskyConnected <==> Connected(db, email)
  {
  }

  /** Connecting through the settings `PATCH` lets the same user generate. */
  lemma ConnectThenGenerate(texts: Templates, db: DB, email: string, window: Value, now: int, kind: string, t: nat)
    requires email != "" && ParseType(kind).Some?
    ensures var connected := PatchSettingsSpec(db, Some(email), window, Bool(true), now).db;
      GenerateSpec(texts, connected, Some(email), kind, window, t).reply.status == 200
  {
    var connected := PatchSettingsSpec(db, Some(email), window, Bool(true), now).db;
    assert Field(connected[UserKey(email)], "blueskyConnected") == Bool(true);
  }

  /** A fresh signup is not connected, so it cannot generate. */
  lemma SignupCannotGenerate(texts: Templates, db: DB, email: string, now: int, kind: string, window: Value, t: nat)
    requires ValidEmail(email) && !Registered(db, email) && ParseType(kind).Some?
    ensures var joined := JoinSpec(db, email, now).db;
      GenerateSpec(texts, joined, Some(email), kind, window, t).reply == Reply(400, Failure(NotConnected))
  {
    var joined := JoinSpec(db, email, now).db;
    assert Field(joined[UserKey(email)], "blueskyConnected") == Bool(false);
  }

  /** A generated entry's key is scanned for its owner's history listing and
      for no other user's, and the entry shows up in its owner's listing
      whatever order the scan took. */
  lemma GeneratedIsListed(texts: Templates, db: DB, email: string, kind: string, window: Value, now: nat,
                          other: string, ks: seq<string>, history: seq<Record>)
    requires GenerateSpec(texts, db, Some(email), kind, window, now).reply.status == 200
    requires ':' !in email && ':' !in other
    requires var after := GenerateSpec(texts, db, Some(email), kind, window, now).db;
      Scanned(after, HistoryPrefix(other), ks) && multiset(history) == multiset(Entries(after, ks))
    ensures HistoryKey(email, now) in ks <==> other == email
    ensures other == email ==>
      var after := GenerateSpec(texts, db, Some(email), kind, window, now).db;
      AsEntry(HistoryKey(email, now), after[HistoryKey(email, now)]) in history
  {
    var after := GenerateSpec(texts, db, Some(email), kind, window, now).db;
    var hk := HistoryKey(email, now);
    HistoryKeyOwner(email, other, now);
    assert hk in after;
    if other == email {
      assert "createdAt" in after[hk];
      var x := AsEntry(hk, after[hk]);
      EntriesMembers(after, ks, x);
      assert x in multiset(Entries(after, ks));
    }
  }

  /** In a listing of the scan of `ks`, every entry other than the one at
      `hk` comes from a hash that carries an older `createdAt`. */
  lemma OthersOlder(db: DB, after: DB, prefix: string, hk: string, now: int, ks: seq<string>, history: seq<Record>)
    requires Scanned(after, prefix, ks) && multiset(history) == multiset(Entries(after, ks))
    requires hk in after
    requires forall k :: k in after && StartsWith(k, prefix) && k != hk ==> k in db && after[k] == db[k]
    requires forall k :: k in db && StartsWith(k, prefix) && k != hk ==> CreatedAt(db[k]) < now
    ensures forall y :: y in history && y != AsEntry(hk, after[hk]) ==> CreatedAt(y) < now
  {
    forall y | y in history && y != AsEntry(hk, after[hk])
      ensures CreatedAt(y) < now
    {
      assert y in multiset(Entries(after, ks));
      EntriesMembers(after, ks, y);
      var k :| k in ks && Present(after, k) && y == AsEntry(k, after[k]);
      assert Field(y, "createdAt") == Field(db[k], "createdAt");
    }
  }

  /** When the new entry is newer than every entry the owner had, it heads
      the owner's newest-first listing. */
  lemma GeneratedIsNewest(texts: Templates, db: DB, email: string, kind: string, window: Value, now: nat,
                          ks: seq<string>, history: seq<Record>)
    requires GenerateSpec(texts, db, Some(email), kind, window, now).reply.status == 200
    requires ':' !in email
    requires var after := GenerateSpec(texts, db, Some(email), kind, window, now).db;
      Scanned(after, HistoryPrefix(email), ks) && multiset(history) == multiset(Entries(after, ks))
    requires NewestFirst(history)
    requires forall k :: k in db && StartsWith(k, HistoryPrefix(email)) && k != HistoryKey(email, now) ==>
      CreatedAt(db[k]) < now
    ensures var after := GenerateSpec(texts, db, Some(email), kind, window, now).db;
      |history| > 0 && history[0] == AsEntry(HistoryKey(email, now), after[HistoryKey(email, now)])
  {
    var after := GenerateSpec(texts, db, Some(email), kind, window, now).db;
    var hk := HistoryKey(email, now);
    var prefix := HistoryPrefix(email);
    var x := AsEntry(hk, after[hk]);
    GeneratedIsListed(texts, db, email, kind, window, now, email, ks, history);
    assert CreatedAt(x) == now by {
      assert after[hk]["createdAt"] == Int(now);
      assert Field(x, "createdAt") == Field(after[hk], "createdAt");
    }
    forall k | k in after && StartsWith(k, prefix) && k != hk
      ensures k in db && after[k] == db[k]
    {
      assert k[0] == prefix[0] == 'h';
      assert k != UserKey(email);
    }
    OthersOlder(db, after, prefix, hk, now, ks, history);
    NewestIsFirst(history, x);
  }
}
