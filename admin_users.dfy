/** `/api/admin/users`: the admin panel's API. `GET` lists every user record,
    newest first; `PATCH` moves one user to another status. Both demand a
    session whose email ends with the trusted domain, and answer 403 otherwise
    (no redirect: that is the routing layer's job). */
module AdminUsers {
  import opened KV
  import opened Text
  import opened Http
  import opened Access
  import opened Listing

  const MissingFields := "Email and status are required"
  const InvalidStatus := "Invalid status"
  const UserNotFound := "User not found"

  /** The non-empty hashes at `ks`, in the order of `ks`: what the loop over
      the scanned keys pushes. */
  function PresentRecords(db: DB, ks: seq<string>): (r: seq<Record>)
    ensures |r| <= |ks|
  {
    if ks == [] then []
    else
      var last := ks[|ks| - 1];
      PresentRecords(db, ks[..|ks| - 1]) + (if Present(db, last) then [db[last]] else [])
  }

  /** A record is collected exactly when some key of `ks` holds it. */
  lemma {:induction false} PresentRecordsMembers(db: DB, ks: seq<string>, x: Record)
    ensures x in PresentRecords(db, ks) <==> exists k :: k in ks && Present(db, k) && db[k] == x
  {
    if ks != [] {
      var init, last := ks[..|ks| - 1], ks[|ks| - 1];
      assert ks == init + [last];
      PresentRecordsMembers(db, init, x);
      if x in PresentRecords(db, ks) && x !in PresentRecords(db, init) {
        assert Present(db, last) && db[last] == x;
      }
    }
  }

  /** `GET`: the listing is, in some order the store chose for its keys, the
      non-empty records under `user:`, newest first. */
  method ListUsers(kv: Store, session: Principal) returns (r: Reply)
    ensures !IsAdmin(session) ==> r == Forbidden
    ensures IsAdmin(session) ==>
      && r.status == 200 && r.body.Users?
      && NewestFirst(r.body.users)
      && exists ks :: Scanned(kv.data, UserPrefix, ks) &&
           multiset(r.body.users) == multiset(PresentRecords(kv.data, ks))
  {
    if !IsAdmin(session) {
      return Forbidden;
    }
    var keys := kv.Keys(UserPrefix);
    var users: seq<Record> := [];
    for i := 0 to |keys|
      invariant users == PresentRecords(kv.data, keys[..i])
    {
      var userData := kv.HGetAll(keys[i]);
      if userData.Some? && userData.value != map[] {
        users := users + [userData.value];
      }
      assert keys[..i + 1][..i] == keys[..i];
    }
    assert keys[..|keys|] == keys;
    users := SortNewestFirst(users);
    return Reply(200, Users(users));
  }

  /** Whatever order the scan took, the listing holds exactly the non-empty
      records stored under `user:` keys. */
  lemma ListedUsers(db: DB, ks: seq<string>, users: seq<Record>, x: Record)
    requires Scanned(db, UserPrefix, ks)
    requires multiset(users) == multiset(PresentRecords(db, ks))
    ensures x in users <==> exists k :: k in db && StartsWith(k, UserPrefix) && db[k] != map[] && db[k] == x
  {
    assert x in users <==> x in multiset(PresentRecords(db, ks));
    PresentRecordsMembers(db, ks, x);
  }

  /** The fields a status change merges into the target record. */
  function StatusFields(status: string, now: int, admin: string): Record {
    map["status" := Str(status), "updatedAt" := Int(now), "updatedBy" := Str(admin)]
  }

  /** One `PATCH` request by `session` setting `email` to `status` at `now`. */
  function SetStatusSpec(db: DB, session: Principal, email: string, status: string, now: int): (o: Outcome)
    ensures !IsAdmin(session) ==> o == Outcome(Forbidden, db)
    ensures o.reply.status != 200 ==> o.db == db
    ensures IsAdmin(session) && (email == "" || status == "") ==>
      o.reply == Reply(400, Failure(MissingFields))
    ensures IsAdmin(session) && email != "" && status != "" && !IsStatusName(status) ==>
      o.reply == Reply(400, Failure(InvalidStatus))
    ensures IsAdmin(session) && email != "" && IsStatusName(status) && !Present(db, UserKey(email)) ==>
      o.reply == Reply(404, Failure(UserNotFound))
    ensures o.reply.status == 200 <==>
      IsAdmin(session) && email != "" && IsStatusName(status) && Present(db, UserKey(email))
    ensures o.reply.status == 200 ==>
      && o.reply.body == Acknowledged("User " + email + " updated to " + status)
      && o.db == Merge(db, UserKey(email), StatusFields(status, now, session.value))
  {
    if !IsAdmin(session) then Outcome(Forbidden, db)
    else if email == "" || status == "" then Outcome(Reply(400, Failure(MissingFields)), db)
    else if !IsStatusName(status) then Outcome(Reply(400, Failure(InvalidStatus)), db)
    else if !Present(db, UserKey(email)) then Outcome(Reply(404, Failure(UserNotFound)), db)
    else
      Outcome(Reply(200, Acknowledged("User " + email + " updated to " + status)),
              Merge(db, UserKey(email), StatusFields(status, now, session.value)))
  }

  /** The `PATCH` handler: the admin gate, the two input checks, the existence
      check, then one merge into `user:{email}`. */
  method SetStatus(kv: Store, session: Principal, email: string, status: string, now: int) returns (r: Reply)
    modifies kv
    ensures Outcome(r, kv.data) == SetStatusSpec(old(kv.data), session, email, status, now)
  {
    if !(session.Some? && EndsWith(session.value, TrustedSuffix)) {
      return Forbidden;
    }
    if email == "" || status == "" {
      return Reply(400, Failure(MissingFields));
    }
    if !(status == Active || status == Waitlisted || status == Disabled) {
      return Reply(400, Failure(InvalidStatus));
    }
    var existingUser := kv.HGetAll(UserKey(email));
    if existingUser.None? || existingUser.value == map[] {
      return Reply(404, Failure(UserNotFound));
    }
    kv.HSet(UserKey(email), StatusFields(status, now, session.value));
    return Reply(200, Acknowledged("User " + email + " updated to " + status));
  }

  /** An unknown status name is refused before the target is looked up: the
      answer is the same whatever the store holds. */
  lemma InvalidStatusIgnoresStore(db1: DB, db2: DB, session: Principal, email: string, status: string, now: int)
    requires !IsStatusName(status)
    ensures SetStatusSpec(db1, session, email, status, now).reply == SetStatusSpec(db2, session, email, status, now).reply
    ensures SetStatusSpec(db1, session, email, status, now).reply.status in {400, 403}
  {
  }

  /** Every move between the three states is open to an admin, and it leaves
      every other field of the record and every other key as it was. */
  lemma AnyTransition(db: DB, session: Principal, email: string, status: string, now: int, f: string)
    requires IsAdmin(session) && email != "" && IsStatusName(status) && Present(db, UserKey(email))
    requires f != "status" && f != "updatedAt" && f != "updatedBy"
    ensures Status(SetStatusSpec(db, session, email, status, now).db[UserKey(email)]) == Str(status)
    ensures Field(SetStatusSpec(db, session, email, status, now).db[UserKey(email)], f) == Field(db[UserKey(email)], f)
    ensures SetStatusSpec(db, session, email, status, now).db.Keys == db.Keys
  {
  }
}
