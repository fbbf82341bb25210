/** `POST /api/waitlist`: public signup. A new email gets a fresh `waitlist`
    record; an email whose record already carries a known status gets a
    status-specific "already exists" answer and nothing is written. */
module Waitlist {
  import opened KV
  import opened Http
  import opened Access

  const InvalidEmail := "Valid email is required"
  const ActiveMessage := "Your account is active! Please use the login button to access the app."
  const DisabledMessage := "Your account is currently disabled. Please contact support."
  const WaitlistMessage := "You're already on the waitlist! We'll notify you when access is available."
  const AddedMessage := "Successfully added to waitlist!"

  /** `email && email.includes("@")` */
  predicate ValidEmail(email: string) {
    email != "" && '@' in email
  }

  /** The answer to a repeated signup, by the status already stored; `None`
      for a status that is none of the three, which falls through to a fresh
      signup. */
  function ExistingMessage(status: Value): (m: Option<string>)
    ensures m.Some? <==> IsKnownStatus(status)
  {
    if status == Str(Active) then Some(ActiveMessage)
    else if status == Str(Disabled) then Some(DisabledMessage)
    else if status == Str(Waitlisted) then Some(WaitlistMessage)
    else None
  }

  /** The fields a signup writes. */
  function NewUser(email: string, now: int): Record {
    map[
      "email" := Str(email),
      "status" := Str(Waitlisted),
      "createdAt" := Int(now),
      "lastLogin" := Null,
      "lastFeedRefresh" := Null,
      "feedTimeWindow" := Str("4hours"),
      "blueskyConnected" := Bool(false)]
  }

  /** An already-present record with a known status. */
  predicate Registered(db: DB, email: string) {
    Present(db, UserKey(email)) && IsKnownStatus(Status(db[UserKey(email)]))
  }

  /** One signup request on store `db` at time `now`. */
  function JoinSpec(db: DB, email: string, now: int): (o: Outcome)
    ensures o.reply.status == 400 <==> !ValidEmail(email)
    ensures !ValidEmail(email) ==> o == Outcome(Reply(400, Failure(InvalidEmail)), db)
    ensures o.reply.body.AlreadyExists? <==> ValidEmail(email) && Registered(db, email)
    ensures o.reply.body.AlreadyExists? ==>
      o.reply.status == 200 && o.db == db &&
      ExistingMessage(Status(db[UserKey(email)])) == Some(o.reply.body.message)
    ensures ValidEmail(email) && !Registered(db, email) ==>
      o.reply == Reply(200, Acknowledged(AddedMessage)) &&
      o.db == Merge(db, UserKey(email), NewUser(email, now))
    ensures forall k :: k in o.db && k != UserKey(email) ==> k in db && o.db[k] == db[k]
  {
    if !ValidEmail(email) then Outcome(Reply(400, Failure(InvalidEmail)), db)
    else if Present(db, UserKey(email)) && ExistingMessage(Status(db[UserKey(email)])).Some? then
      Outcome(Reply(200, AlreadyExists(ExistingMessage(Status(db[UserKey(email)])).value)), db)
    else
      Outcome(Reply(200, Acknowledged(AddedMessage)), Merge(db, UserKey(email), NewUser(email, now)))
  }

  /** The handler: validate, look the email up, then either answer from the
      stored status or write the fresh record. */
  method Join(kv: Store, email: string, now: int) returns (r: Reply)
    modifies kv
    ensures Outcome(r, kv.data) == JoinSpec(old(kv.data), email, now)
  {
    if email == "" || '@' !in email {
      return Reply(400, Failure(InvalidEmail));
    }
    var existing := kv.HGetAll(UserKey(email));
    if existing.Some? && existing.value != map[] {
      var status := Field(existing.value, "status");
      if status == Str(Active) {
        return Reply(200, AlreadyExists(ActiveMessage));
      } else if status == Str(Disabled) {
        return Reply(200, AlreadyExists(DisabledMessage));
      } else if status == Str(Waitlisted) {
        return Reply(200, AlreadyExists(WaitlistMessage));
      }
    }
    kv.HSet(UserKey(email), NewUser(email, now));
    return Reply(200, Acknowledged(AddedMessage));
  }

  /** Signing up twice leaves the store as one signup left it, and the second
      request is answered "already exists" (so `createdAt` keeps the first
      request's time). */
  lemma JoinTwice(db: DB, email: string, t1: int, t2: int)
    ensures JoinSpec(JoinSpec(db, email, t1).db, email, t2).db == JoinSpec(db, email, t1).db
    ensures ValidEmail(email) ==> JoinSpec(JoinSpec(db, email, t1).db, email, t2).reply.body.AlreadyExists?
  {
    var o1 := JoinSpec(db, email, t1);
    if ValidEmail(email) {
      assert Lookup(o1.db, UserKey(email))["status"] == Str(Waitlisted) || o1.db == db;
    }
  }

  /** A first signup creates exactly the `waitlist` record, timed `now`. */
  lemma JoinNew(db: DB, email: string, now: int)
    requires ValidEmail(email) && UserKey(email) !in db
    ensures JoinSpec(db, email, now).db == db[UserKey(email) := NewUser(email, now)]
    ensures Status(JoinSpec(db, email, now).db[UserKey(email)]) == Str(Waitlisted)
  {
    var created := NewUser(email, now);
    assert Lookup(db, UserKey(email)) + created == created;
  }

  /** A record whose status is none of the three names is reset to `waitlist`
      with a new `createdAt`; its fields outside the signup fields survive. */
  lemma JoinResetsUnknownStatus(db: DB, email: string, now: int, f: string)
    requires ValidEmail(email) && Present(db, UserKey(email))
    requires !IsKnownStatus(Status(db[UserKey(email)]))
    ensures Status(JoinSpec(db, email, now).db[UserKey(email)]) == Str(Waitlisted)
    ensures Field(JoinSpec(db, email, now).db[UserKey(email)], "createdAt") == Int(now)
    ensures f !in NewUser(email, now) ==>
      Field(JoinSpec(db, email, now).db[UserKey(email)], f) == Field(db[UserKey(email)], f)
  {
  }
}
