/** The sign-in layer's two decisions: whether an account may sign in (only
    an `active` record may, and signing in stamps `lastLogin`), and the admin
    flag the session carries. */
module Auth {
  import opened KV
  import opened Http
  import opened Access

  /** The callback's answer and the store it leaves behind. */
  datatype Verdict = Verdict(allowed: bool, db: DB)

  /** The account at `email` has a record whose status is exactly `active`. */
  predicate IsActive(db: DB, email: string) {
    Status(Lookup(db, UserKey(email))) == Str(Active)
  }

  /** The `signIn` callback for an identity whose email is `email`, at `now`.
      `storeError` is the store failing on the read; the callback then denies. */
  function SignInSpec(db: DB, email: Principal, storeError: bool, now: int): (v: Verdict)
    ensures v.allowed <==> SignedIn(email) && !storeError && IsActive(db, email.value)
    ensures !v.allowed ==> v.db == db
    ensures v.allowed ==> v.db == Merge(db, UserKey(email.value), map["lastLogin" := Int(now)])
  {
    if !SignedIn(email) || storeError then Verdict(false, db)
    else if !Present(db, UserKey(email.value)) then Verdict(false, db)
    else if Status(db[UserKey(email.value)]) != Str(Active) then Verdict(false, db)
    else Verdict(true, Merge(db, UserKey(email.value), map["lastLogin" := Int(now)]))
  }

  /** The callback: look the record up, demand `active`, stamp the login. */
  method SignIn(kv: Store, email: Principal, storeError: bool, now: int) returns (allowed: bool)
    modifies kv
    ensures Verdict(allowed, kv.data) == SignInSpec(old(kv.data), email, storeError, now)
  {
    if !(email.Some? && email.value != "") {
      return false;
    }
    if storeError {
      return false;
    }
    var existingUser := kv.HGetAll(UserKey(email.value));
    if existingUser.None? || existingUser.value == map[] {
      return false;
    }
    var status := Field(existingUser.value, "status");
    if status != Str(Active) {
      return false;
    }
    kv.HSet(UserKey(email.value), map["lastLogin" := Int(now)]);
    return true;
  }

  /** Signing in changes only `lastLogin`: the account stays active, so the
      next attempt is allowed too. */
  lemma SignInKeepsAccess(db: DB, email: Principal, t1: int, t2: int)
    requires SignInSpec(db, email, false, t1).allowed
    ensures IsActive(SignInSpec(db, email, false, t1).db, email.value)
    ensures SignInSpec(SignInSpec(db, email, false, t1).db, email, false, t2).allowed
  {
    var after := SignInSpec(db, email, false, t1).db;
    assert Status(Lookup(after, UserKey(email.value))) == Status(Lookup(db, UserKey(email.value)));
  }

  /** The user part of a session: its email, and the admin flag once the
      `session` callback has set it. */
  datatype SessionUser = SessionUser(email: Principal, isAdmin: Option<bool>)

  /** The `session` callback: a session with an email gets the flag "the
      email ends with the trusted domain"; one without keeps whatever it had. */
  function Session(s: SessionUser): (r: SessionUser)
    ensures r.email == s.email
    ensures SignedIn(s.email) ==> (r.isAdmin == Some(true) <==> IsAdmin(s.email))
    ensures SignedIn(s.email) ==> r.isAdmin.Some?
    ensures !SignedIn(s.email) ==> r == s
  {
    if SignedIn(s.email) then s.(isAdmin := Some(IsAdminEmail(s.email.value))) else s
  }

  /** Running the callback again changes nothing. */
  lemma SessionIdempotent(s: SessionUser)
    ensures Session(Session(s)) == Session(s)
  {
  }

  /** On a session that carried no flag, the flag the callback sets is the
      same test the admin API applies. */
  lemma SessionFlagIsAdminGate(s: SessionUser)
    requires s.isAdmin.None?
    ensures Session(s).isAdmin == Some(true) <==> IsAdmin(s.email)
  {
    if IsAdmin(s.email) {
      AdminIsSignedIn(s.email);
    }
  }
}
