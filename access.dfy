/** The access state machine on a user record's `status` field: `waitlist`
    (where signup puts a new user), `active` (the only status that may sign
    in) and `disabled`. */
module Access {
  import opened KV

  const Waitlisted := "waitlist"
  const Active := "active"
  const Disabled := "disabled"

  /** `["active", "waitlist", "disabled"].includes(status)` */
  predicate IsStatusName(s: string) {
    s == Active || s == Waitlisted || s == Disabled
  }

  /** A stored `status` value that is one of the three names. */
  predicate IsKnownStatus(v: Value) {
    v.Str? && IsStatusName(v.s)
  }

  /** The `status` field of a record. */
  function Status(rec: Record): Value {
    Field(rec, "status")
  }

  /** Every `status` field in the store holds one of the three names. */
  predicate StatusesKnown(db: DB) {
    forall k :: k in db && "status" in db[k] ==> IsKnownStatus(db[k]["status"])
  }

  /** No hash in the store is empty (the store drops empty hashes). */
  predicate NoEmptyHashes(db: DB) {
    forall k :: k in db ==> db[k] != map[]
  }

  /** What every request except an admin's status change keeps: no key is
      removed, every known status stays as it was, and no record becomes
      `active` that was not `active` before. */
  predicate StatusesKept(db: DB, db': DB) {
    && db.Keys <= db'.Keys
    && (forall k :: k in db && IsKnownStatus(Status(db[k])) ==> Status(db'[k]) == Status(db[k]))
    && (forall k :: k in db' && Status(db'[k]) == Str(Active) ==> k in db && Status(db[k]) == Str(Active))
  }
}
