/** `/api/user/history`: a signed-in user lists their generation history
    (`GET`, newest first) or flips the `favorited` flag of one entry (`PATCH`).
    The flip checks neither the owner of the entry nor that it is a history
    entry at all: it applies to whatever key the request names. */
module UserHistory {
  import opened KV
  import opened Text
  import opened Http
  import opened Listing

  const ToggleFavorite := "toggle-favorite"

  /** A listed entry: `{ id: key, ...item }`. The stored fields come last, so
      a stored `id` field would win over the key. */
  function AsEntry(key: string, item: Record): (e: Record)
    ensures "id" !in item ==> Field(e, "id") == Str(key)
    ensures "id" in item ==> Field(e, "id") == item["id"]
    ensures forall f :: f != "id" ==> Field(e, f) == Field(item, f)
    ensures e.Keys == item.Keys + {"id"}
    ensures forall f :: f in item ==> e[f] == item[f]
  {
    map["id" := Str(key)] + item
  }

  /** The entries built from the non-empty hashes at `ks`, in the order of
      `ks`: what the loop over the scanned keys pushes. */
  function Entries(db: DB, ks: seq<string>): (r: seq<Record>)
    ensures |r| <= |ks|
  {
    if ks == [] then []
    else
      var last := ks[|ks| - 1];
      Entries(db, ks[..|ks| - 1]) + (if Present(db, last) then [AsEntry(last, db[last])] else [])
  }

  lemma {:induction false} EntriesMembers(db: DB, ks: seq<string>, x: Record)
    ensures x in Entries(db, ks) <==> exists k :: k in ks && Present(db, k) && x == AsEntry(k, db[k])
  {
    if ks != [] {
      var init, last := ks[..|ks| - 1], ks[|ks| - 1];
      assert ks == init + [last];
      EntriesMembers(db, init, x);
      if x in Entries(db, ks) && x !in Entries(db, init) {
        assert Present(db, last) && x == AsEntry(last, db[last]);
      }
    }
  }

  /** `GET`: in some order the store chose for the keys, the non-empty hashes
      under `history:{email}:` with their keys as ids, newest first. */
  method ListHistory(kv: Store, session: Principal) returns (r: Reply)
    ensures !SignedIn(session) ==> r == Unauthorized
    ensures SignedIn(session) ==>
      && r.status == 200 && r.body.History?
      && NewestFirst(r.body.history)
      && exists ks :: Scanned(kv.data, HistoryPrefix(session.value), ks) &&
           multiset(r.body.history) == multiset(Entries(kv.data, ks))
  {
    if !(session.Some? && session.value != "") {
      return Unauthorized;
    }
    var keys := kv.Keys(HistoryPrefix(session.value));
    var history: seq<Record> := [];
    for i := 0 to |keys|
      invariant history == Entries(kv.data, keys[..i])
    {
      var item := kv.HGetAll(keys[i]);
      if item.Some? && item.value != map[] {
        history := history + [AsEntry(keys[i], item.value)];
      }
      assert keys[..i + 1][..i] == keys[..i];
    }
    assert keys[..|keys|] == keys;
    history := SortNewestFirst(history);
    return Reply(200, History(history));
  }

  /** Whatever order the scan took, the listing holds exactly the non-empty
      hashes under the user's history prefix, each tagged with its key. */
  lemma ListedHistory(db: DB, email: string, ks: seq<string>, history: seq<Record>, x: Record)
    requires Scanned(db, HistoryPrefix(email), ks)
    requires multiset(history) == multiset(Entries(db, ks))
    ensures x in history <==>
      exists k :: k in db && StartsWith(k, HistoryPrefix(email)) && db[k] != map[] && x == AsEntry(k, db[k])
  {
    assert x in history <==> x in multiset(Entries(db, ks));
    EntriesMembers(db, ks, x);
  }

  /** One `PATCH` request. `hgetall` answers `null` only for a missing key, so
      any present key, even one holding no fields, is flipped. */
  function ToggleSpec(db: DB, session: Principal, id: string, action: string): (o: Outcome)
    ensures !SignedIn(session) ==> o == Outcome(Unauthorized, db)
    ensures SignedIn(session) ==> o.reply == Reply(200, Done)
    ensures action != ToggleFavorite || id !in db ==> o.db == db
    ensures SignedIn(session) && action == ToggleFavorite && id in db ==>
      && o.db.Keys == db.Keys
      && Field(o.db[id], "favorited") == Bool(!Truthy(Field(db[id], "favorited")))
      && (forall f :: f != "favorited" ==> Field(o.db[id], f) == Field(db[id], f))
      && o.db[id].Keys == db[id].Keys + {"favorited"}
      && (forall f :: f in db[id] && f != "favorited" ==> o.db[id][f] == db[id][f])
      && (forall k :: k in db && k != id ==> o.db[k] == db[k])
  {
    if !SignedIn(session) then Outcome(Unauthorized, db)
    else if action == ToggleFavorite && id in db then
      Outcome(Reply(200, Done), Merge(db, id, map["favorited" := Bool(!Truthy(Field(db[id], "favorited")))]))
    else Outcome(Reply(200, Done), db)
  }

  /** The `PATCH` handler: read the hash, write back the negated flag. */
  method Toggle(kv: Store, session: Principal, id: string, action: string) returns (r: Reply)
    modifies kv
    ensures Outcome(r, kv.data) == ToggleSpec(old(kv.data), session, id, action)
  {
    if !(session.Some? && session.value != "") {
      return Unauthorized;
    }
    if action == ToggleFavorite {
      var item := kv.HGetAll(id);
      if item.Some? {
        kv.HSet(id, map["favorited" := Bool(!Truthy(Field(item.value, "favorited")))]);
      }
    }
    return Reply(200, Done);
  }

  /** Flipping twice gives back the flag's truth value. When the flag was
      stored as a boolean, or the key is absent, it gives back the whole store. */
  lemma ToggleTwice(db: DB, session: Principal, id: string, action: string)
    ensures var twice := ToggleSpec(ToggleSpec(db, session, id, action).db, session, id, action).db;
      && twice.Keys == db.Keys
      && (forall k :: k in db && k != id ==> twice[k] == db[k])
      && Truthy(Field(Lookup(twice, id), "favorited")) == Truthy(Field(Lookup(db, id), "favorited"))
      && (id !in db || Field(db[id], "favorited").Bool? ==> twice == db)
  {
    var once := ToggleSpec(db, session, id, action).db;
    var twice := ToggleSpec(once, session, id, action).db;
    if SignedIn(session) && action == ToggleFavorite && id in db && Field(db[id], "favorited").Bool? {
      assert twice[id] == db[id];
    }
  }

  /** The entry's owner plays no part: any signed-in caller flips any key. */
  lemma ToggleIgnoresCaller(db: DB, e1: string, e2: string, id: string, action: string)
    requires e1 != "" && e2 != ""
    ensures ToggleSpec(db, Some(e1), id, action) == ToggleSpec(db, Some(e2), id, action)
  {
  }
}
