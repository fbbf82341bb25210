/** The key-value store every handler reads and writes: each key holds a hash
    (a map from field names to values). `hgetall` reads a whole hash, `hset`
    merges fields into one (creating it when absent), and `keys` lists the keys
    that match a pattern. The record key scheme of the application lives here
    too: `user:{email}` and `history:{email}:{epochMillis}`. */
module KV {
  import opened Text

  datatype Option<T> = None | Some(value: T)

  /** A stored field value; `Null` stands for both `null` and `undefined`. */
  datatype Value = Str(s: string) | Bool(b: bool) | Int(i: int) | Null

  type Record = map<string, Value>
  type DB = map<string, Record>

  /** JavaScript truthiness of a value. */
  predicate Truthy(v: Value) {
    match v
    case Str(s) => s != ""
    case Bool(b) => b
    case Int(i) => i != 0
    case Null => false
  }

  /** Property access `rec.f`, giving `Null` for a missing field. */
  function Field(rec: Record, f: string): Value {
    if f in rec then rec[f] else Null
  }

  /** What `hgetall(k)` gives once `null` is folded into the empty hash. */
  function Lookup(db: DB, k: string): Record {
    if k in db then db[k] else map[]
  }

  /** The test `x && Object.keys(x).length > 0` on `x = hgetall(k)`. */
  predicate Present(db: DB, k: string) {
    k in db && db[k] != map[]
  }

  /** The effect of `hset(k, fields)`: the given fields overwrite or extend the
      hash at `k`; every other key and every other field is left as it was. */
  function Merge(db: DB, k: string, fields: Record): (r: DB)
    ensures r.Keys == db.Keys + {k}
    ensures forall k' :: k' in db && k' != k ==> r[k'] == db[k']
    ensures forall f :: f in fields ==> f in r[k] && r[k][f] == fields[f]
    ensures forall f :: f !in fields ==> Field(r[k], f) == Field(Lookup(db, k), f)
    ensures r[k].Keys == Lookup(db, k).Keys + fields.Keys
    ensures forall f :: f in Lookup(db, k) && f !in fields ==> r[k][f] == Lookup(db, k)[f]
  {
    db[k := Lookup(db, k) + fields]
  }

  /** No two positions of `ks` hold the same key. */
  predicate Distinct(ks: seq<string>) {
    forall i, j :: 0 <= i < j < |ks| ==> ks[i] != ks[j]
  }

  /** `ks` is a possible answer of `keys(prefix + "*")`: every matching key
      exactly once, in an order the store chooses. */
  predicate Scanned(db: DB, prefix: string, ks: seq<string>) {
    && Distinct(ks)
    && (forall k :: k in ks ==> k in db && StartsWith(k, prefix))
    && (forall k :: k in db && StartsWith(k, prefix) ==> k in ks)
  }

  const UserPrefix := "user:"
  const HistoryRoot := "history:"

  function UserKey(email: string): (k: string)
    ensures |k| > 0 && k[0] == 'u'
  {
    UserPrefix + email
  }

  /** The prefix that all history keys of one user share. */
  function HistoryPrefix(email: string): string {
    HistoryRoot + email + ":"
  }

  function HistoryKey(email: string, millis: nat): (k: string)
    ensures StartsWith(k, HistoryPrefix(email))
    ensures k[0] == 'h'
  {
    HistoryPrefix(email) + NatToString(millis)
  }

  /** Two generations by one user at different instants use different keys;
      at the same instant they share one. */
  lemma HistoryKeyInjective(email: string, t1: nat, t2: nat)
    requires HistoryKey(email, t1) == HistoryKey(email, t2)
    ensures t1 == t2
  {
    var p := HistoryPrefix(email);
    assert HistoryKey(email, t1)[|p|..] == NatToString(t1);
    assert HistoryKey(email, t2)[|p|..] == NatToString(t2);
    NatToStringInjective(t1, t2);
  }

  /** A history key is never a user key, so the two writes of a generation
      never touch the same hash. */
  lemma HistoryKeyNotUserKey(e1: string, e2: string, t: nat)
    ensures HistoryKey(e1, t) != UserKey(e2)
    ensures !StartsWith(HistoryKey(e1, t), UserPrefix)
  {
  }

  /** Between emails without a colon, a history key is listed under its own
      owner's prefix and no other. */
  lemma HistoryKeyOwner(owner: string, other: string, t: nat)
    requires ':' !in owner && ':' !in other
    ensures StartsWith(HistoryKey(owner, t), HistoryPrefix(other)) <==> owner == other
  {
    var k := HistoryKey(owner, t);
    var po := HistoryPrefix(other);
    var n := |HistoryRoot|;
    if StartsWith(k, po) {
      var rest := k[|po|..];
      assert k == po + rest;
      assert k[n..] == owner + [':'] + NatToString(t);
      assert k[n..] == other + [':'] + rest;
      IndexOfFirst(owner, ':', NatToString(t));
      IndexOfFirst(other, ':', rest);
      assert owner == k[n..][..|owner|];
    }
  }

  /** With a colon in the email the prefixes overlap: the entries of
      `a:b` lie under the prefix of `a` too. */
  lemma ColonEmailsShareHistory(t: nat)
    ensures StartsWith(HistoryKey("a:b", t), HistoryPrefix("a"))
  {
    assert HistoryKey("a:b", t)[..|HistoryPrefix("a")|] == HistoryPrefix("a");
  }

  /** The store itself. */
  class Store {
    var data: DB

    constructor ()
      ensures data == map[]
    {
      data := map[];
    }

    /** `hgetall(k)`: the hash at `k`, or `None` (the store's `null`) when
        there is none. */
    method HGetAll(k: string) returns (r: Option<Record>)
      ensures r == if k in data then Some(data[k]) else None
    {
      r := if k in data then Some(data[k]) else None;
    }

    /** `hset(k, fields)` */
    method HSet(k: string, fields: Record)
      modifies this
      ensures data == Merge(old(data), k, fields)
    {
      data := Merge(data, k, fields);
    }

    /** `keys(prefix + "*")`: each matching key once, in an order the store
        chooses. */
    method Keys(prefix: string) returns (ks: seq<string>)
      ensures Scanned(data, prefix, ks)
    {
      var remaining := set k | k in data && StartsWith(k, prefix);
      ks := [];
      while remaining != {}
        invariant Distinct(ks)
        invariant forall k :: k in ks ==> k in data && StartsWith(k, prefix) && k !in remaining
        invariant forall k :: k in data && StartsWith(k, prefix) ==> k in ks || k in remaining
        invariant forall k :: k in remaining ==> k in data && StartsWith(k, prefix)
        decreases remaining
      {
        var k :| k in remaining;
        ks := ks + [k];
        remaining := remaining - {k};
      }
    }
  }
}
