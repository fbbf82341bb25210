/** Newest-first ordering shared by the two listings (the admin user list and a
    user's history): `list.sort((a, b) => b.createdAt - a.createdAt)`. The sort
    itself is the JavaScript engine's; it is modelled here as a stable insertion
    sort on the sort key. */
module Listing {
  import opened KV

  /** The sort key: the record's `createdAt`, with 0 for a record that has no
      integer `createdAt`. */
  function CreatedAt(rec: Record): int {
    if "createdAt" in rec && rec["createdAt"].Int? then rec["createdAt"].i else 0
  }

  /** Every record is at least as new as every record after it. */
  predicate NewestFirst(s: seq<Record>) {
    forall i, j :: 0 <= i < j < |s| ==> CreatedAt(s[i]) >= CreatedAt(s[j])
  }

  /** A record no older than the head of a newest-first list can go in
      front of it. */
  lemma ConsNewestFirst(a: Record, t: seq<Record>)
    requires NewestFirst(t)
    requires t != [] ==> CreatedAt(a) >= CreatedAt(t[0])
    ensures NewestFirst([a] + t)
  {
    var r := [a] + t;
    forall i, j | 0 <= i < j < |r|
      ensures CreatedAt(r[i]) >= CreatedAt(r[j])
    {
      assert r[j] == t[j - 1];
      if i == 0 {
        assert CreatedAt(t[0]) >= CreatedAt(t[j - 1]);
      } else {
        assert r[i] == t[i - 1];
      }
    }
  }

  /** Puts `x` in front of the first record that is not newer than it. */
  function Insert(x: Record, s: seq<Record>): (r: seq<Record>)
    requires NewestFirst(s)
    ensures NewestFirst(r)
    ensures multiset(r) == multiset(s) + multiset{x}
    ensures r[0] == x || (s != [] && r[0] == s[0])
  {
    if s == [] || CreatedAt(x) >= CreatedAt(s[0]) then [x] + s
    else
      var tail := Insert(x, s[1..]);
      assert s == [s[0]] + s[1..];
      assert CreatedAt(s[0]) >= CreatedAt(tail[0]);
      ConsNewestFirst(s[0], tail);
      [s[0]] + tail
  }

  /** The records of `s`, newest first. */
  function SortNewestFirst(s: seq<Record>): (r: seq<Record>)
    ensures NewestFirst(r)
    ensures multiset(r) == multiset(s)
  {
    if s == [] then []
    else
      assert s == [s[0]] + s[1..];
      Insert(s[0], SortNewestFirst(s[1..]))
  }

  /** A record strictly newer than every other one in a newest-first list is
      its first element. */
  lemma NewestIsFirst(s: seq<Record>, x: Record)
    requires NewestFirst(s) && x in s
    requires forall y :: y in s && y != x ==> CreatedAt(y) < CreatedAt(x)
    ensures s[0] == x
  {
    var i :| 0 <= i < |s| && s[i] == x;
    assert CreatedAt(s[0]) >= CreatedAt(s[i]);
  }
}
