/**
 * What the paged lookup promises: consecutive `get_users` windows of one fixed scan order are
 * consecutive slices of it, and a window as wide as the table returns every user once.
 */
module LookupProperties {
  import opened Wrappers
  import opened Models
  import opened Crud

  /** For one fixed scan order, two consecutive pages are the page spanning both. */
  lemma GetUsersPages(db: Db, order: seq<int>, skip: nat, a: nat, b: nat)
    requires ScanOrder(db, order)
    ensures GetUsers(db, order, skip, a).Ok? && GetUsers(db, order, skip + a, b).Ok?
    ensures GetUsers(db, order, skip, a).value + GetUsers(db, order, skip + a, b).value
            == GetUsers(db, order, skip, a + b).value
  {
    var x := GetUsers(db, order, skip, a).value;
    var y := GetUsers(db, order, skip + a, b).value;
    var z := GetUsers(db, order, skip, a + b).value;
    if skip + a >= |order| {
      assert |y| == 0 && |x| == |z|;
    } else {
      assert |x| == a && |y| == Min(b, |order| - skip - a) && |z| == a + |y|;
    }
    forall i | 0 <= i < |z|
      ensures (x + y)[i] == z[i]
    {
      if i < |x| {
        assert (x + y)[i] == x[i];
      } else {
        assert |x| == a;
        assert (x + y)[i] == y[i - a] == ViewOf(db, order[skip + i]);
      }
    }
  }

  /** A page starting at the first row and at least as long as the table holds every user exactly once. */
  lemma GetUsersAll(db: Db, order: seq<int>, limit: nat)
    requires ScanOrder(db, order)
    requires limit >= |db.users.rows|
    ensures GetUsers(db, order, 0, limit).Ok?
    ensures var page := GetUsers(db, order, 0, limit).value;
      && |page| == |db.users.rows|
      && (forall id :: id in db.users.rows ==> exists i :: 0 <= i < |page| && page[i] == ViewOf(db, id))
      && (forall i, j :: 0 <= i < j < |page| ==> page[i].id != page[j].id)
  {
    var page := GetUsers(db, order, 0, limit).value;
    ScanCoversTable(db, order);
    forall id | id in db.users.rows
      ensures exists i :: 0 <= i < |page| && page[i] == ViewOf(db, id)
    {
      var i :| 0 <= i < |order| && order[i] == id;
      assert page[i] == ViewOf(db, order[i]);
    }
  }

  /** A scan visits as many rows as the table holds. */
  lemma ScanCoversTable(db: Db, order: seq<int>)
    requires ScanOrder(db, order)
    ensures |order| == |db.users.rows|
  {
    var ids := set i | 0 <= i < |order| :: order[i];
    forall id | id in db.users.rows
      ensures id in ids
    {
      var i :| 0 <= i < |order| && order[i] == id;
    }
    assert ids == db.users.rows.Keys;
    DistinctSize(order);
  }

  /** A sequence without repeats has as many elements as its set of elements. */
  lemma {:induction false} DistinctSize(s: seq<int>)
    requires forall i, j :: 0 <= i < j < |s| ==> s[i] != s[j]
    ensures |set i | 0 <= i < |s| :: s[i]| == |s|
    decreases |s|
  {
    if |s| > 0 {
      var n := |s| - 1;
      var pre := s[..n];
      DistinctSize(pre);
      var before := set i | 0 <= i < |pre| :: pre[i];
      var all := set i | 0 <= i < |s| :: s[i];
      assert all == before + {s[n]};
      assert s[n] !in before;
    }
  }
}
