/**
 * The association reconciler of `update_user_post`, written once for both association
 * tables. One pass brings one user's links in one association table into line with a
 * submitted list, in three phases, as the code does:
 *   1. every item with an id overwrites that row and the role of the user's link to it;
 *   2. items without an id (None or 0) become new rows, in list order, each linked to
 *      the user with its role;
 *   3. the user's links whose target is neither a payload id nor a new row are deleted.
 * `T` is the row type of the linked table, `R` the role type of the association.
 */
module Reconcile {
  import opened Wrappers
  import opened Models
  import opened Schemas

  /** `if obj.film.id:` is false for both None and 0: such an item asks for a new row. */
  predicate IsNew(id: Option<int>)
  {
    id.None? || id.value == 0
  }

  /** The ids named by the items that do not ask for a new row. */
  function PayloadIds<T, R(==,!new)>(items: seq<Item<T, R>>): (ids: set<int>)
    ensures forall i :: 0 <= i < |items| && !IsNew(items[i].id) ==> items[i].id.value in ids
    ensures forall t :: t in ids ==> exists i :: 0 <= i < |items| && !IsNew(items[i].id) && items[i].id.value == t
    decreases |items|
  {
    if |items| == 0 then {}
    else
      var n := |items| - 1;
      var ids := PayloadIds(items[..n]);
      assert forall i :: 0 <= i < n ==> items[..n][i] == items[i];
      ids + (if IsNew(items[n].id) then {} else {items[n].id.value})
  }

  /** The last item naming row `t`: its fields and role are the ones that stick. */
  function LastFor<T, R(==,!new)>(items: seq<Item<T, R>>, t: int): (x: Item<T, R>)
    requires t in PayloadIds(items)
    ensures x in items && !IsNew(x.id) && x.id.value == t
    decreases |items|
  {
    var n := |items| - 1;
    if !IsNew(items[n].id) && items[n].id.value == t then items[n]
    else
      assert t in PayloadIds(items[..n]) by {
        var i :| 0 <= i < |items| && !IsNew(items[i].id) && items[i].id.value == t;
        assert items[..n][i] == items[i];
      }
      LastFor(items[..n], t)
  }

  /** The items that ask for a new row, in list order. */
  function NewItems<T, R(==,!new)>(items: seq<Item<T, R>>): (created: seq<Item<T, R>>)
    ensures |created| <= |items|
    ensures forall x :: x in created ==> x in items && IsNew(x.id)
    decreases |items|
  {
    if |items| == 0 then []
    else
      var n := |items| - 1;
      var created := NewItems(items[..n]);
      assert forall x :: x in items[..n] ==> x in items;
      created + (if IsNew(items[n].id) then [items[n]] else [])
  }

  /** The user `owner` holds a link to `t`. */
  ghost predicate Holds<R(!new)>(links: set<Link<R>>, owner: int, t: int)
  {
    exists l :: l in links && l.owner == owner && l.target == t
  }

  /** `UPDATE ... SET role = r WHERE target = t AND owner = owner`: matches at most the user's own link. */
  function SetRole<R(==,!new)>(links: set<Link<R>>, owner: int, t: int, role: R): (r: set<Link<R>>)
    ensures forall l :: l in r <==>
      (l in links && !(l.owner == owner && l.target == t)) || (l == Link(owner, t, role) && Holds(links, owner, t))
  {
    set l | l in links :: if l.owner == owner && l.target == t then Link(owner, t, role) else l
  }

  /** State carried through phase 1: rows and links so far, ids to keep, items still to insert. */
  datatype Scan<T, R(==)> = Scan(rows: map<int, T>, links: set<Link<R>>, kept: seq<int>, pending: seq<Item<T, R>>)

  /**
   * One iteration of the phase-1 loop. An item with an id overwrites the row with that id
   * (no row matches when there is none) and sets the role of the user's link to it; the
   * database refuses the overwrite when `accepts` is false of the new fields.
   */
  function ScanItem<T, R(==,!new)>(owner: int, accepts: T -> bool, s: Scan<T, R>, x: Item<T, R>)
    : (r: Result<Scan<T, R>, DbError>)
    ensures r.Err? <==> !IsNew(x.id) && x.id.value in s.rows && !accepts(x.fields)
    ensures r.Err? ==> r.error == DanglingReference(x.id.value)
    ensures r.Ok? ==> r.value.rows.Keys == s.rows.Keys
    ensures r.Ok? && IsNew(x.id) ==> r.value == s.(pending := s.pending + [x])
    ensures r.Ok? && !IsNew(x.id) ==>
      && r.value.pending == s.pending && r.value.kept == s.kept + [x.id.value]
      && (x.id.value in s.rows ==> r.value.rows[x.id.value] == x.fields)
      && (forall k :: k in s.rows && k != x.id.value ==> r.value.rows[k] == s.rows[k])
      && (forall l :: l in r.value.links && (l.owner != owner || l.target != x.id.value) <==>
                      l in s.links && (l.owner != owner || l.target != x.id.value))
      && (Link(owner, x.id.value, x.role) in r.value.links <==> Holds(s.links, owner, x.id.value))
      && (forall l :: l in r.value.links && l.owner == owner && l.target == x.id.value ==> l.role == x.role)
  {
    if IsNew(x.id) then Ok(s.(pending := s.pending + [x]))
    else
      var id := x.id.value;
      if id in s.rows && !accepts(x.fields) then Err(DanglingReference(id))
      else
        Ok(Scan(
             if id in s.rows then s.rows[id := x.fields] else s.rows,
             SetRole(s.links, owner, id, x.role),
             s.kept + [id],
             s.pending))
  }

  /** Phase 1: the loop over the submitted list, left to right. */
  function Overwrite<T, R(==,!new)>(owner: int, accepts: T -> bool, rows: map<int, T>, links: set<Link<R>>,
                           items: seq<Item<T, R>>): (r: Result<Scan<T, R>, DbError>)
    ensures r.Ok? ==> r.value.rows.Keys == rows.Keys
    ensures r.Ok? ==> r.value.pending == NewItems(items)
    decreases |items|
  {
    if |items| == 0 then Ok(Scan(rows, links, [], []))
    else
      var n := |items| - 1;
      match Overwrite(owner, accepts, rows, links, items[..n])
      case Err(e) => Err(e)
      case Ok(s) => ScanItem(owner, accepts, s, items[n])
  }

  /** The rows inserted for the new items: the serial hands out `next`, `next + 1`, ... in list order. */
  function FreshRows<T, R(==,!new)>(next: int, created: seq<Item<T, R>>, prepare: T -> T): (m: map<int, T>)
    ensures forall k :: k in m <==> next <= k < next + |created|
    ensures forall i :: 0 <= i < |created| ==> m[next + i] == prepare(created[i].fields)
    decreases |created|
  {
    if |created| == 0 then map[]
    else
      var n := |created| - 1;
      FreshRows(next, created[..n], prepare)[next + n := prepare(created[n].fields)]
  }

  /** Every inserted row has a property that every row `prepare` builds has. */
  lemma FreshRowsHave<T, R(!new)>(next: int, created: seq<Item<T, R>>, prepare: T -> T, P: T -> bool)
    requires forall i :: 0 <= i < |created| ==> P(prepare(created[i].fields))
    ensures forall k :: k in FreshRows(next, created, prepare) ==> P(FreshRows(next, created, prepare)[k])
  {
    var m := FreshRows(next, created, prepare);
    forall k | k in m
      ensures P(m[k])
    {
      var i := k - next;
      assert m[next + i] == prepare(created[i].fields);
    }
  }

  /** The association rows for the new rows: the i-th links `owner` to id `next + i` with the i-th role. */
  function FreshLinks<T, R(==,!new)>(owner: int, next: int, created: seq<Item<T, R>>): (links: set<Link<R>>)
    ensures forall l :: l in links ==> l.owner == owner && next <= l.target < next + |created|
    ensures forall i, l :: 0 <= i < |created| && l in links && l.target == next + i ==> l.role == created[i].role
    ensures forall i :: 0 <= i < |created| ==> Link(owner, next + i, created[i].role) in links
    ensures |links| == |created|
    decreases |created|
  {
    if |created| == 0 then {}
    else
      var n := |created| - 1;
      var links := FreshLinks(owner, next, created[..n]);
      var l := Link(owner, next + n, created[n].role);
      assert forall i :: 0 <= i < n ==> created[..n][i] == created[i];
      assert l !in links;
      links + {l}
  }

  /** The association rows for the new rows, one per item and nothing else. */
  lemma FreshLinksExactly<T, R(!new)>(owner: int, next: int, created: seq<Item<T, R>>)
    ensures forall l :: l in FreshLinks(owner, next, created) <==>
      exists i :: 0 <= i < |created| && l == Link(owner, next + i, created[i].role)
  {
    forall l | l in FreshLinks(owner, next, created)
      ensures exists i :: 0 <= i < |created| && l == Link(owner, next + i, created[i].role)
    {
      var i := l.target - next;
      assert l == Link(owner, next + i, created[i].role);
    }
  }

  /** The ids of the new rows, in list order. */
  function FreshIds(next: int, n: nat): (ids: seq<int>)
    ensures |ids| == n
    ensures forall i :: 0 <= i < n ==> ids[i] == next + i
    ensures forall t :: t in ids ==> next <= t < next + n
  {
    seq(n, i => next + i)
  }

  /** The ids appended to the kept list are exactly the keys of the rows inserted for the new items. */
  lemma FreshIdsKeyFreshRows<T, R(!new)>(next: int, created: seq<Item<T, R>>, prepare: T -> T)
    ensures forall t :: t in FreshIds(next, |created|) <==> t in FreshRows(next, created, prepare)
  {
    var ids := FreshIds(next, |created|);
    forall t | t in FreshRows(next, created, prepare)
      ensures t in ids
    {
      assert ids[t - next] == t;
    }
  }

  /** Phase 3: delete the user's links whose target is not kept. */
  function Evict<R(==,!new)>(owner: int, links: set<Link<R>>, kept: seq<int>): (r: set<Link<R>>)
    ensures r <= links
    ensures forall l :: l in links && l.owner != owner ==> l in r
    ensures forall l :: l in links && l.owner == owner ==> (l in r <==> l.target in kept)
  {
    set l | l in links && (l.owner != owner || l.target in kept)
  }

  /** The linked table and the association table after one pass. */
  datatype Outcome<T, R(==)> = Outcome(table: Table<T>, links: set<Link<R>>)

  /**
   * One reconciliation pass for user `owner`. `ownerExists` says whether the users table
   * holds `owner` (new association rows need it); `prepare` builds a new row from the
   * submitted fields.
   */
  function Pass<T, R(==,!new)>(owner: int, ownerExists: bool, accepts: T -> bool, prepare: T -> T,
                      table: Table<T>, links: set<Link<R>>, items: seq<Item<T, R>>): Result<Outcome<T, R>, DbError>
  {
    match Overwrite(owner, accepts, table.rows, links, items)
    case Err(e) => Err(e)
    case Ok(s) => Finish(owner, ownerExists, prepare, table.next, s)
  }

  /**
   * Phases 2 and 3. New rows are inserted only when there are some (`if len(films) > 0`),
   * and their association rows need `owner` to be a stored user.
   */
  function Finish<T, R(==,!new)>(owner: int, ownerExists: bool, prepare: T -> T, next: int, s: Scan<T, R>)
    : (r: Result<Outcome<T, R>, DbError>)
    ensures r.Err? <==> |s.pending| > 0 && !ownerExists
    ensures r.Ok? ==> r.value.table.next == next + |s.pending|
    ensures r.Ok? ==> forall k :: k in r.value.table.rows <==> k in s.rows || next <= k < next + |s.pending|
  {
    if |s.pending| > 0 && !ownerExists then Err(UnknownUser(owner))
    else
      var n := |s.pending|;
      var rows := s.rows + FreshRows(next, s.pending, prepare);
      var links := s.links + FreshLinks(owner, next, s.pending);
      var kept := s.kept + FreshIds(next, n);
      Ok(Outcome(Table(rows, next + n), Evict(owner, links, kept)))
  }

  // ---------------------------------------------------------------------------------
  // Reference description of a pass
  // ---------------------------------------------------------------------------------

  /** Some item overwrites an existing row with fields the database refuses. */
  ghost predicate Rejected<T, R(!new)>(rows: map<int, T>, accepts: T -> bool, items: seq<Item<T, R>>)
  {
    exists i :: 0 <= i < |items| && !IsNew(items[i].id) && items[i].id.value in rows && !accepts(items[i].fields)
  }

  /** Membership of a link after phase 1: only the roles of the user's named links change. */
  ghost predicate Retagged<T, R(!new)>(links: set<Link<R>>, owner: int, items: seq<Item<T, R>>, l: Link<R>)
  {
    || (l in links && !(l.owner == owner && l.target in PayloadIds(items)))
    || (l.owner == owner && l.target in PayloadIds(items) && Holds(links, owner, l.target)
        && l.role == LastFor(items, l.target).role)
  }

  /**
   * Membership of a link after a whole pass: other users' links as they were, the user's
   * links to named rows with the last submitted role, and one link per new row.
   */
  ghost predicate Reconciled<T, R(!new)>(links: set<Link<R>>, owner: int, next: int, items: seq<Item<T, R>>, l: Link<R>)
  {
    || (l in links && l.owner != owner)
    || (l.owner == owner && l.target in PayloadIds(items) && Holds(links, owner, l.target)
        && l.role == LastFor(items, l.target).role)
    || (l.owner == owner && next <= l.target < next + |NewItems(items)|
        && l.role == NewItems(items)[l.target - next].role)
  }

  /** What phase 1 leaves behind. */
  ghost predicate OverwriteSpec<T, R(!new)>(owner: int, rows: map<int, T>, links: set<Link<R>>,
                                       items: seq<Item<T, R>>, s: Scan<T, R>)
  {
    && s.rows.Keys == rows.Keys
    && (forall k :: k in rows ==>
          s.rows[k] == if k in PayloadIds(items) then LastFor(items, k).fields else rows[k])
    && (forall l :: l in s.links <==> Retagged(links, owner, items, l))
    && (forall t :: t in s.kept <==> t in PayloadIds(items))
    && s.pending == NewItems(items)
  }

  /** The user's links after phase 1 point at the same rows as before. */
  lemma {:induction false} RetaggedHolds<T, R(!new)>(links: set<Link<R>>, owner: int, items: seq<Item<T, R>>, s: set<Link<R>>)
    requires forall l :: l in s <==> Retagged(links, owner, items, l)
    ensures forall t :: Holds(s, owner, t) <==> Holds(links, owner, t)
  {
    forall t
      ensures Holds(s, owner, t) <==> Holds(links, owner, t)
    {
      if Holds(links, owner, t) {
        var l0 :| l0 in links && l0.owner == owner && l0.target == t;
        if t in PayloadIds(items) {
          var l := Link(owner, t, LastFor(items, t).role);
          assert Retagged(links, owner, items, l);
        } else {
          assert Retagged(links, owner, items, l0);
        }
      }
      if Holds(s, owner, t) {
        var l :| l in s && l.owner == owner && l.target == t;
        assert Retagged(links, owner, items, l);
      }
    }
  }

  /** Phase 1 fails exactly on a refused overwrite; otherwise it leaves `OverwriteSpec` behind. */
  lemma {:induction false} OverwriteEffect<T, R(!new)>(owner: int, accepts: T -> bool, rows: map<int, T>,
                                                 links: set<Link<R>>, items: seq<Item<T, R>>)
    ensures Overwrite(owner, accepts, rows, links, items).Err? <==> Rejected(rows, accepts, items)
    ensures Overwrite(owner, accepts, rows, links, items).Ok? ==>
      OverwriteSpec(owner, rows, links, items, Overwrite(owner, accepts, rows, links, items).value)
    decreases |items|
  {
    if |items| == 0 {
      forall l ensures l in links <==> Retagged(links, owner, items, l) {
      }
    } else {
      var n := |items| - 1;
      var pre := items[..n];
      var x := items[n];
      assert forall i :: 0 <= i < n ==> pre[i] == items[i];
      OverwriteEffect(owner, accepts, rows, links, pre);
      match Overwrite(owner, accepts, rows, links, pre)
      case Err(e) =>
        var i :| 0 <= i < |pre| && !IsNew(pre[i].id) && pre[i].id.value in rows && !accepts(pre[i].fields);
        assert items[i] == pre[i];
      case Ok(s) =>
        assert !Rejected(rows, accepts, pre);
        if IsNew(x.id) {
          ScanNewStep(owner, accepts, rows, links, items, s);
        } else {
          ScanNamedStep(owner, accepts, rows, links, items, s);
        }
    }
  }

  /** Inductive step of `OverwriteEffect` for an item that asks for a new row. */
  lemma {:induction false} ScanNewStep<T, R(!new)>(owner: int, accepts: T -> bool, rows: map<int, T>,
                                             links: set<Link<R>>, items: seq<Item<T, R>>, s: Scan<T, R>)
    requires |items| > 0 && IsNew(items[|items| - 1].id)
    requires OverwriteSpec(owner, rows, links, items[..|items| - 1], s)
    requires !Rejected(rows, accepts, items[..|items| - 1])
    ensures ScanItem(owner, accepts, s, items[|items| - 1]).Ok?
    ensures !Rejected(rows, accepts, items)
    ensures OverwriteSpec(owner, rows, links, items, ScanItem(owner, accepts, s, items[|items| - 1]).value)
  {
    var n := |items| - 1;
    var pre := items[..n];
    assert forall i :: 0 <= i < n ==> pre[i] == items[i];
    assert PayloadIds(items) == PayloadIds(pre);
    forall t | t in PayloadIds(items)
      ensures LastFor(items, t) == LastFor(pre, t)
    {
    }
    forall l
      ensures Retagged(links, owner, items, l) <==> Retagged(links, owner, pre, l)
    {
    }
  }

  /** Appending an item that names row `id`: `id` joins the payload's ids and its last item is the new one. */
  lemma {:induction false} LastForStep<T, R(!new)>(items: seq<Item<T, R>>)
    requires |items| > 0 && !IsNew(items[|items| - 1].id)
    ensures var n := |items| - 1; var id := items[n].id.value;
      && PayloadIds(items) == PayloadIds(items[..n]) + {id}
      && LastFor(items, id) == items[n]
      && forall t :: t in PayloadIds(items[..n]) && t != id ==> LastFor(items, t) == LastFor(items[..n], t)
  {
    var n := |items| - 1;
    assert forall i :: 0 <= i < n ==> items[..n][i] == items[i];
  }

  /** Inductive step of `OverwriteEffect` for an item that names a row. */
  lemma {:induction false} ScanNamedStep<T, R(!new)>(owner: int, accepts: T -> bool, rows: map<int, T>,
                                               links: set<Link<R>>, items: seq<Item<T, R>>, s: Scan<T, R>)
    requires |items| > 0 && !IsNew(items[|items| - 1].id)
    requires OverwriteSpec(owner, rows, links, items[..|items| - 1], s)
    requires !Rejected(rows, accepts, items[..|items| - 1])
    ensures ScanItem(owner, accepts, s, items[|items| - 1]).Err? <==> Rejected(rows, accepts, items)
    ensures ScanItem(owner, accepts, s, items[|items| - 1]).Ok? ==>
      OverwriteSpec(owner, rows, links, items, ScanItem(owner, accepts, s, items[|items| - 1]).value)
  {
    var x := items[|items| - 1];
    RejectedStep(rows, accepts, items);
    assert s.rows.Keys == rows.Keys;
    if ScanItem(owner, accepts, s, x).Ok? {
      ScanNamedOk(owner, accepts, rows, links, items, s);
    }
  }

  /** A list is refused exactly when its prefix is, or its last item overwrites a row with refused fields. */
  lemma {:induction false} RejectedStep<T, R(!new)>(rows: map<int, T>, accepts: T -> bool, items: seq<Item<T, R>>)
    requires |items| > 0
    ensures var n := |items| - 1; var x := items[n];
      Rejected(rows, accepts, items) <==>
        Rejected(rows, accepts, items[..n]) || (!IsNew(x.id) && x.id.value in rows && !accepts(x.fields))
  {
    var n := |items| - 1;
    var pre := items[..n];
    assert forall i :: 0 <= i < n ==> pre[i] == items[i];
    if Rejected(rows, accepts, items) {
      var i :| 0 <= i < |items| && !IsNew(items[i].id) && items[i].id.value in rows && !accepts(items[i].fields);
      if i < n {
        assert Rejected(rows, accepts, pre);
      }
    }
  }

  /** The state `ScanItem` leaves after an item that names a row meets `OverwriteSpec` for the longer list. */
  lemma {:induction false} ScanNamedOk<T, R(!new)>(owner: int, accepts: T -> bool, rows: map<int, T>,
                                                    links: set<Link<R>>, items: seq<Item<T, R>>, s: Scan<T, R>)
    requires |items| > 0 && !IsNew(items[|items| - 1].id)
    requires OverwriteSpec(owner, rows, links, items[..|items| - 1], s)
    requires ScanItem(owner, accepts, s, items[|items| - 1]).Ok?
    ensures OverwriteSpec(owner, rows, links, items, ScanItem(owner, accepts, s, items[|items| - 1]).value)
  {
    LastForStep(items);
    ScanNamedRows(owner, accepts, rows, links, items, s);
    ScanNamedLinks(owner, accepts, rows, links, items, s);
  }

  /** The row part of `ScanNamedOk`: the named row now holds the item's fields. */
  lemma {:induction false} ScanNamedRows<T, R(!new)>(owner: int, accepts: T -> bool, rows: map<int, T>,
                                                    links: set<Link<R>>, items: seq<Item<T, R>>, s: Scan<T, R>)
    requires |items| > 0 && !IsNew(items[|items| - 1].id)
    requires OverwriteSpec(owner, rows, links, items[..|items| - 1], s)
    requires ScanItem(owner, accepts, s, items[|items| - 1]).Ok?
    ensures var s' := ScanItem(owner, accepts, s, items[|items| - 1]).value;
      && s'.rows.Keys == rows.Keys
      && forall k :: k in rows ==> s'.rows[k] == if k in PayloadIds(items) then LastFor(items, k).fields else rows[k]
  {
    LastForStep(items);
  }

  /** The link part of `ScanNamedOk`: the user's link to the named row, if any, takes the item's role. */
  lemma {:induction false} ScanNamedLinks<T, R(!new)>(owner: int, accepts: T -> bool, rows: map<int, T>,
                                                    links: set<Link<R>>, items: seq<Item<T, R>>, s: Scan<T, R>)
    requires |items| > 0 && !IsNew(items[|items| - 1].id)
    requires OverwriteSpec(owner, rows, links, items[..|items| - 1], s)
    requires ScanItem(owner, accepts, s, items[|items| - 1]).Ok?
    ensures var s' := ScanItem(owner, accepts, s, items[|items| - 1]).value;
      forall l :: l in s'.links <==> Retagged(links, owner, items, l)
  {
    var n := |items| - 1;
    var s' := ScanItem(owner, accepts, s, items[n]).value;
    LastForStep(items);
    RetaggedHolds(links, owner, items[..n], s.links);
    forall l
      ensures l in s'.links <==> Retagged(links, owner, items, l)
    {
    }
  }

  /** What a whole pass leaves behind, row by row and link by link. */
  ghost predicate PassSpec<T, R(!new)>(owner: int, accepts: T -> bool, prepare: T -> T, table: Table<T>,
                                        links: set<Link<R>>, items: seq<Item<T, R>>, out: Outcome<T, R>)
  {
    var created := NewItems(items);
    && out.table.next == table.next + |created|
    && (forall k :: k in out.table.rows <==> k in table.rows || table.next <= k < table.next + |created|)
    && (forall k :: k in table.rows ==>
          out.table.rows[k] == if k in PayloadIds(items) then LastFor(items, k).fields else table.rows[k])
    && (forall k :: k in table.rows && k in PayloadIds(items) ==> accepts(out.table.rows[k]))
    && (forall i :: 0 <= i < |created| ==> out.table.rows[table.next + i] == prepare(created[i].fields))
    && (forall l :: l in out.links <==> Reconciled(links, owner, table.next, items, l))
  }

  /**
   * A pass is rolled back exactly when an overwrite is refused or new association rows
   * would name a missing user; otherwise it leaves `PassSpec` behind.
   */
  lemma {:induction false} PassEffect<T, R(!new)>(owner: int, ownerExists: bool, accepts: T -> bool, prepare: T -> T,
                                                   table: Table<T>, links: set<Link<R>>, items: seq<Item<T, R>>)
    requires FreshSupply(table)
    requires forall l :: l in links && l.owner == owner ==> l.target in table.rows
    ensures Pass(owner, ownerExists, accepts, prepare, table, links, items).Err? <==>
      Rejected(table.rows, accepts, items) || (|NewItems(items)| > 0 && !ownerExists)
    ensures Pass(owner, ownerExists, accepts, prepare, table, links, items).Ok? ==>
      PassSpec(owner, accepts, prepare, table, links, items, Pass(owner, ownerExists, accepts, prepare, table, links, items).value)
  {
    OverwriteEffect(owner, accepts, table.rows, links, items);
    match Overwrite(owner, accepts, table.rows, links, items)
    case Err(e) =>
    case Ok(s) =>
      var n := |s.pending|;
      if !(n > 0 && !ownerExists) {
        var out := Finish(owner, ownerExists, prepare, table.next, s).value;
        PassRowsStep(owner, accepts, prepare, table, links, items, s);
        PassLinksStep(owner, accepts, table, links, items, s);
        assert PassSpec(owner, accepts, prepare, table, links, items, out);
      }
  }

  /** The rows part of `PassEffect`, from what phase 1 left behind. */
  lemma {:induction false} PassRowsStep<T, R(!new)>(owner: int, accepts: T -> bool, prepare: T -> T, table: Table<T>,
                                                     links: set<Link<R>>, items: seq<Item<T, R>>, s: Scan<T, R>)
    requires FreshSupply(table)
    requires OverwriteSpec(owner, table.rows, links, items, s)
    requires !Rejected(table.rows, accepts, items)
    ensures var rows := s.rows + FreshRows(table.next, s.pending, prepare);
      && (forall k :: k in rows <==> k in table.rows || table.next <= k < table.next + |s.pending|)
      && (forall k :: k in table.rows ==>
            rows[k] == if k in PayloadIds(items) then LastFor(items, k).fields else table.rows[k])
      && (forall k :: k in table.rows && k in PayloadIds(items) ==> accepts(rows[k]))
      && (forall i :: 0 <= i < |s.pending| ==> rows[table.next + i] == prepare(s.pending[i].fields))
  {
    var newRows := FreshRows(table.next, s.pending, prepare);
    var rows := s.rows + newRows;
    forall k
      ensures k in rows <==> k in table.rows || table.next <= k < table.next + |s.pending|
    {
      assert k in s.rows <==> k in table.rows;
    }
    forall k | k in table.rows
      ensures rows[k] == if k in PayloadIds(items) then LastFor(items, k).fields else table.rows[k]
    {
      assert k !in newRows;
    }
    forall k | k in table.rows && k in PayloadIds(items)
      ensures accepts(rows[k])
    {
      assert k !in newRows;
      var x := LastFor(items, k);
      var i :| 0 <= i < |items| && items[i] == x;
      assert !accepts(x.fields) ==> Rejected(table.rows, accepts, items);
    }
    forall i | 0 <= i < |s.pending|
      ensures rows[table.next + i] == prepare(s.pending[i].fields)
    {
      assert table.next + i in newRows;
    }
  }

  /** The links part of `PassEffect`, from what phase 1 left behind. */
  lemma {:induction false} PassLinksStep<T, R(!new)>(owner: int, accepts: T -> bool, table: Table<T>,
                                                      links: set<Link<R>>, items: seq<Item<T, R>>, s: Scan<T, R>)
    requires FreshSupply(table)
    requires forall l :: l in links && l.owner == owner ==> l.target in table.rows
    requires OverwriteSpec(owner, table.rows, links, items, s)
    ensures var n := |s.pending|;
      forall l :: l in Evict(owner, s.links + FreshLinks(owner, table.next, s.pending), s.kept + FreshIds(table.next, n))
        <==> Reconciled(links, owner, table.next, items, l)
  {
    var n := |s.pending|;
    var created := s.pending;
    var freshLinks := FreshLinks(owner, table.next, created);
    var kept := s.kept + FreshIds(table.next, n);
    var out := Evict(owner, s.links + freshLinks, kept);
    forall l
      ensures l in out <==> Reconciled(links, owner, table.next, items, l)
    {
      if l.owner != owner {
        assert l !in freshLinks;
        assert l in s.links <==> Retagged(links, owner, items, l);
      } else if l.target in PayloadIds(items) {
        assert l.target in kept;
        assert l in s.links <==> Retagged(links, owner, items, l);
        if table.next <= l.target < table.next + n && l.role == created[l.target - table.next].role {
          assert l == Link(owner, table.next + (l.target - table.next), created[l.target - table.next].role);
        }
      } else if table.next <= l.target < table.next + n {
        assert FreshIds(table.next, n)[l.target - table.next] == l.target;
        assert l.target in kept;
        assert l !in links;
        assert l !in s.links by {
          assert l in s.links <==> Retagged(links, owner, items, l);
        }
        if l.role == created[l.target - table.next].role {
          assert l == Link(owner, table.next + (l.target - table.next), created[l.target - table.next].role);
        }
      } else {
        assert l.target !in kept;
      }
    }
  }

  /**
   * Eviction: after a pass the user links exactly the rows in K, the payload's ids together
   * with the new rows; a link to any other row is deleted.
   */
  lemma {:induction false} PassLinksExactlyKept<T, R(!new)>(owner: int, ownerExists: bool, accepts: T -> bool, prepare: T -> T,
                                                             table: Table<T>, links: set<Link<R>>, items: seq<Item<T, R>>)
    requires FreshSupply(table)
    requires forall l :: l in links && l.owner == owner ==> l.target in table.rows
    requires Pass(owner, ownerExists, accepts, prepare, table, links, items).Ok?
    ensures var out := Pass(owner, ownerExists, accepts, prepare, table, links, items).value;
      forall t :: Holds(out.links, owner, t) <==>
        (t in PayloadIds(items) && Holds(links, owner, t)) || table.next <= t < table.next + |NewItems(items)|
    ensures var out := Pass(owner, ownerExists, accepts, prepare, table, links, items).value;
      forall l :: l in links && l.owner == owner && l.target !in PayloadIds(items) ==> l !in out.links
  {
    PassEffect(owner, ownerExists, accepts, prepare, table, links, items);
    var out := Pass(owner, ownerExists, accepts, prepare, table, links, items).value;
    ReconciledHolds(links, owner, table.next, items, out.links);
  }

  /** The targets of the user's links in a set described by `Reconciled`. */
  lemma {:induction false} ReconciledHolds<T, R(!new)>(links: set<Link<R>>, owner: int, next: int,
                                                        items: seq<Item<T, R>>, out: set<Link<R>>)
    requires forall l :: l in out <==> Reconciled(links, owner, next, items, l)
    ensures forall t :: Holds(out, owner, t) <==>
      (t in PayloadIds(items) && Holds(links, owner, t)) || next <= t < next + |NewItems(items)|
    ensures forall l :: l in links && l.owner == owner && l.target !in PayloadIds(items) && l.target < next ==> l !in out
  {
    var created := NewItems(items);
    forall t
      ensures Holds(out, owner, t) <==>
        (t in PayloadIds(items) && Holds(links, owner, t)) || next <= t < next + |created|
    {
      if t in PayloadIds(items) && Holds(links, owner, t) {
        assert Reconciled(links, owner, next, items, Link(owner, t, LastFor(items, t).role));
      } else if next <= t < next + |created| {
        assert Reconciled(links, owner, next, items, Link(owner, t, created[t - next].role));
      }
      if Holds(out, owner, t) {
        var l :| l in out && l.owner == owner && l.target == t;
        assert Reconciled(links, owner, next, items, l);
      }
    }
  }

  /** A pass touches no other user's links. */
  lemma {:induction false} PassOtherOwnersUnchanged<T, R(!new)>(owner: int, ownerExists: bool, accepts: T -> bool, prepare: T -> T,
                                                                 table: Table<T>, links: set<Link<R>>, items: seq<Item<T, R>>)
    requires FreshSupply(table)
    requires forall l :: l in links && l.owner == owner ==> l.target in table.rows
    requires Pass(owner, ownerExists, accepts, prepare, table, links, items).Ok?
    ensures var out := Pass(owner, ownerExists, accepts, prepare, table, links, items).value;
      forall l: Link<R> :: l.owner != owner ==> (l in out.links <==> l in links)
  {
    PassEffect(owner, ownerExists, accepts, prepare, table, links, items);
  }

  /** An empty list is never rolled back, changes no row, and deletes every link of the user. */
  lemma {:induction false} PassEmptyListClears<T, R(!new)>(owner: int, ownerExists: bool, accepts: T -> bool, prepare: T -> T,
                                                            table: Table<T>, links: set<Link<R>>)
    requires FreshSupply(table)
    requires forall l :: l in links && l.owner == owner ==> l.target in table.rows
    ensures Pass(owner, ownerExists, accepts, prepare, table, links, []).Ok?
    ensures var out := Pass(owner, ownerExists, accepts, prepare, table, links, []).value;
      out.table == table && forall t :: !Holds(out.links, owner, t)
  {
    var items: seq<Item<T, R>> := [];
    PassEffect(owner, ownerExists, accepts, prepare, table, links, items);
    PassLinksExactlyKept(owner, ownerExists, accepts, prepare, table, links, items);
    var out := Pass(owner, ownerExists, accepts, prepare, table, links, items).value;
    assert out.table.rows == table.rows;
  }

  /**
   * No ownership check: an item naming an existing row the user does not link still
   * overwrites that row, but gains the user no link to it.
   */
  lemma {:induction false} PassUnheldIdOverwritesWithoutLink<T, R(!new)>(owner: int, ownerExists: bool, accepts: T -> bool,
                                                                          prepare: T -> T, table: Table<T>,
                                                                          links: set<Link<R>>, items: seq<Item<T, R>>, t: int)
    requires FreshSupply(table)
    requires forall l :: l in links && l.owner == owner ==> l.target in table.rows
    requires Pass(owner, ownerExists, accepts, prepare, table, links, items).Ok?
    requires t in table.rows && t in PayloadIds(items) && !Holds(links, owner, t)
    ensures var out := Pass(owner, ownerExists, accepts, prepare, table, links, items).value;
      t in out.table.rows && out.table.rows[t] == LastFor(items, t).fields && !Holds(out.links, owner, t)
  {
    PassEffect(owner, ownerExists, accepts, prepare, table, links, items);
    PassLinksExactlyKept(owner, ownerExists, accepts, prepare, table, links, items);
  }

  /** Every item names a row the user already links. */
  ghost predicate AllHeld<T, R(!new)>(links: set<Link<R>>, owner: int, items: seq<Item<T, R>>)
  {
    forall i :: 0 <= i < |items| ==> !IsNew(items[i].id) && Holds(links, owner, items[i].id.value)
  }

  /**
   * When every item names a row the user already links, the user's links after the pass
   * are exactly the payload's (id, role) pairs, the last role winning for a repeated id.
   */
  lemma {:induction false} PassExactWhenAllHeld<T, R(!new)>(owner: int, ownerExists: bool, accepts: T -> bool, prepare: T -> T,
                                                             table: Table<T>, links: set<Link<R>>, items: seq<Item<T, R>>)
    requires FreshSupply(table)
    requires forall l :: l in links && l.owner == owner ==> l.target in table.rows
    requires AllHeld(links, owner, items)
    requires Pass(owner, ownerExists, accepts, prepare, table, links, items).Ok?
    ensures var out := Pass(owner, ownerExists, accepts, prepare, table, links, items).value;
      forall l :: l in out.links && l.owner == owner <==>
        l.owner == owner && l.target in PayloadIds(items) && l.role == LastFor(items, l.target).role
  {
    PassEffect(owner, ownerExists, accepts, prepare, table, links, items);
    var out := Pass(owner, ownerExists, accepts, prepare, table, links, items).value;
    ReconciledAllHeld(links, owner, table.next, items, out.links);
  }

  /** The user's links in a set described by `Reconciled`, when every item names a linked row. */
  lemma {:induction false} ReconciledAllHeld<T, R(!new)>(links: set<Link<R>>, owner: int, next: int,
                                                          items: seq<Item<T, R>>, out: set<Link<R>>)
    requires AllHeld(links, owner, items)
    requires forall l :: l in out <==> Reconciled(links, owner, next, items, l)
    ensures forall l :: l in out && l.owner == owner <==>
      l.owner == owner && l.target in PayloadIds(items) && l.role == LastFor(items, l.target).role
  {
    AllHeldHasNoNewItems(links, owner, items);
    forall l: Link<R> | l.owner == owner && l.target in PayloadIds(items)
      ensures Holds(links, owner, l.target)
    {
      var i :| 0 <= i < |items| && !IsNew(items[i].id) && items[i].id.value == l.target;
    }
  }

  /** A list whose every item names a row asks for no new row. */
  lemma {:induction false} AllHeldHasNoNewItems<T, R(!new)>(links: set<Link<R>>, owner: int, items: seq<Item<T, R>>)
    requires AllHeld(links, owner, items)
    ensures NewItems(items) == []
  {
    NoNewItems(items);
  }

  /** A list whose every item carries a non-zero id asks for no new row. */
  lemma {:induction false} NoNewItems<T, R(!new)>(items: seq<Item<T, R>>)
    requires forall i :: 0 <= i < |items| ==> !IsNew(items[i].id)
    ensures NewItems(items) == []
    decreases |items|
  {
    if |items| > 0 {
      var n := |items| - 1;
      var pre := items[..n];
      assert items == pre + [items[n]];
      NoNewItems(pre);
      assert !IsNew(items[n].id);
    }
  }

  /** A pass over a list whose every item carries an id inserts no row. */
  lemma {:induction false} PassWithoutNewRows<T, R(!new)>(owner: int, ownerExists: bool, accepts: T -> bool, prepare: T -> T,
                                                           table: Table<T>, links: set<Link<R>>, items: seq<Item<T, R>>)
    requires FreshSupply(table)
    requires forall l :: l in links && l.owner == owner ==> l.target in table.rows
    requires forall i :: 0 <= i < |items| ==> !IsNew(items[i].id)
    requires Pass(owner, ownerExists, accepts, prepare, table, links, items).Ok?
    ensures var out := Pass(owner, ownerExists, accepts, prepare, table, links, items).value;
      out.table.rows.Keys == table.rows.Keys && out.table.next == table.next
  {
    NoNewItems(items);
    PassEffect(owner, ownerExists, accepts, prepare, table, links, items);
  }

  /** A list whose every item asks for a new row creates one row per item, in list order. */
  lemma {:induction false} AllNewItems<T, R(!new)>(items: seq<Item<T, R>>)
    requires forall i :: 0 <= i < |items| ==> IsNew(items[i].id)
    ensures NewItems(items) == items
    decreases |items|
  {
    if |items| > 0 {
      var n := |items| - 1;
      var pre := items[..n];
      assert items == pre + [items[n]];
      AllNewItems(pre);
      assert IsNew(items[n].id);
    }
  }

  /**
   * Applying a list whose every item names a row a second time changes nothing: the pass
   * is idempotent on the linked table and on the association table.
   */
  lemma {:induction false} PassIdempotent<T, R(!new)>(owner: int, ownerExists: bool, accepts: T -> bool, prepare: T -> T,
                                                       table: Table<T>, links: set<Link<R>>, items: seq<Item<T, R>>)
    requires FreshSupply(table)
    requires forall l :: l in links && l.owner == owner ==> l.target in table.rows
    requires forall i :: 0 <= i < |items| ==> !IsNew(items[i].id)
    requires Pass(owner, ownerExists, accepts, prepare, table, links, items).Ok?
    ensures var out := Pass(owner, ownerExists, accepts, prepare, table, links, items).value;
      Pass(owner, ownerExists, accepts, prepare, out.table, out.links, items) == Ok(out)
  {
    NoNewItems(items);
    var out := Pass(owner, ownerExists, accepts, prepare, table, links, items).value;
    PassEffect(owner, ownerExists, accepts, prepare, table, links, items);
    assert FreshSupply(out.table);
    ReconciledTargetsHeld(links, owner, table.next, items, out.links);
    assert !Rejected(out.table.rows, accepts, items);
    PassEffect(owner, ownerExists, accepts, prepare, out.table, out.links, items);
    var again := Pass(owner, ownerExists, accepts, prepare, out.table, out.links, items).value;
    RowsTwice(table, items, out.table, again.table);
    ReconcileTwice(links, owner, table.next, items, out.links, again.links);
  }

  /** Without new items, every link of the user in a reconciled set points at a row it linked before. */
  lemma {:induction false} ReconciledTargetsHeld<T, R(!new)>(links: set<Link<R>>, owner: int, next: int,
                                                              items: seq<Item<T, R>>, out: set<Link<R>>)
    requires NewItems(items) == []
    requires forall l :: l in out <==> Reconciled(links, owner, next, items, l)
    ensures forall l :: l in out && l.owner == owner ==> Holds(links, owner, l.target)
  {
    forall l | l in out && l.owner == owner
      ensures Holds(links, owner, l.target)
    {
      assert Reconciled(links, owner, next, items, l);
    }
  }

  /** Overwriting a second time with the same list, and creating nothing, gives the same table. */
  lemma {:induction false} RowsTwice<T, R(!new)>(table: Table<T>, items: seq<Item<T, R>>, once: Table<T>, twice: Table<T>)
    requires NewItems(items) == []
    requires once.next == table.next && twice.next == once.next
    requires forall k :: k in once.rows <==> k in table.rows
    requires forall k :: k in twice.rows <==> k in once.rows
    requires forall k :: k in table.rows ==>
      once.rows[k] == if k in PayloadIds(items) then LastFor(items, k).fields else table.rows[k]
    requires forall k :: k in once.rows ==>
      twice.rows[k] == if k in PayloadIds(items) then LastFor(items, k).fields else once.rows[k]
    ensures twice == once
  {
    forall k | k in once.rows
      ensures twice.rows[k] == once.rows[k]
    {
      assert k in table.rows;
    }
    forall k
      ensures k in twice.rows <==> k in once.rows
    {
    }
    SameMap(twice.rows, once.rows);
  }

  /** Two maps with the same keys and the same value at every key are equal. */
  lemma SameMap<K, V>(a: map<K, V>, b: map<K, V>)
    requires forall k :: k in a <==> k in b
    requires forall k :: k in b ==> a[k] == b[k]
    ensures a == b
  {
  }

  /** Reconciling an already reconciled set against a list without new items gives it back. */
  lemma {:induction false} ReconcileTwice<T, R(!new)>(links: set<Link<R>>, owner: int, next: int,
                                                       items: seq<Item<T, R>>, out: set<Link<R>>, again: set<Link<R>>)
    requires NewItems(items) == []
    requires forall l :: l in out <==> Reconciled(links, owner, next, items, l)
    requires forall l :: l in again <==> Reconciled(out, owner, next, items, l)
    ensures again == out
  {
    ReconciledHolds(links, owner, next, items, out);
    forall l
      ensures l in again <==> l in out
    {
      assert l in again <==> Reconciled(out, owner, next, items, l);
      assert l in out <==> Reconciled(links, owner, next, items, l);
    }
  }

  /** A pass keeps the composite key (owner, target) unique. */
  lemma {:induction false} PassKeepsLinksUnique<T, R(!new)>(owner: int, ownerExists: bool, accepts: T -> bool, prepare: T -> T,
                                                             table: Table<T>, links: set<Link<R>>, items: seq<Item<T, R>>)
    requires FreshSupply(table)
    requires forall l :: l in links && l.owner == owner ==> l.target in table.rows
    requires UniqueLinks(links)
    requires Pass(owner, ownerExists, accepts, prepare, table, links, items).Ok?
    ensures UniqueLinks(Pass(owner, ownerExists, accepts, prepare, table, links, items).value.links)
  {
    PassEffect(owner, ownerExists, accepts, prepare, table, links, items);
    var out := Pass(owner, ownerExists, accepts, prepare, table, links, items).value;
    ReconciledUnique(links, owner, table.next, items, out.links);
  }

  /** A link set described by `Reconciled` has at most one link per (owner, target). */
  lemma {:induction false} ReconciledUnique<T, R(!new)>(links: set<Link<R>>, owner: int, next: int,
                                                         items: seq<Item<T, R>>, out: set<Link<R>>)
    requires UniqueLinks(links)
    requires forall l :: l in links && l.owner == owner ==> l.target < next
    requires forall l :: l in out <==> Reconciled(links, owner, next, items, l)
    ensures UniqueLinks(out)
  {
    forall a, b | a in out && b in out && a.owner == b.owner && a.target == b.target
      ensures a == b
    {
      assert Reconciled(links, owner, next, items, a);
      assert Reconciled(links, owner, next, items, b);
      if a.owner == owner && Holds(links, owner, a.target) {
        var l0 :| l0 in links && l0.owner == owner && l0.target == a.target;
        assert a.target < next;
      }
    }
  }

  /**
   * A pass keeps both foreign keys of the association table resolving, and keeps the
   * serial ahead of every stored id.
   */
  lemma {:induction false} PassKeepsReferences<T, R(!new), U>(owner: int, ownerExists: bool, accepts: T -> bool, prepare: T -> T,
                                                               table: Table<T>, links: set<Link<R>>, items: seq<Item<T, R>>,
                                                               owners: map<int, U>)
    requires FreshSupply(table)
    requires LinksResolve(links, owners, table.rows)
    requires ownerExists == (owner in owners)
    requires Pass(owner, ownerExists, accepts, prepare, table, links, items).Ok?
    ensures var out := Pass(owner, ownerExists, accepts, prepare, table, links, items).value;
      FreshSupply(out.table) && LinksResolve(out.links, owners, out.table.rows)
  {
    PassEffect(owner, ownerExists, accepts, prepare, table, links, items);
    var out := Pass(owner, ownerExists, accepts, prepare, table, links, items).value;
    forall l | l in out.links
      ensures l.owner in owners && l.target in out.table.rows
    {
      assert Reconciled(links, owner, table.next, items, l);
      if l.owner == owner && l.target in PayloadIds(items) && Holds(links, owner, l.target) {
        var l0 :| l0 in links && l0.owner == owner && l0.target == l.target;
      }
    }
  }

  /**
   * A row property survives a pass when the stored rows have it, every accepted overwrite
   * has it, and every new row as built has it; no stored row is deleted.
   */
  lemma {:induction false} PassKeepsRowProperty<T, R(!new)>(owner: int, ownerExists: bool, accepts: T -> bool, prepare: T -> T,
                                                             table: Table<T>, links: set<Link<R>>, items: seq<Item<T, R>>,
                                                             P: T -> bool)
    requires FreshSupply(table)
    requires forall l :: l in links && l.owner == owner ==> l.target in table.rows
    requires Pass(owner, ownerExists, accepts, prepare, table, links, items).Ok?
    requires forall k :: k in table.rows ==> P(table.rows[k])
    requires forall i :: 0 <= i < |items| && !IsNew(items[i].id) && accepts(items[i].fields) ==> P(items[i].fields)
    requires forall i :: 0 <= i < |items| && IsNew(items[i].id) ==> P(prepare(items[i].fields))
    ensures var out := Pass(owner, ownerExists, accepts, prepare, table, links, items).value;
      forall k :: k in table.rows ==> k in out.table.rows
    ensures var out := Pass(owner, ownerExists, accepts, prepare, table, links, items).value;
      forall k :: k in out.table.rows ==> P(out.table.rows[k])
  {
    PassEffect(owner, ownerExists, accepts, prepare, table, links, items);
    var out := Pass(owner, ownerExists, accepts, prepare, table, links, items).value;
    RowsKeepProperty(accepts, prepare, table, items, out.table.rows, P);
  }

  /** The row half of `PassKeepsRowProperty`, from the row facts of `PassSpec` alone. */
  lemma {:induction false} RowsKeepProperty<T, R(!new)>(accepts: T -> bool, prepare: T -> T, table: Table<T>,
                                                         items: seq<Item<T, R>>, rows: map<int, T>, P: T -> bool)
    requires forall k :: k in rows <==> k in table.rows || table.next <= k < table.next + |NewItems(items)|
    requires forall k :: k in table.rows ==>
      rows[k] == if k in PayloadIds(items) then LastFor(items, k).fields else table.rows[k]
    requires forall k :: k in table.rows && k in PayloadIds(items) ==> accepts(rows[k])
    requires forall i :: 0 <= i < |NewItems(items)| ==> rows[table.next + i] == prepare(NewItems(items)[i].fields)
    requires forall k :: k in table.rows ==> P(table.rows[k])
    requires forall i :: 0 <= i < |items| && !IsNew(items[i].id) && accepts(items[i].fields) ==> P(items[i].fields)
    requires forall i :: 0 <= i < |items| && IsNew(items[i].id) ==> P(prepare(items[i].fields))
    ensures forall k :: k in rows ==> P(rows[k])
  {
    var created := NewItems(items);
    forall k | k in rows
      ensures P(rows[k])
    {
      if k in table.rows {
        if k in PayloadIds(items) {
          var x := LastFor(items, k);
          var j :| 0 <= j < |items| && items[j] == x;
          assert accepts(rows[k]);
        }
      } else {
        var i := k - table.next;
        assert rows[table.next + i] == prepare(created[i].fields);
        assert created[i] in items;
        var j :| 0 <= j < |items| && items[j] == created[i];
      }
    }
  }

  /** `LastFor` picks the item at the last position that names the row. */
  lemma {:induction false} LastForIsLastOccurrence<T, R(!new)>(items: seq<Item<T, R>>, t: int)
    requires t in PayloadIds(items)
    ensures exists j :: (0 <= j < |items| && items[j] == LastFor(items, t) &&
                         forall k :: j < k < |items| ==> IsNew(items[k].id) || items[k].id.value != t)
    decreases |items|
  {
    var n := |items| - 1;
    if !IsNew(items[n].id) && items[n].id.value == t {
      assert items[n] == LastFor(items, t);
    } else {
      var pre := items[..n];
      assert t in PayloadIds(pre) by {
        var i :| 0 <= i < |items| && !IsNew(items[i].id) && items[i].id.value == t;
        assert pre[i] == items[i];
      }
      LastForIsLastOccurrence(pre, t);
      var j :| 0 <= j < |pre| && pre[j] == LastFor(pre, t) &&
        (forall k :: j < k < |pre| ==> IsNew(pre[k].id) || pre[k].id.value != t);
      assert items[j] == pre[j];
      forall k | j < k < |items|
        ensures IsNew(items[k].id) || items[k].id.value != t
      {
        if k < n {
          assert items[k] == pre[k];
        }
      }
    }
  }

  /** New rows are created in list order: the new items of a concatenation are concatenated. */
  lemma {:induction false} NewItemsInOrder<T, R(!new)>(a: seq<Item<T, R>>, b: seq<Item<T, R>>)
    ensures NewItems(a + b) == NewItems(a) + NewItems(b)
    decreases |b|
  {
    if |b| == 0 {
      assert a + b == a;
    } else {
      var n := |b| - 1;
      assert (a + b)[..|a + b| - 1] == a + b[..n];
      assert (a + b)[|a + b| - 1] == b[n];
      NewItemsInOrder(a, b[..n]);
    }
  }
}
