/**
 * The repository operations on users: lookups, creation with nested films and companies,
 * and the full update that reconciles a user's film and company links with a submitted
 * list. Each operation is one transaction: it either returns the new state or an error,
 * in which case the caller keeps the state it had.
 */
module Crud {
  import opened Wrappers
  import opened Roles
  import opened Models
  import opened Reconcile
  import opened Schemas

  /** A user with its association rows loaded, as the eager lookups return it. */
  datatype UserView = UserView(id: int, user: UserRow, films: set<Link<FilmRole>>, companies: set<Link<CompanyRole>>)

  /** The stored user `id` with its film and company links. */
  function ViewOf(db: Db, id: int): (v: UserView)
    requires id in db.users.rows
    ensures v.id == id && v.user == db.users.rows[id]
    ensures forall l :: l in v.films <==> l in db.crew && l.owner == id
    ensures forall l :: l in v.companies <==> l in db.staff && l.owner == id
  {
    UserView(id, db.users.rows[id], set l | l in db.crew && l.owner == id, set l | l in db.staff && l.owner == id)
  }

  // ---------------------------------------------------------------------------------
  // Lookups
  // ---------------------------------------------------------------------------------

  /** `get_user`: the user with that primary key, or nothing. */
  function GetUser(db: Db, id: int): (r: Option<UserView>)
    ensures r.Some? <==> id in db.users.rows
    ensures r.Some? ==> r.value.id == id && r.value.user == db.users.rows[id]
    ensures r.Some? ==> forall l :: l in r.value.films <==> l in db.crew && l.owner == id
    ensures r.Some? ==> forall l :: l in r.value.companies <==> l in db.staff && l.owner == id
  {
    if id in db.users.rows then Some(ViewOf(db, id)) else None
  }

  /**
   * The order in which an unordered scan of `users` visits the rows. The database
   * chooses it; the model takes it as a parameter: every stored id exactly once.
   */
  ghost predicate ScanOrder(db: Db, order: seq<int>)
  {
    && (forall i :: 0 <= i < |order| ==> order[i] in db.users.rows)
    && (forall i, j :: 0 <= i < j < |order| ==> order[i] != order[j])
    && (forall id :: id in db.users.rows ==> id in order)
  }

  function Min(a: int, b: int): int
  {
    if a <= b then a else b
  }

  /** The ids an `OFFSET skip LIMIT limit` window keeps from a scan. */
  function Window(order: seq<int>, skip: nat, limit: nat): (page: seq<int>)
    ensures |page| == if skip >= |order| then 0 else Min(limit, |order| - skip)
    ensures forall i :: 0 <= i < |page| ==> page[i] == order[skip + i]
  {
    if skip >= |order| then [] else order[skip..Min(skip + limit, |order|)]
  }

  /**
   * `get_users`: at most `limit` users, skipping the first `skip` of the scan. A negative
   * OFFSET or LIMIT is refused by the database.
   */
  function GetUsers(db: Db, order: seq<int>, skip: int, limit: int): (r: Result<seq<UserView>, DbError>)
    requires ScanOrder(db, order)
    ensures r.Err? <==> skip < 0 || limit < 0
    ensures r.Ok? ==> |r.value| <= limit
    ensures r.Ok? ==> |r.value| == if skip >= |order| then 0 else Min(limit, |order| - skip)
    ensures r.Ok? ==> forall i :: 0 <= i < |r.value| ==> r.value[i] == ViewOf(db, order[skip + i])
  {
    if skip < 0 then Err(NegativeBound("OFFSET"))
    else if limit < 0 then Err(NegativeBound("LIMIT"))
    else
      var page := Window(order, skip, limit);
      Ok(seq(|page|, i requires 0 <= i < |page| => ViewOf(db, page[i])))
  }

  /** `get_user_by_email`: the first user of the scan whose email matches, or nothing. */
  method GetUserByEmail(db: Db, order: seq<int>, email: string) returns (r: Option<UserView>)
    requires ScanOrder(db, order)
    ensures r.Some? <==> exists id :: id in db.users.rows && db.users.rows[id].email == email
    ensures r.Some? ==> r.value.user.email == email
    ensures r.Some? ==> exists i :: (0 <= i < |order| && r.value == ViewOf(db, order[i]) &&
      forall j :: 0 <= j < i ==> db.users.rows[order[j]].email != email)
  {
    var i := 0;
    while i < |order|
      invariant 0 <= i <= |order|
      invariant forall j :: 0 <= j < i ==> db.users.rows[order[j]].email != email
    {
      if db.users.rows[order[i]].email == email {
        return Some(ViewOf(db, order[i]));
      }
      i := i + 1;
    }
    forall id | id in db.users.rows
      ensures db.users.rows[id].email != email
    {
      var j :| 0 <= j < |order| && order[j] == id;
    }
    return None;
  }

  // ---------------------------------------------------------------------------------
  // create_user
  // ---------------------------------------------------------------------------------

  /**
   * A new film is inserted without its `company_id`. A `genres` sent as null is left out of
   * the INSERT, as the ORM does with every None attribute, so the column default, the
   * empty list, is stored instead.
   */
  function AsInsertedFilm(f: FilmRow): (g: FilmRow)
    ensures g.companyId.None?
    ensures f.genres.Some? ==> g.genres == f.genres
    ensures f.genres.None? ==> g.genres == Some([])
    ensures g.(companyId := f.companyId, genres := f.genres) == f
  {
    f.(companyId := None, genres := if f.genres.None? then Some([]) else f.genres)
  }

  /** The Integer columns an INSERT of a film fills from the payload: `budget` and `release_year`. */
  predicate FilmInsertFits(f: FilmRow)
  {
    InInt4(f.budget) && InInt4(f.releaseYear)
  }

  /** A new company is inserted with every submitted field. */
  function AsInsertedCompany(c: CompanyRow): CompanyRow
  {
    c
  }

  /** The create entries as new items of the reconciler, in list order. */
  function FilmItems(films: seq<FilmCreateItem>): (items: seq<Item<FilmRow, FilmRole>>)
    ensures |items| == |films|
    ensures forall i :: 0 <= i < |films| ==> items[i] == Item(films[i].role, None, films[i].film)
  {
    seq(|films|, i requires 0 <= i < |films| => Item(films[i].role, None, films[i].film))
  }

  function CompanyItems(companies: seq<CompanyCreateItem>): (items: seq<Item<CompanyRow, CompanyRole>>)
    ensures |items| == |companies|
    ensures forall i :: 0 <= i < |companies| ==> items[i] == Item(companies[i].role, None, companies[i].company)
  {
    seq(|companies|, i requires 0 <= i < |companies| => Item(companies[i].role, None, companies[i].company))
  }

  /**
   * The state after `create_user` has inserted user `user` under id `uid` and the new
   * films and companies with their association rows.
   */
  function Inserted(db: Db, uid: int, user: UserRow, films: seq<Item<FilmRow, FilmRole>>,
                    companies: seq<Item<CompanyRow, CompanyRole>>): (after: Db)
    ensures after.users.rows.Keys == db.users.rows.Keys + {uid} && after.users.rows[uid] == user
    ensures after.films.next == db.films.next + |films| && after.companies.next == db.companies.next + |companies|
  {
    Db(
      Table(db.users.rows[uid := user], uid + 1),
      Table(db.films.rows + FreshRows(db.films.next, films, AsInsertedFilm), db.films.next + |films|),
      Table(db.companies.rows + FreshRows(db.companies.next, companies, AsInsertedCompany),
            db.companies.next + |companies|),
      db.crew + FreshLinks(uid, db.films.next, films),
      db.staff + FreshLinks(uid, db.companies.next, companies))
  }

  /** The state after a create, and the created user as returned. */
  datatype Created = Created(db: Db, user: UserView)

  /**
   * The payloads `create_user` commits: both lists are lists and every Integer value it
   * inserts fits its column.
   */
  predicate CreateCommits(p: UserCreate)
  {
    && InInt4(p.minimumFee)
    && p.films.Some? && p.companies.Some?
    && forall i :: 0 <= i < |p.films.value| ==> FilmInsertFits(p.films.value[i].film)
  }

  /**
   * `create_user`: insert the user, then its films in list order, one crew row per film
   * with the role at the same position, then its companies and staff rows the same way.
   * The transaction is rolled back at the first step that fails: the user INSERT with a fee
   * out of range, iterating a list sent as null, or the film INSERT with a budget or year
   * out of range.
   */
  function CreateUser(db: Db, p: UserCreate): (r: Result<Created, DbError>)
    ensures r.Ok? <==> CreateCommits(p)
    ensures !InInt4(p.minimumFee) ==> r == Err(OutOfRange("users"))
    ensures InInt4(p.minimumFee) && p.films.None? ==> r == Err(NotAList("films"))
    ensures InInt4(p.minimumFee) && p.films.Some?
            && (exists i :: 0 <= i < |p.films.value| && !FilmInsertFits(p.films.value[i].film)) ==>
              r == Err(OutOfRange("films"))
    ensures InInt4(p.minimumFee) && p.films.Some?
            && (forall i :: 0 <= i < |p.films.value| ==> FilmInsertFits(p.films.value[i].film))
            && p.companies.None? ==>
              r == Err(NotAList("companies"))
    ensures r == Err(NotAList("companies")) ==> p.companies.None?
    ensures r == Err(OutOfRange("films")) ==>
      exists i :: 0 <= i < |p.films.value| && !FilmInsertFits(p.films.value[i].film)
    ensures r.Ok? ==> r.value.user.id == db.users.next && db.users.next in r.value.db.users.rows
  {
    var uid := db.users.next;
    if !InInt4(p.minimumFee) then Err(OutOfRange("users"))
    else if p.films.None? then Err(NotAList("films"))
    else if exists i :: 0 <= i < |p.films.value| && !FilmInsertFits(p.films.value[i].film) then Err(OutOfRange("films"))
    else if p.companies.None? then Err(NotAList("companies"))
    else
      var after := Inserted(db, uid, UserRow(p.firstName, p.lastName, p.email, p.minimumFee),
                            FilmItems(p.films.value), CompanyItems(p.companies.value));
      Ok(Created(after, ViewOf(after, uid)))
  }

  // ---------------------------------------------------------------------------------
  // update_user_post
  // ---------------------------------------------------------------------------------

  /**
   * The first statement of `update_user_post`: an UPDATE of the user's row with the
   * payload's scalar fields (the lists are popped first; `email` is not in the payload).
   * An UPDATE matching no row changes nothing.
   */
  function UpdateScalars(users: Table<UserRow>, p: UserUpdate): (t: Table<UserRow>)
    ensures t.next == users.next && t.rows.Keys == users.rows.Keys
    ensures forall k :: k in users.rows && k != p.id ==> t.rows[k] == users.rows[k]
    ensures p.id in users.rows ==> t.rows[p.id] == UserRow(p.firstName, p.lastName, users.rows[p.id].email, p.minimumFee)
  {
    if p.id in users.rows then
      Table(users.rows[p.id := users.rows[p.id].(firstName := p.firstName, lastName := p.lastName,
                                                  minimumFee := p.minimumFee)], users.next)
    else users
  }

  /**
   * The foreign key `films.company_id` as the database checks it when a film row is
   * overwritten: NULL, or the id of a stored company.
   */
  function FilmsAccept(companyIds: set<int>): FilmRow -> bool
  {
    (f: FilmRow) => f.companyId.None? || f.companyId.value in companyIds
  }

  /** A company row references nothing, so an overwrite is never refused. */
  function CompaniesAccept(c: CompanyRow): bool
  {
    true
  }

  /**
   * The Integer values an update entry sends to `films`: an overwrite sets every field of
   * the entry, the id and `company_id` included; an insert sets `budget` and `release_year`.
   */
  predicate FilmItemFits(x: Item<FilmRow, FilmRole>)
  {
    && FilmInsertFits(x.fields)
    && (!IsNew(x.id) ==> InInt4(x.id.value) && (x.fields.companyId.Some? ==> InInt4(x.fields.companyId.value)))
  }

  predicate FilmItemsFit(items: seq<Item<FilmRow, FilmRole>>)
  {
    forall i :: 0 <= i < |items| ==> FilmItemFits(items[i])
  }

  /** A company overwrite sets the id; companies have no other Integer column. */
  predicate CompanyItemFits(x: Item<CompanyRow, CompanyRole>)
  {
    !IsNew(x.id) ==> InInt4(x.id.value)
  }

  predicate CompanyItemsFit(items: seq<Item<CompanyRow, CompanyRole>>)
  {
    forall i :: 0 <= i < |items| ==> CompanyItemFits(items[i])
  }

  /**
   * The film half of `update_user_post`, on `films` and `user_film`. An entry carrying a
   * value out of an Integer column's range makes its statement fail.
   */
  function FilmPass(db: Db, userId: int, items: seq<Item<FilmRow, FilmRole>>): (r: Result<Db, DbError>)
    ensures !FilmItemsFit(items) ==> r == Err(OutOfRange("films"))
    ensures r.Ok? ==> r.value.users == db.users && r.value.companies == db.companies && r.value.staff == db.staff
  {
    if !FilmItemsFit(items) then Err(OutOfRange("films"))
    else match Pass(userId, userId in db.users.rows, FilmsAccept(db.companies.rows.Keys), AsInsertedFilm,
                    db.films, db.crew, items)
    case Err(e) => Err(e)
    case Ok(out) => Ok(db.(films := out.table, crew := out.links))
  }

  /** The company half of `update_user_post`, on `companies` and `company_user`. */
  function CompanyPass(db: Db, userId: int, items: seq<Item<CompanyRow, CompanyRole>>): (r: Result<Db, DbError>)
    ensures !CompanyItemsFit(items) ==> r == Err(OutOfRange("companies"))
    ensures r.Ok? ==> r.value.users == db.users && r.value.films == db.films && r.value.crew == db.crew
  {
    if !CompanyItemsFit(items) then Err(OutOfRange("companies"))
    else match Pass(userId, userId in db.users.rows, CompaniesAccept, AsInsertedCompany, db.companies, db.staff, items)
    case Err(e) => Err(e)
    case Ok(out) => Ok(db.(companies := out.table, staff := out.links))
  }

  /** The state after an update, and the user as read back afterwards. */
  datatype Updated = Updated(db: Db, user: Option<UserView>)

  /**
   * `update_user_post`: the scalar update, then the film pass, then the company pass,
   * then the user read back by primary key. The scalar UPDATE sets the id and the fee, so
   * either being out of the Integer range fails it, whether or not a row matches.
   */
  function UpdateUserPost(db: Db, p: UserUpdate): (r: Result<Updated, DbError>)
    ensures !InInt4(p.id) || !InInt4(p.minimumFee) ==> r == Err(OutOfRange("users"))
    ensures InInt4(p.id) && InInt4(p.minimumFee) && p.films.None? ==> r == Err(NotAList("films"))
    ensures r.Ok? ==> p.films.Some? && p.companies.Some?
    ensures r.Ok? ==> r.value.db.users == UpdateScalars(db.users, p)
    ensures r.Ok? ==> r.value.user == GetUser(r.value.db, p.id)
  {
    if !InInt4(p.id) || !InInt4(p.minimumFee) then Err(OutOfRange("users"))
    else
      var scalars := db.(users := UpdateScalars(db.users, p));
      if p.films.None? then Err(NotAList("films"))
      else match FilmPass(scalars, p.id, p.films.value)
      case Err(e) => Err(e)
      case Ok(filmed) =>
        if p.companies.None? then Err(NotAList("companies"))
        else match CompanyPass(filmed, p.id, p.companies.value)
        case Err(e) => Err(e)
        case Ok(after) => Ok(Updated(after, GetUser(after, p.id)))
  }
}
