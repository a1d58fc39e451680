/**
 * What the repository operations promise about the state: the rows and links
 * `create_user` adds, the effect of each pass of `update_user_post`, the cases in which
 * a transaction is rolled back, and the table constraints every committed transaction
 * keeps.
 */
module CrudProperties {
  import opened Wrappers
  import opened Roles
  import opened Models
  import opened Reconcile
  import opened Schemas
  import opened Crud

  // ---------------------------------------------------------------------------------
  // create_user
  // ---------------------------------------------------------------------------------

  /** Appending the rows of new items keeps every stored row; item i becomes row `next + i`. */
  lemma {:induction false} AppendFreshRows<T, R(!new)>(prepare: T -> T, table: Table<T>, created: seq<Item<T, R>>)
    requires FreshSupply(table)
    ensures var rows := table.rows + FreshRows(table.next, created, prepare);
      && (forall k :: k in rows <==> k in table.rows || table.next <= k < table.next + |created|)
      && (forall k :: k in table.rows ==> rows[k] == table.rows[k])
      && (forall i :: 0 <= i < |created| ==> rows[table.next + i] == prepare(created[i].fields))
  {
    var added := FreshRows(table.next, created, prepare);
    forall k | k in table.rows
      ensures k !in added
    {
    }
  }

  /** The links appended for new rows are all new: the table grows by exactly one link per item. */
  lemma {:induction false} AppendFreshLinksCount<T, R(!new)>(owner: int, table: Table<T>, links: set<Link<R>>,
                                                              created: seq<Item<T, R>>)
    requires FreshSupply(table)
    requires forall l :: l in links ==> l.target in table.rows
    ensures |links + FreshLinks(owner, table.next, created)| == |links| + |created|
  {
    var added := FreshLinks(owner, table.next, created);
    forall l | l in added
      ensures l !in links
    {
      assert table.next <= l.target;
    }
    DisjointUnionSize(links, added);
  }

  /** The union of two disjoint sets has the sum of their sizes. */
  lemma DisjointUnionSize<X>(a: set<X>, b: set<X>)
    requires forall x :: x in b ==> x !in a
    ensures |a + b| == |a| + |b|
  {
    assert a * b == {};
  }

  /** The film rows of the inserted state. */
  lemma InsertedFilmRows(db: Db, uid: int, user: UserRow, films: seq<FilmCreateItem>,
                         companies: seq<Item<CompanyRow, CompanyRole>>)
    requires FreshSupply(db.films)
    ensures var after := Inserted(db, uid, user, FilmItems(films), companies); var f0 := db.films.next;
      && (forall k :: k in after.films.rows <==> k in db.films.rows || f0 <= k < f0 + |films|)
      && (forall k :: k in db.films.rows ==> after.films.rows[k] == db.films.rows[k])
      && (forall i :: 0 <= i < |films| ==> var f := films[i].film;
            after.films.rows[f0 + i] == f.(companyId := None, genres := if f.genres.None? then Some([]) else f.genres))
  {
    var items := FilmItems(films);
    AppendFreshRows(AsInsertedFilm, db.films, items);
    assert forall i :: 0 <= i < |films| ==> items[i].fields == films[i].film;
  }

  /** The crew rows of the inserted state: the stored ones and one per new film. */
  lemma InsertedCrew(db: Db, uid: int, user: UserRow, films: seq<FilmCreateItem>,
                     companies: seq<Item<CompanyRow, CompanyRole>>)
    ensures var after := Inserted(db, uid, user, FilmItems(films), companies); var f0 := db.films.next;
      && (forall l :: l in after.crew <==>
            l in db.crew || exists i :: 0 <= i < |films| && l == Link(uid, f0 + i, films[i].role))
  {
    FilmItemLinks(uid, db.films.next, films);
  }

  /** The association rows of the create entries: the i-th links `uid` to row `f0 + i` with the i-th role. */
  lemma FilmItemLinks(uid: int, f0: int, films: seq<FilmCreateItem>)
    ensures forall l :: l in FreshLinks(uid, f0, FilmItems(films)) <==>
      exists i :: 0 <= i < |films| && l == Link(uid, f0 + i, films[i].role)
  {
    var items := FilmItems(films);
    var added := FreshLinks(uid, f0, items);
    forall l
      ensures l in added <==> exists i :: 0 <= i < |films| && l == Link(uid, f0 + i, films[i].role)
    {
      if l in added {
        var i := l.target - f0;
        assert items[i].role == films[i].role;
        assert l == Link(uid, f0 + i, films[i].role);
      }
      if exists i :: 0 <= i < |films| && l == Link(uid, f0 + i, films[i].role) {
        var i :| 0 <= i < |films| && l == Link(uid, f0 + i, films[i].role);
        assert items[i].role == films[i].role;
      }
    }
  }

  /** The crew table grows by exactly one row per new film. */
  lemma InsertedCrewCount(db: Db, uid: int, user: UserRow, films: seq<FilmCreateItem>,
                          companies: seq<Item<CompanyRow, CompanyRole>>)
    requires FreshSupply(db.films)
    requires forall l :: l in db.crew ==> l.target in db.films.rows
    ensures |Inserted(db, uid, user, FilmItems(films), companies).crew| == |db.crew| + |films|
  {
    AppendFreshLinksCount(uid, db.films, db.crew, FilmItems(films));
  }

  /** The company rows of the inserted state. */
  lemma InsertedCompanyRows(db: Db, uid: int, user: UserRow, films: seq<Item<FilmRow, FilmRole>>,
                            companies: seq<CompanyCreateItem>)
    requires FreshSupply(db.companies)
    ensures var after := Inserted(db, uid, user, films, CompanyItems(companies)); var c0 := db.companies.next;
      && (forall k :: k in after.companies.rows <==> k in db.companies.rows || c0 <= k < c0 + |companies|)
      && (forall k :: k in db.companies.rows ==> after.companies.rows[k] == db.companies.rows[k])
      && (forall i :: 0 <= i < |companies| ==> after.companies.rows[c0 + i] == companies[i].company)
  {
    var items := CompanyItems(companies);
    AppendFreshRows(AsInsertedCompany, db.companies, items);
    assert forall i :: 0 <= i < |companies| ==> items[i].fields == companies[i].company;
  }

  /** The staff rows of the inserted state: the stored ones and one per new company. */
  lemma InsertedStaff(db: Db, uid: int, user: UserRow, films: seq<Item<FilmRow, FilmRole>>,
                      companies: seq<CompanyCreateItem>)
    ensures var after := Inserted(db, uid, user, films, CompanyItems(companies)); var c0 := db.companies.next;
      && (forall l :: l in after.staff <==>
            l in db.staff || exists i :: 0 <= i < |companies| && l == Link(uid, c0 + i, companies[i].role))
  {
    CompanyItemLinks(uid, db.companies.next, companies);
  }

  /** The association rows of the create entries: the i-th links `uid` to row `c0 + i` with the i-th role. */
  lemma CompanyItemLinks(uid: int, c0: int, companies: seq<CompanyCreateItem>)
    ensures forall l :: l in FreshLinks(uid, c0, CompanyItems(companies)) <==>
      exists i :: 0 <= i < |companies| && l == Link(uid, c0 + i, companies[i].role)
  {
    var items := CompanyItems(companies);
    var added := FreshLinks(uid, c0, items);
    forall l
      ensures l in added <==> exists i :: 0 <= i < |companies| && l == Link(uid, c0 + i, companies[i].role)
    {
      if l in added {
        var i := l.target - c0;
        assert items[i].role == companies[i].role;
        assert l == Link(uid, c0 + i, companies[i].role);
      }
      if exists i :: 0 <= i < |companies| && l == Link(uid, c0 + i, companies[i].role) {
        var i :| 0 <= i < |companies| && l == Link(uid, c0 + i, companies[i].role);
        assert items[i].role == companies[i].role;
      }
    }
  }

  /** The staff table grows by exactly one row per new company. */
  lemma InsertedStaffCount(db: Db, uid: int, user: UserRow, films: seq<Item<FilmRow, FilmRole>>,
                           companies: seq<CompanyCreateItem>)
    requires FreshSupply(db.companies)
    requires forall l :: l in db.staff ==> l.target in db.companies.rows
    ensures |Inserted(db, uid, user, films, CompanyItems(companies)).staff| == |db.staff| + |companies|
  {
    AppendFreshLinksCount(uid, db.companies, db.staff, CompanyItems(companies));
  }

  /**
   * Links from owner `uid` to freshly inserted rows keep the composite key unique and both
   * references resolving, provided `uid` is stored once the links are.
   */
  lemma {:induction false} AppendedLinksValid<T, R(!new), U>(prepare: T -> T, table: Table<T>, links: set<Link<R>>,
                                                              owners: map<int, U>, newOwners: map<int, U>,
                                                              uid: int, created: seq<Item<T, R>>)
    requires FreshSupply(table) && UniqueLinks(links) && LinksResolve(links, owners, table.rows)
    requires uid in newOwners && forall k :: k in owners ==> k in newOwners
    ensures var after := links + FreshLinks(uid, table.next, created);
      UniqueLinks(after) && LinksResolve(after, newOwners, table.rows + FreshRows(table.next, created, prepare))
  {
    var added := FreshLinks(uid, table.next, created);
    forall a, b | a in links + added && b in links + added && a.owner == b.owner && a.target == b.target
      ensures a == b
    {
      if a in added && b in added {
        var i := a.target - table.next;
        assert a.role == created[i].role && b.role == created[i].role;
      }
    }
  }

  /** The inserted films either keep a stored film's company or have none. */
  lemma InsertedFilmCompaniesResolve(db: Db, uid: int, user: UserRow, films: seq<Item<FilmRow, FilmRole>>,
                                     companies: seq<Item<CompanyRow, CompanyRole>>)
    requires FreshSupply(db.films) && FreshSupply(db.companies)
    requires FilmCompaniesResolve(db.films.rows, db.companies.rows)
    ensures var after := Inserted(db, uid, user, films, companies);
      FilmCompaniesResolve(after.films.rows, after.companies.rows)
  {
    FreshRowsHave(db.films.next, films, AsInsertedFilm, WithoutCompany);
  }

  /** A film row that names no company. */
  predicate WithoutCompany(f: FilmRow)
  {
    f.companyId.None?
  }

  /** The crew rows of the inserted state keep their key unique and their references resolving. */
  lemma InsertedCrewValid(db: Db, uid: int, user: UserRow, films: seq<Item<FilmRow, FilmRole>>,
                          companies: seq<Item<CompanyRow, CompanyRole>>)
    requires Valid(db) && uid == db.users.next
    ensures var after := Inserted(db, uid, user, films, companies);
      UniqueLinks(after.crew) && LinksResolve(after.crew, after.users.rows, after.films.rows)
  {
    AppendedLinksValid(AsInsertedFilm, db.films, db.crew, db.users.rows, db.users.rows[uid := user], uid, films);
  }

  /** The staff rows of the inserted state keep their key unique and their references resolving. */
  lemma InsertedStaffValid(db: Db, uid: int, user: UserRow, films: seq<Item<FilmRow, FilmRole>>,
                           companies: seq<Item<CompanyRow, CompanyRole>>)
    requires Valid(db) && uid == db.users.next
    ensures var after := Inserted(db, uid, user, films, companies);
      UniqueLinks(after.staff) && LinksResolve(after.staff, after.users.rows, after.companies.rows)
  {
    AppendedLinksValid(AsInsertedCompany, db.companies, db.staff, db.users.rows, db.users.rows[uid := user], uid,
                       companies);
  }

  /** The serials of the inserted state stay ahead of every stored id. */
  lemma InsertedSupply(db: Db, uid: int, user: UserRow, films: seq<Item<FilmRow, FilmRole>>,
                       companies: seq<Item<CompanyRow, CompanyRole>>)
    requires FreshSupply(db.users) && FreshSupply(db.films) && FreshSupply(db.companies) && uid == db.users.next
    ensures var after := Inserted(db, uid, user, films, companies);
      FreshSupply(after.users) && FreshSupply(after.films) && FreshSupply(after.companies)
  {
  }

  /** `Inserted` keeps every table constraint when `uid` is the next user id. */
  lemma InsertedKeepsValid(db: Db, uid: int, user: UserRow, films: seq<Item<FilmRow, FilmRole>>,
                           companies: seq<Item<CompanyRow, CompanyRole>>)
    requires Valid(db) && uid == db.users.next
    ensures Valid(Inserted(db, uid, user, films, companies))
  {
    InsertedSupply(db, uid, user, films, companies);
    InsertedFilmCompaniesResolve(db, uid, user, films, companies);
    InsertedCrewValid(db, uid, user, films, companies);
    InsertedStaffValid(db, uid, user, films, companies);
  }

  /** The state a committed `create_user` leaves behind. */
  lemma CreateUserInserts(db: Db, p: UserCreate)
    requires CreateCommits(p)
    ensures CreateUser(db, p).value.db ==
      Inserted(db, db.users.next, UserRow(p.firstName, p.lastName, p.email, p.minimumFee),
               FilmItems(p.films.value), CompanyItems(p.companies.value))
  {
  }

  /**
   * `create_user` inserts one film per entry, at consecutive fresh ids in list order and
   * without a company, and exactly one crew row per entry: the i-th joins the new user to
   * the i-th new film with the i-th role. Stored films and crew rows are kept.
   */
  lemma CreateUserFilms(db: Db, p: UserCreate)
    requires Valid(db)
    requires CreateCommits(p)
    ensures var after := CreateUser(db, p).value.db; var films := p.films.value; var f0 := db.films.next;
      && (forall k :: k in after.films.rows <==> k in db.films.rows || f0 <= k < f0 + |films|)
      && (forall k :: k in db.films.rows ==> after.films.rows[k] == db.films.rows[k])
      && (forall i :: 0 <= i < |films| ==> var f := films[i].film;
            after.films.rows[f0 + i] == f.(companyId := None, genres := if f.genres.None? then Some([]) else f.genres))
      && (forall l :: l in after.crew <==>
            l in db.crew || exists i :: 0 <= i < |films| && l == Link(db.users.next, f0 + i, films[i].role))
      && |after.crew| == |db.crew| + |films|
  {
    var user := UserRow(p.firstName, p.lastName, p.email, p.minimumFee);
    CreateUserInserts(db, p);
    InsertedFilmRows(db, db.users.next, user, p.films.value, CompanyItems(p.companies.value));
    InsertedCrew(db, db.users.next, user, p.films.value, CompanyItems(p.companies.value));
    InsertedCrewCount(db, db.users.next, user, p.films.value, CompanyItems(p.companies.value));
  }

  /**
   * `create_user` inserts one company per entry, at consecutive fresh ids in list order,
   * and exactly one staff row per entry with the role at the same position. Stored
   * companies and staff rows are kept.
   */
  lemma CreateUserCompanies(db: Db, p: UserCreate)
    requires Valid(db)
    requires CreateCommits(p)
    ensures var after := CreateUser(db, p).value.db; var companies := p.companies.value; var c0 := db.companies.next;
      && (forall k :: k in after.companies.rows <==> k in db.companies.rows || c0 <= k < c0 + |companies|)
      && (forall k :: k in db.companies.rows ==> after.companies.rows[k] == db.companies.rows[k])
      && (forall i :: 0 <= i < |companies| ==> after.companies.rows[c0 + i] == companies[i].company)
      && (forall l :: l in after.staff <==>
            l in db.staff || exists i :: 0 <= i < |companies| && l == Link(db.users.next, c0 + i, companies[i].role))
      && |after.staff| == |db.staff| + |companies|
  {
    var user := UserRow(p.firstName, p.lastName, p.email, p.minimumFee);
    CreateUserInserts(db, p);
    InsertedCompanyRows(db, db.users.next, user, FilmItems(p.films.value), p.companies.value);
    InsertedStaff(db, db.users.next, user, FilmItems(p.films.value), p.companies.value);
    InsertedStaffCount(db, db.users.next, user, FilmItems(p.films.value), p.companies.value);
  }

  /**
   * The user `create_user` returns is stored under a fresh id with the submitted fields
   * and reads back by that id; every other user is kept.
   */
  lemma CreateThenGet(db: Db, p: UserCreate)
    requires Valid(db)
    requires CreateCommits(p)
    ensures var c := CreateUser(db, p).value; var uid := db.users.next;
      && uid !in db.users.rows
      && (forall k :: k in c.db.users.rows <==> k in db.users.rows || k == uid)
      && (forall k :: k in db.users.rows ==> c.db.users.rows[k] == db.users.rows[k])
      && c.user.user == UserRow(p.firstName, p.lastName, p.email, p.minimumFee)
      && GetUser(c.db, uid) == Some(c.user)
  {
    CreateUserInserts(db, p);
  }

  /** The created user holds exactly the links built from its two lists, in list order. */
  lemma CreatedUserLinks(db: Db, p: UserCreate)
    requires Valid(db)
    requires CreateCommits(p)
    ensures var c := CreateUser(db, p).value; var uid := db.users.next;
      && (forall l :: l in c.user.films <==>
            exists i :: 0 <= i < |p.films.value| && l == Link(uid, db.films.next + i, p.films.value[i].role))
      && (forall l :: l in c.user.companies <==>
            exists i :: 0 <= i < |p.companies.value| && l == Link(uid, db.companies.next + i, p.companies.value[i].role))
  {
    var uid := db.users.next;
    var user := UserRow(p.firstName, p.lastName, p.email, p.minimumFee);
    var after := Inserted(db, uid, user, FilmItems(p.films.value), CompanyItems(p.companies.value));
    assert CreateUser(db, p) == Ok(Created(after, ViewOf(after, uid)));
    InsertedCrew(db, uid, user, p.films.value, CompanyItems(p.companies.value));
    InsertedStaff(db, uid, user, FilmItems(p.films.value), p.companies.value);
    assert forall l :: l in db.crew ==> l.owner != uid;
    assert forall l :: l in db.staff ==> l.owner != uid;
  }

  /** `create_user` keeps every table constraint. */
  lemma CreateUserKeepsValid(db: Db, p: UserCreate)
    requires Valid(db)
    requires CreateCommits(p)
    ensures Valid(CreateUser(db, p).value.db)
  {
    CreateUserInserts(db, p);
    InsertedKeepsValid(db, db.users.next, UserRow(p.firstName, p.lastName, p.email, p.minimumFee),
                       FilmItems(p.films.value), CompanyItems(p.companies.value));
  }

  /** New film rows whose titles fit keep every stored title within its column width. */
  lemma InsertedTitlesFit(db: Db, uid: int, user: UserRow, films: seq<FilmCreateItem>,
                          companies: seq<Item<CompanyRow, CompanyRole>>)
    requires FreshSupply(db.films)
    requires forall k :: k in db.films.rows ==> |db.films.rows[k].title| <= TitleColumnWidth
    requires forall i :: 0 <= i < |films| ==> |films[i].film.title| <= TitleColumnWidth
    ensures var rows := Inserted(db, uid, user, FilmItems(films), companies).films.rows;
      forall k :: k in rows ==> |rows[k].title| <= TitleColumnWidth
  {
    var items := FilmItems(films);
    assert forall i :: 0 <= i < |items| ==> TitleFits(AsInsertedFilm(items[i].fields)) by {
      forall i | 0 <= i < |items|
        ensures TitleFits(AsInsertedFilm(items[i].fields))
      {
        assert items[i].fields == films[i].film;
      }
    }
    FreshRowsHave(db.films.next, items, AsInsertedFilm, TitleFits);
  }

  /** New company rows whose strings fit keep every stored name and phone number within its width. */
  lemma InsertedCompanyStringsFit(db: Db, uid: int, user: UserRow, films: seq<Item<FilmRow, FilmRole>>,
                                  companies: seq<CompanyCreateItem>)
    requires FreshSupply(db.companies)
    requires forall k :: k in db.companies.rows ==>
      |db.companies.rows[k].name| <= CompanyNameColumnWidth && |db.companies.rows[k].phoneNumber| <= PhoneColumnWidth
    requires forall i :: 0 <= i < |companies| ==>
      |companies[i].company.name| <= CompanyNameColumnWidth && |companies[i].company.phoneNumber| <= PhoneColumnWidth
    ensures var rows := Inserted(db, uid, user, films, CompanyItems(companies)).companies.rows;
      forall k :: k in rows ==> |rows[k].name| <= CompanyNameColumnWidth && |rows[k].phoneNumber| <= PhoneColumnWidth
  {
    var rows := Inserted(db, uid, user, films, CompanyItems(companies)).companies.rows;
    var c0 := db.companies.next;
    InsertedCompanyRows(db, uid, user, films, companies);
    forall k | k in rows && k !in db.companies.rows
      ensures |rows[k].name| <= CompanyNameColumnWidth && |rows[k].phoneNumber| <= PhoneColumnWidth
    {
      assert rows[c0 + (k - c0)] == companies[k - c0].company;
    }
  }

  /** A new user whose names fit keeps every stored name within its width. */
  lemma InsertedNamesFit(db: Db, uid: int, user: UserRow, films: seq<Item<FilmRow, FilmRole>>,
                         companies: seq<Item<CompanyRow, CompanyRole>>)
    requires forall k :: k in db.users.rows ==>
      |db.users.rows[k].firstName| <= NameColumnWidth && |db.users.rows[k].lastName| <= NameColumnWidth
    requires |user.firstName| <= NameColumnWidth && |user.lastName| <= NameColumnWidth
    ensures var rows := Inserted(db, uid, user, films, companies).users.rows;
      forall k :: k in rows ==> |rows[k].firstName| <= NameColumnWidth && |rows[k].lastName| <= NameColumnWidth
  {
  }

  /** A validated create payload carries only strings that fit the columns they are stored in. */
  lemma ValidCreateFits(p: UserCreate, thisYear: int, isEmail: string -> bool)
    requires ValidUserCreate(p, thisYear, isEmail)
    ensures |p.firstName| <= NameColumnWidth && |p.lastName| <= NameColumnWidth
    ensures p.films.Some? ==> forall i :: 0 <= i < |p.films.value| ==> |p.films.value[i].film.title| <= TitleColumnWidth
    ensures p.companies.Some? ==> forall i :: 0 <= i < |p.companies.value| ==>
      |p.companies.value[i].company.name| <= CompanyNameColumnWidth
      && |p.companies.value[i].company.phoneNumber| <= PhoneColumnWidth
  {
    if p.films.Some? {
      forall i | 0 <= i < |p.films.value|
        ensures |p.films.value[i].film.title| <= TitleColumnWidth
      {
        assert FilmFieldErrors(p.films.value[i].film, thisYear) == [];
      }
    }
    if p.companies.Some? {
      forall i | 0 <= i < |p.companies.value|
        ensures |p.companies.value[i].company.name| <= CompanyNameColumnWidth
                && |p.companies.value[i].company.phoneNumber| <= PhoneColumnWidth
      {
        assert CompanyFieldErrors(p.companies.value[i].company, isEmail) == [];
      }
    }
  }

  /** A validated create payload keeps every stored string within its column width. */
  lemma CreateUserKeepsFits(db: Db, p: UserCreate, thisYear: int, isEmail: string -> bool)
    requires Valid(db) && Fits(db)
    requires ValidUserCreate(p, thisYear, isEmail)
    requires CreateCommits(p)
    ensures Fits(CreateUser(db, p).value.db)
  {
    var user := UserRow(p.firstName, p.lastName, p.email, p.minimumFee);
    ValidCreateFits(p, thisYear, isEmail);
    CreateUserInserts(db, p);
    InsertedTitlesFit(db, db.users.next, user, p.films.value, CompanyItems(p.companies.value));
    InsertedCompanyStringsFit(db, db.users.next, user, FilmItems(p.films.value), p.companies.value);
    InsertedNamesFit(db, db.users.next, user, FilmItems(p.films.value), CompanyItems(p.companies.value));
  }
}
