/**
 * What `update_user_post` promises: it is the scalar update followed by one reconciliation
 * pass per association table, it is rolled back exactly in the listed cases, it touches no
 * other user, an empty list clears the user's links, an id the user does not link is still
 * overwritten, a list naming only existing rows is idempotent, and every table constraint
 * is kept.
 */
module UpdateProperties {
  import opened Wrappers
  import opened Roles
  import opened Models
  import opened Reconcile
  import opened Schemas
  import opened Crud

  /** The film pass of an update of user `userId`, run against `db`. */
  function FilmReconcile(db: Db, userId: int, items: seq<Item<FilmRow, FilmRole>>)
    : Result<Outcome<FilmRow, FilmRole>, DbError>
  {
    Pass(userId, userId in db.users.rows, FilmsAccept(db.companies.rows.Keys), AsInsertedFilm, db.films, db.crew, items)
  }

  /** The company pass of an update of user `userId`, run against `db`. */
  function CompanyReconcile(db: Db, userId: int, items: seq<Item<CompanyRow, CompanyRole>>)
    : Result<Outcome<CompanyRow, CompanyRole>, DbError>
  {
    Pass(userId, userId in db.users.rows, CompaniesAccept, AsInsertedCompany, db.companies, db.staff, items)
  }

  /**
   * The two passes of an update see the stored films, companies and links: the scalar
   * update changes no key, and the film pass neither touches the companies nor the staff.
   * The update commits exactly when the id and fee fit their columns, both lists are lists
   * whose values fit their columns, and both passes commit.
   */
  lemma UpdateUserPostSteps(db: Db, p: UserUpdate)
    ensures UpdateUserPost(db, p).Ok? <==>
      && InInt4(p.id) && InInt4(p.minimumFee)
      && p.films.Some? && FilmItemsFit(p.films.value) && FilmReconcile(db, p.id, p.films.value).Ok?
      && p.companies.Some? && CompanyItemsFit(p.companies.value) && CompanyReconcile(db, p.id, p.companies.value).Ok?
    ensures UpdateUserPost(db, p).Ok? ==>
      var f := FilmReconcile(db, p.id, p.films.value).value;
      var c := CompanyReconcile(db, p.id, p.companies.value).value;
      UpdateUserPost(db, p).value.db == Db(UpdateScalars(db.users, p), f.table, c.table, f.links, c.links)
  {
    var scalars := db.(users := UpdateScalars(db.users, p));
    assert (p.id in scalars.users.rows) == (p.id in db.users.rows);
    if p.films.Some? && FilmItemsFit(p.films.value) {
      match FilmReconcile(db, p.id, p.films.value)
      case Err(_) =>
      case Ok(f) =>
        var filmed := scalars.(films := f.table, crew := f.links);
        assert FilmPass(scalars, p.id, p.films.value) == Ok(filmed);
        if p.companies.Some? {
          assert (p.id in filmed.users.rows) == (p.id in db.users.rows);
        }
    }
  }

  /**
   * An update is rolled back exactly when the id or fee, or a value of an entry, does not
   * fit its Integer column, a list is sent as null, a film overwrite names a company that
   * does not exist, or new rows would be linked to a user id that is not stored. A company
   * overwrite whose values fit is never refused.
   */
  lemma UpdateUserPostRollsBack(db: Db, p: UserUpdate)
    requires Valid(db)
    ensures UpdateUserPost(db, p).Err? <==>
      || !InInt4(p.id) || !InInt4(p.minimumFee)
      || p.films.None? || p.companies.None?
      || !FilmItemsFit(p.films.value) || !CompanyItemsFit(p.companies.value)
      || Rejected(db.films.rows, FilmsAccept(db.companies.rows.Keys), p.films.value)
      || (p.id !in db.users.rows && (|NewItems(p.films.value)| > 0 || |NewItems(p.companies.value)| > 0))
  {
    UpdateUserPostSteps(db, p);
    if p.films.Some? && p.companies.Some? {
      PassEffect(p.id, p.id in db.users.rows, FilmsAccept(db.companies.rows.Keys), AsInsertedFilm,
                 db.films, db.crew, p.films.value);
      PassEffect(p.id, p.id in db.users.rows, CompaniesAccept, AsInsertedCompany, db.companies, db.staff,
                 p.companies.value);
      assert !Rejected(db.companies.rows, CompaniesAccept, p.companies.value);
    }
  }

  /**
   * The conditions under which an update commits, stated without running it: the id, the
   * fee and every entry fit their columns, both lists are lists, no film overwrite names a
   * missing company, and new rows are linked only to a stored user.
   */
  ghost predicate UpdateCommits(db: Db, p: UserUpdate) {
    && InInt4(p.id) && InInt4(p.minimumFee)
    && p.films.Some? && p.companies.Some?
    && FilmItemsFit(p.films.value) && CompanyItemsFit(p.companies.value)
    && !Rejected(db.films.rows, FilmsAccept(db.companies.rows.Keys), p.films.value)
    && (p.id in db.users.rows || (|NewItems(p.films.value)| == 0 && |NewItems(p.companies.value)| == 0))
  }

  /** `UpdateCommits` is exactly the complement of the rollback cases. */
  lemma UpdateCommitsExactly(db: Db, p: UserUpdate)
    requires Valid(db)
    ensures UpdateCommits(db, p) <==> UpdateUserPost(db, p).Ok?
  {
    UpdateUserPostRollsBack(db, p);
  }

  /**
   * A film entry that names a stored film but leaves `company_id` at its declared default 0
   * makes the overwrite violate the foreign key, since no company has id 0: the whole
   * update is rolled back.
   */
  lemma UpdateWithDefaultCompanyIdRollsBack(db: Db, p: UserUpdate, i: nat)
    requires Valid(db)
    requires p.films.Some? && i < |p.films.value|
    requires !IsNew(p.films.value[i].id) && p.films.value[i].id.value in db.films.rows
    requires p.films.value[i].fields.companyId == Some(0)
    ensures UpdateUserPost(db, p).Err?
  {
    var films := p.films.value;
    assert 0 !in db.companies.rows;
    assert Rejected(db.films.rows, FilmsAccept(db.companies.rows.Keys), films);
    UpdateUserPostRollsBack(db, p);
  }

  /** Update items whose id was left out (the declared default 0) all ask for new rows, in list order. */
  lemma OmittedIdsCreateRows<T, R(!new)>(items: seq<Item<T, R>>)
    requires forall i :: 0 <= i < |items| ==> items[i].id == ItemId(None)
    ensures NewItems(items) == items
  {
    AllNewItems(items);
  }

  /** A committed update leaves the film table and `user_film` as the reference pass describes. */
  lemma UpdateUserPostFilms(db: Db, p: UserUpdate)
    requires Valid(db)
    requires UpdateCommits(db, p)
    ensures UpdateUserPost(db, p).Ok?
    ensures var after := UpdateUserPost(db, p).value.db;
      PassSpec(p.id, FilmsAccept(db.companies.rows.Keys), AsInsertedFilm, db.films, db.crew, p.films.value,
               Outcome(after.films, after.crew))
  {
    assert UpdateUserPost(db, p).Ok? by { UpdateCommitsExactly(db, p); }
    UpdateUserPostSteps(db, p);
    PassEffect(p.id, p.id in db.users.rows, FilmsAccept(db.companies.rows.Keys), AsInsertedFilm,
               db.films, db.crew, p.films.value);
  }

  /** A committed update leaves the company table and `company_user` as the reference pass describes. */
  lemma UpdateUserPostCompanies(db: Db, p: UserUpdate)
    requires Valid(db)
    requires UpdateCommits(db, p)
    ensures UpdateUserPost(db, p).Ok?
    ensures var after := UpdateUserPost(db, p).value.db;
      PassSpec(p.id, CompaniesAccept, AsInsertedCompany, db.companies, db.staff, p.companies.value,
               Outcome(after.companies, after.staff))
  {
    assert UpdateUserPost(db, p).Ok? by { UpdateCommitsExactly(db, p); }
    UpdateUserPostSteps(db, p);
    PassEffect(p.id, p.id in db.users.rows, CompaniesAccept, AsInsertedCompany, db.companies, db.staff,
               p.companies.value);
  }

  /**
   * The user's scalar fields take the submitted values and the email is kept; every other
   * user, and every other user's links, are untouched.
   */
  lemma UpdateUserPostTouchesOnlyTheUser(db: Db, p: UserUpdate)
    requires Valid(db)
    requires UpdateCommits(db, p)
    ensures UpdateUserPost(db, p).Ok?
    ensures var after := UpdateUserPost(db, p).value.db;
      && after.users.rows.Keys == db.users.rows.Keys
      && (p.id in db.users.rows ==>
            after.users.rows[p.id] == UserRow(p.firstName, p.lastName, db.users.rows[p.id].email, p.minimumFee))
      && (forall k :: k in db.users.rows && k != p.id ==> after.users.rows[k] == db.users.rows[k])
      && (forall l: Link<FilmRole> :: l.owner != p.id ==> (l in after.crew <==> l in db.crew))
      && (forall l: Link<CompanyRole> :: l.owner != p.id ==> (l in after.staff <==> l in db.staff))
  {
    assert UpdateUserPost(db, p).Ok? by { UpdateCommitsExactly(db, p); }
    UpdateUserPostSteps(db, p);
    PassOtherOwnersUnchanged(p.id, p.id in db.users.rows, FilmsAccept(db.companies.rows.Keys), AsInsertedFilm,
                             db.films, db.crew, p.films.value);
    PassOtherOwnersUnchanged(p.id, p.id in db.users.rows, CompaniesAccept, AsInsertedCompany, db.companies, db.staff,
                             p.companies.value);
  }

  /**
   * Eviction: after an update the user links exactly the payload's ids it already linked
   * and the rows created for the new entries; a link to any other row is deleted.
   */
  lemma UpdateUserPostKeepsExactly(db: Db, p: UserUpdate)
    requires Valid(db)
    requires UpdateCommits(db, p)
    ensures UpdateUserPost(db, p).Ok?
    ensures var after := UpdateUserPost(db, p).value.db; var films := p.films.value;
      forall t :: Holds(after.crew, p.id, t) <==>
        (t in PayloadIds(films) && Holds(db.crew, p.id, t)) || db.films.next <= t < db.films.next + |NewItems(films)|
    ensures var after := UpdateUserPost(db, p).value.db; var companies := p.companies.value;
      forall t :: Holds(after.staff, p.id, t) <==>
        (t in PayloadIds(companies) && Holds(db.staff, p.id, t))
        || db.companies.next <= t < db.companies.next + |NewItems(companies)|
  {
    assert UpdateUserPost(db, p).Ok? by { UpdateCommitsExactly(db, p); }
    UpdateUserPostSteps(db, p);
    PassLinksExactlyKept(p.id, p.id in db.users.rows, FilmsAccept(db.companies.rows.Keys), AsInsertedFilm,
                         db.films, db.crew, p.films.value);
    PassLinksExactlyKept(p.id, p.id in db.users.rows, CompaniesAccept, AsInsertedCompany, db.companies, db.staff,
                         p.companies.value);
  }

  /** Two empty lists commit, change no film or company, and delete every link of the user. */
  lemma UpdateEmptyListsClear(db: Db, p: UserUpdate)
    requires Valid(db)
    requires InInt4(p.id) && InInt4(p.minimumFee)
    requires p.films == Some([]) && p.companies == Some([])
    ensures UpdateUserPost(db, p).Ok?
    ensures var after := UpdateUserPost(db, p).value.db;
      && after.films == db.films && after.companies == db.companies
      && forall t :: !Holds(after.crew, p.id, t) && !Holds(after.staff, p.id, t)
  {
    UpdateUserPostSteps(db, p);
    PassEmptyListClears(p.id, p.id in db.users.rows, FilmsAccept(db.companies.rows.Keys), AsInsertedFilm,
                        db.films, db.crew);
    PassEmptyListClears(p.id, p.id in db.users.rows, CompaniesAccept, AsInsertedCompany, db.companies, db.staff);
  }

  /**
   * No ownership check: a film id the user does not link is still overwritten with the
   * submitted fields, and the user gains no link to it.
   */
  lemma UpdateOverwritesUnlinkedFilm(db: Db, p: UserUpdate, t: int)
    requires Valid(db)
    requires UpdateCommits(db, p)
    requires t in db.films.rows && t in PayloadIds(p.films.value) && !Holds(db.crew, p.id, t)
    ensures UpdateUserPost(db, p).Ok?
    ensures var after := UpdateUserPost(db, p).value.db;
      t in after.films.rows && after.films.rows[t] == LastFor(p.films.value, t).fields && !Holds(after.crew, p.id, t)
  {
    assert UpdateUserPost(db, p).Ok? by { UpdateCommitsExactly(db, p); }
    UpdateUserPostSteps(db, p);
    PassUnheldIdOverwritesWithoutLink(p.id, p.id in db.users.rows, FilmsAccept(db.companies.rows.Keys), AsInsertedFilm,
                                      db.films, db.crew, p.films.value, t);
  }

  /**
   * When every entry names a row the user already links, the user's links after the
   * update are exactly the submitted (id, role) pairs, the last role winning.
   */
  lemma UpdateExactWhenAllHeld(db: Db, p: UserUpdate)
    requires Valid(db)
    requires UpdateCommits(db, p)
    ensures UpdateUserPost(db, p).Ok?
    ensures var after := UpdateUserPost(db, p).value.db; var films := p.films.value;
      AllHeld(db.crew, p.id, films) ==>
        forall l :: l in after.crew && l.owner == p.id <==>
          l.owner == p.id && l.target in PayloadIds(films) && l.role == LastFor(films, l.target).role
    ensures var after := UpdateUserPost(db, p).value.db; var companies := p.companies.value;
      AllHeld(db.staff, p.id, companies) ==>
        forall l :: l in after.staff && l.owner == p.id <==>
          l.owner == p.id && l.target in PayloadIds(companies) && l.role == LastFor(companies, l.target).role
  {
    assert UpdateUserPost(db, p).Ok? by { UpdateCommitsExactly(db, p); }
    UpdateUserPostSteps(db, p);
    if AllHeld(db.crew, p.id, p.films.value) {
      PassExactWhenAllHeld(p.id, p.id in db.users.rows, FilmsAccept(db.companies.rows.Keys), AsInsertedFilm,
                           db.films, db.crew, p.films.value);
    }
    if AllHeld(db.staff, p.id, p.companies.value) {
      PassExactWhenAllHeld(p.id, p.id in db.users.rows, CompaniesAccept, AsInsertedCompany, db.companies, db.staff,
                           p.companies.value);
    }
  }

  /** Setting the same scalar fields twice is setting them once. */
  lemma UpdateScalarsTwice(users: Table<UserRow>, p: UserUpdate)
    ensures UpdateScalars(UpdateScalars(users, p), p) == UpdateScalars(users, p)
  {
    var once := UpdateScalars(users, p);
    SameMap(UpdateScalars(once, p).rows, once.rows);
  }

  /** An update whose company entries all name stored rows creates no company. */
  lemma UpdateKeepsCompanyIds(db: Db, p: UserUpdate)
    requires Valid(db)
    requires UpdateCommits(db, p)
    requires forall i :: 0 <= i < |p.companies.value| ==> !IsNew(p.companies.value[i].id)
    ensures UpdateUserPost(db, p).Ok?
    ensures UpdateUserPost(db, p).value.db.companies.rows.Keys == db.companies.rows.Keys
  {
    assert UpdateUserPost(db, p).Ok? by { UpdateCommitsExactly(db, p); }
    UpdateUserPostSteps(db, p);
    PassWithoutNewRows(p.id, p.id in db.users.rows, CompaniesAccept, AsInsertedCompany, db.companies, db.staff,
                       p.companies.value);
  }

  /** After such an update, the film pass of the same list gives back the state it left. */
  lemma FilmPassAgain(db: Db, p: UserUpdate)
    requires Valid(db)
    requires UpdateCommits(db, p)
    requires forall i :: 0 <= i < |p.films.value| ==> !IsNew(p.films.value[i].id)
    requires forall i :: 0 <= i < |p.companies.value| ==> !IsNew(p.companies.value[i].id)
    ensures UpdateUserPost(db, p).Ok?
    ensures FilmReconcile(UpdateUserPost(db, p).value.db, p.id, p.films.value) == FilmReconcile(db, p.id, p.films.value)
  {
    assert UpdateUserPost(db, p).Ok? by { UpdateCommitsExactly(db, p); }
    UpdateUserPostSteps(db, p);
    UpdateKeepsCompanyIds(db, p);
    PassIdempotent(p.id, p.id in db.users.rows, FilmsAccept(db.companies.rows.Keys), AsInsertedFilm,
                   db.films, db.crew, p.films.value);
  }

  /** After such an update, the company pass of the same list gives back the state it left. */
  lemma CompanyPassAgain(db: Db, p: UserUpdate)
    requires Valid(db)
    requires UpdateCommits(db, p)
    requires forall i :: 0 <= i < |p.companies.value| ==> !IsNew(p.companies.value[i].id)
    ensures UpdateUserPost(db, p).Ok?
    ensures CompanyReconcile(UpdateUserPost(db, p).value.db, p.id, p.companies.value)
            == CompanyReconcile(db, p.id, p.companies.value)
  {
    assert UpdateUserPost(db, p).Ok? by { UpdateCommitsExactly(db, p); }
    UpdateUserPostSteps(db, p);
    PassIdempotent(p.id, p.id in db.users.rows, CompaniesAccept, AsInsertedCompany, db.companies, db.staff,
                   p.companies.value);
  }

  /**
   * Re-sending an update whose every entry names a stored row changes nothing: the second
   * update commits and leaves the state the first one left.
   */
  lemma UpdateUserPostIdempotent(db: Db, p: UserUpdate)
    requires Valid(db)
    requires UpdateCommits(db, p)
    requires forall i :: 0 <= i < |p.films.value| ==> !IsNew(p.films.value[i].id)
    requires forall i :: 0 <= i < |p.companies.value| ==> !IsNew(p.companies.value[i].id)
    ensures UpdateUserPost(db, p).Ok?
    ensures var after := UpdateUserPost(db, p).value.db;
      UpdateUserPost(after, p).Ok? && UpdateUserPost(after, p).value.db == after
  {
    assert UpdateUserPost(db, p).Ok? by { UpdateCommitsExactly(db, p); }
    var after := UpdateUserPost(db, p).value.db;
    UpdateUserPostSteps(db, p);
    FilmPassAgain(db, p);
    CompanyPassAgain(db, p);
    UpdateScalarsTwice(db.users, p);
    UpdateUserPostSteps(after, p);
  }

  // ---------------------------------------------------------------------------------
  // Table constraints kept by an update
  // ---------------------------------------------------------------------------------

  /** After an update `user_film` still has unique keys that resolve, and the film serial is still ahead. */
  lemma UpdateKeepsCrew(db: Db, p: UserUpdate)
    requires Valid(db)
    requires UpdateCommits(db, p)
    ensures UpdateUserPost(db, p).Ok?
    ensures var after := UpdateUserPost(db, p).value.db;
      && FreshSupply(after.films) && UniqueLinks(after.crew)
      && LinksResolve(after.crew, after.users.rows, after.films.rows)
  {
    assert UpdateUserPost(db, p).Ok? by { UpdateCommitsExactly(db, p); }
    UpdateUserPostSteps(db, p);
    var after := UpdateUserPost(db, p).value.db;
    PassKeepsReferences(p.id, p.id in db.users.rows, FilmsAccept(db.companies.rows.Keys), AsInsertedFilm,
                        db.films, db.crew, p.films.value, db.users.rows);
    PassKeepsLinksUnique(p.id, p.id in db.users.rows, FilmsAccept(db.companies.rows.Keys), AsInsertedFilm,
                         db.films, db.crew, p.films.value);
    assert after.users.rows.Keys == db.users.rows.Keys;
  }

  /** After an update `company_user` still has unique keys that resolve, and the company serial is still ahead. */
  lemma UpdateKeepsStaff(db: Db, p: UserUpdate)
    requires Valid(db)
    requires UpdateCommits(db, p)
    ensures UpdateUserPost(db, p).Ok?
    ensures var after := UpdateUserPost(db, p).value.db;
      && FreshSupply(after.companies) && UniqueLinks(after.staff)
      && LinksResolve(after.staff, after.users.rows, after.companies.rows)
  {
    assert UpdateUserPost(db, p).Ok? by { UpdateCommitsExactly(db, p); }
    UpdateUserPostSteps(db, p);
    var after := UpdateUserPost(db, p).value.db;
    PassKeepsReferences(p.id, p.id in db.users.rows, CompaniesAccept, AsInsertedCompany,
                        db.companies, db.staff, p.companies.value, db.users.rows);
    PassKeepsLinksUnique(p.id, p.id in db.users.rows, CompaniesAccept, AsInsertedCompany,
                         db.companies, db.staff, p.companies.value);
    assert after.users.rows.Keys == db.users.rows.Keys;
  }

  /**
   * After an update every film's company still exists: an overwritten film passed the
   * foreign-key check, a new film has no company, and the company pass deletes none.
   */
  lemma UpdateKeepsFilmCompanies(db: Db, p: UserUpdate)
    requires Valid(db)
    requires UpdateCommits(db, p)
    ensures UpdateUserPost(db, p).Ok?
    ensures var after := UpdateUserPost(db, p).value.db;
      FilmCompaniesResolve(after.films.rows, after.companies.rows)
  {
    assert UpdateUserPost(db, p).Ok? by { UpdateCommitsExactly(db, p); }
    UpdateUserPostSteps(db, p);
    var companyIds := db.companies.rows.Keys;
    PassKeepsRowProperty(p.id, p.id in db.users.rows, FilmsAccept(companyIds), AsInsertedFilm,
                         db.films, db.crew, p.films.value, FilmsAccept(companyIds));
    PassKeepsRowProperty(p.id, p.id in db.users.rows, CompaniesAccept, AsInsertedCompany,
                         db.companies, db.staff, p.companies.value, CompaniesAccept);
  }

  /** An update keeps every constraint the schema declares. */
  lemma UpdateUserPostKeepsValid(db: Db, p: UserUpdate)
    requires Valid(db)
    requires UpdateCommits(db, p)
    ensures UpdateUserPost(db, p).Ok?
    ensures Valid(UpdateUserPost(db, p).value.db)
  {
    assert UpdateUserPost(db, p).Ok? by { UpdateCommitsExactly(db, p); }
    UpdateKeepsCrew(db, p);
    UpdateKeepsStaff(db, p);
    UpdateKeepsFilmCompanies(db, p);
  }

  // ---------------------------------------------------------------------------------
  // Column widths kept by a validated update
  // ---------------------------------------------------------------------------------

  /** A validated update leaves both names of every user within their columns. */
  lemma UpdateUserNamesFit(db: Db, p: UserUpdate, thisYear: int, isEmail: string -> bool)
    requires Fits(db) && ValidUserUpdate(p, thisYear, isEmail)
    requires UpdateUserPost(db, p).Ok?
    ensures var after := UpdateUserPost(db, p).value.db;
      forall k :: k in after.users.rows ==>
        |after.users.rows[k].firstName| <= NameColumnWidth && |after.users.rows[k].lastName| <= NameColumnWidth
  {
  }

  /** A validated update leaves every film title within its column, overwritten or new. */
  lemma UpdateFilmTitlesFit(db: Db, p: UserUpdate, thisYear: int, isEmail: string -> bool)
    requires Valid(db) && Fits(db) && ValidUserUpdate(p, thisYear, isEmail)
    requires UpdateCommits(db, p)
    ensures UpdateUserPost(db, p).Ok?
    ensures var after := UpdateUserPost(db, p).value.db;
      forall k :: k in after.films.rows ==> |after.films.rows[k].title| <= TitleColumnWidth
  {
    assert UpdateUserPost(db, p).Ok? by { UpdateCommitsExactly(db, p); }
    UpdateUserPostSteps(db, p);
    var films := p.films.value;
    assert forall i :: 0 <= i < |films| ==> TitleFits(films[i].fields) by {
      forall i | 0 <= i < |films|
        ensures TitleFits(films[i].fields)
      {
        assert FilmFieldErrors(films[i].fields, thisYear) == [];
      }
    }
    PassKeepsRowProperty(p.id, p.id in db.users.rows, FilmsAccept(db.companies.rows.Keys), AsInsertedFilm,
                         db.films, db.crew, films, TitleFits);
  }

  /** Company entries that pass validation have a name and a phone number that fit their columns. */
  lemma ValidCompaniesFit(companies: seq<Item<CompanyRow, CompanyRole>>, isEmail: string -> bool)
    requires forall i :: 0 <= i < |companies| ==> CompanyFieldErrors(companies[i].fields, isEmail) == []
    ensures forall i :: 0 <= i < |companies| ==> CompanyFits(companies[i].fields)
  {
    forall i | 0 <= i < |companies|
      ensures CompanyFits(companies[i].fields)
    {
      assert CompanyFieldErrors(companies[i].fields, isEmail) == [];
    }
  }

  /** A validated update leaves every company name and phone number within their columns. */
  lemma UpdateCompanyStringsFit(db: Db, p: UserUpdate, thisYear: int, isEmail: string -> bool)
    requires Valid(db) && Fits(db) && ValidUserUpdate(p, thisYear, isEmail)
    requires UpdateCommits(db, p)
    ensures UpdateUserPost(db, p).Ok?
    ensures var after := UpdateUserPost(db, p).value.db;
      forall k :: k in after.companies.rows ==>
        |after.companies.rows[k].name| <= CompanyNameColumnWidth
        && |after.companies.rows[k].phoneNumber| <= PhoneColumnWidth
  {
    assert UpdateUserPost(db, p).Ok? by { UpdateCommitsExactly(db, p); }
    var companies := p.companies.value;
    var pass := CompanyReconcile(db, p.id, companies);
    assert pass.Ok? && UpdateUserPost(db, p).value.db.companies == pass.value.table by {
      UpdateUserPostSteps(db, p);
    }
    ValidCompaniesFit(companies, isEmail);
    PassKeepsRowProperty(p.id, p.id in db.users.rows, CompaniesAccept, AsInsertedCompany,
                         db.companies, db.staff, companies, CompanyFits);
  }

  /** A validated update keeps every stored string within its column. */
  lemma UpdateUserPostKeepsFits(db: Db, p: UserUpdate, thisYear: int, isEmail: string -> bool)
    requires Valid(db) && Fits(db) && ValidUserUpdate(p, thisYear, isEmail)
    requires UpdateCommits(db, p)
    ensures UpdateUserPost(db, p).Ok?
    ensures Fits(UpdateUserPost(db, p).value.db)
  {
    assert UpdateUserPost(db, p).Ok? by { UpdateCommitsExactly(db, p); }
    UpdateUserNamesFit(db, p, thisYear, isEmail);
    UpdateFilmTitlesFit(db, p, thisYear, isEmail);
    UpdateCompanyStringsFit(db, p, thisYear, isEmail);
  }
}
