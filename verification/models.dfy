/**
 * The persisted state: three base tables keyed by id and two association tables
 * holding (user id, linked id, role) rows.
 */
module Models {
  import opened Wrappers
  import opened Roles

  /** A row of `users`; `id` is the key of the table that holds it. */
  datatype UserRow = UserRow(firstName: string, lastName: string, email: string, minimumFee: int)

  /**
   * A row of `films`. `title` and `releaseYear` are NOT NULL columns, so they are plain
   * values; `companyId` is the nullable reference to `companies`.
   */
  datatype FilmRow = FilmRow(
    title: string,
    description: Option<string>,
    budget: int,
    releaseYear: int,
    genres: Option<seq<string>>,
    companyId: Option<int>)

  /** A row of `companies`; `name` is NOT NULL. */
  datatype CompanyRow = CompanyRow(name: string, contactEmail: string, phoneNumber: string)

  /**
   * A row of an association table: `owner` is the user id, `target` the film or company id.
   * The role column is NOT NULL, so every row carries a role.
   */
  datatype Link<R> = Link(owner: int, target: int, role: R)

  /** A base table with its serial: `next` is the id the next insert receives. */
  datatype Table<T> = Table(rows: map<int, T>, next: int)

  datatype Db = Db(
    users: Table<UserRow>,
    films: Table<FilmRow>,
    companies: Table<CompanyRow>,
    crew: set<Link<FilmRole>>,      // user_film
    staff: set<Link<CompanyRole>>)  // company_user

  /** Why a transaction was rolled back. */
  datatype DbError =
    | NotAList(field: string)          // a nested list sent as null is iterated
    | DanglingReference(rowId: int)    // an overwritten row references no stored row
    | UnknownUser(userId: int)         // an association row names no user
    | NegativeBound(clause: string)    // OFFSET or LIMIT below zero
    | OutOfRange(table: string)        // a value that does not fit an Integer column

  /** An `Integer` column is a 32-bit `integer` on PostgreSQL: it holds -2^31 .. 2^31 - 1. */
  const Int4Min: int := -0x8000_0000
  const Int4Max: int := 0x7FFF_FFFF

  predicate InInt4(v: int)
  {
    Int4Min <= v <= Int4Max
  }

  /** Serial ids start at 1 and every stored id was handed out before `next`. */
  ghost predicate FreshSupply<T>(t: Table<T>)
  {
    1 <= t.next && forall k :: k in t.rows ==> 1 <= k < t.next
  }

  /** The composite primary key (owner, target): at most one row per pair. */
  ghost predicate UniqueLinks<R>(links: set<Link<R>>)
  {
    forall a, b :: a in links && b in links && a.owner == b.owner && a.target == b.target ==> a == b
  }

  /** Both foreign keys of an association row resolve. */
  ghost predicate LinksResolve<R, U, T>(links: set<Link<R>>, owners: map<int, U>, targets: map<int, T>)
  {
    forall l :: l in links ==> l.owner in owners && l.target in targets
  }

  /** `films.company_id`, when set, names a stored company. */
  ghost predicate FilmCompaniesResolve(films: map<int, FilmRow>, companies: map<int, CompanyRow>)
  {
    forall k :: k in films && films[k].companyId.Some? ==> films[k].companyId.value in companies
  }

  /** The constraints the schema declares on the tables. */
  ghost predicate Valid(db: Db)
  {
    && FreshSupply(db.users)
    && FreshSupply(db.films)
    && FreshSupply(db.companies)
    && UniqueLinks(db.crew)
    && UniqueLinks(db.staff)
    && LinksResolve(db.crew, db.users.rows, db.films.rows)
    && LinksResolve(db.staff, db.users.rows, db.companies.rows)
    && FilmCompaniesResolve(db.films.rows, db.companies.rows)
  }

  /** Column widths: the String(n) declarations of the base tables. */
  const NameColumnWidth: nat := 64
  const TitleColumnWidth: nat := 32
  const CompanyNameColumnWidth: nat := 32
  const PhoneColumnWidth: nat := 15

  /** A film whose title fits its column. */
  predicate TitleFits(f: FilmRow)
  {
    |f.title| <= TitleColumnWidth
  }

  /** A company whose name and phone number fit their columns. */
  predicate CompanyFits(c: CompanyRow)
  {
    |c.name| <= CompanyNameColumnWidth && |c.phoneNumber| <= PhoneColumnWidth
  }

  /** Every stored name, title and phone number fits its `String(n)` column. */
  ghost predicate Fits(db: Db)
  {
    && (forall k :: k in db.users.rows ==>
          |db.users.rows[k].firstName| <= NameColumnWidth && |db.users.rows[k].lastName| <= NameColumnWidth)
    && (forall k :: k in db.films.rows ==> |db.films.rows[k].title| <= TitleColumnWidth)
    && (forall k :: k in db.companies.rows ==>
          |db.companies.rows[k].name| <= CompanyNameColumnWidth
          && |db.companies.rows[k].phoneNumber| <= PhoneColumnWidth)
  }
}
