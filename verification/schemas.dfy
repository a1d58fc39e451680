/**
 * The request schemas: the shapes of the create and update payloads and the field
 * constraints checked before a payload reaches the repository. The email-format check
 * belongs to the validation library and is a parameter `isEmail`; the current year,
 * read from the clock by the year validator, is a parameter `thisYear`.
 */
module Schemas {
  import opened Wrappers
  import opened Roles
  import opened Models

  const MinReleaseYear: int := 1900
  const PersonNameMaxLength: nat := 64
  const CompanyNameMaxLength: nat := 32
  const PhoneMaxLength: nat := 15
  const TitleMaxLength: nat := 32

  /** One rejected field, as the validation error reports it. */
  datatype FieldError =
    | TooLong(field: string, maxLength: nat)
    | NotPositive(field: string)
    | YearOutOfRange(year: int, thisYear: int)
    | NotAnEmail(field: string)
    | Required(field: string)

  /** `valid_year`: a release year must lie between 1900 and the current year, both included. */
  function CheckReleaseYear(v: int, thisYear: int): (r: Result<int, FieldError>)
    ensures r.Ok? <==> MinReleaseYear <= v <= thisYear
    ensures r.Ok? ==> r.value == v
    ensures r.Err? ==> r.error == YearOutOfRange(v, thisYear)
  {
    if v < MinReleaseYear || v > thisYear then Err(YearOutOfRange(v, thisYear)) else Ok(v)
  }

  /** `Field(max_length=limit)` on one string field. */
  function MaxLength(field: string, value: string, limit: nat): seq<FieldError>
  {
    if |value| <= limit then [] else [TooLong(field, limit)]
  }

  /** `PositiveInt` on one integer field. */
  function Positive(field: string, value: int): seq<FieldError>
  {
    if value > 0 then [] else [NotPositive(field)]
  }

  /** `EmailStr` on one string field. */
  function Email(field: string, value: string, isEmail: string -> bool): seq<FieldError>
  {
    if isEmail(value) then [] else [NotAnEmail(field)]
  }

  /** The year field as a list of errors. */
  function Year(v: int, thisYear: int): seq<FieldError>
  {
    match CheckReleaseYear(v, thisYear)
    case Ok(_) => []
    case Err(e) => [e]
  }

  /** `UserBase`: both names at most 64 characters, a strictly positive fee. */
  function UserFieldErrors(firstName: string, lastName: string, minimumFee: int): (errs: seq<FieldError>)
    ensures errs == [] <==>
      |firstName| <= PersonNameMaxLength && |lastName| <= PersonNameMaxLength && minimumFee > 0
    ensures NotPositive("minimun_fee") in errs <==> minimumFee <= 0
  {
    MaxLength("first_name", firstName, PersonNameMaxLength)
    + MaxLength("last_name", lastName, PersonNameMaxLength)
    + Positive("minimun_fee", minimumFee)
  }

  /** `CompanyBase`: name at most 32 characters, a well-formed email, phone at most 15 characters. */
  function CompanyFieldErrors(c: CompanyRow, isEmail: string -> bool): (errs: seq<FieldError>)
    ensures errs == [] <==>
      |c.name| <= CompanyNameMaxLength && isEmail(c.contactEmail) && |c.phoneNumber| <= PhoneMaxLength
  {
    MaxLength("name", c.name, CompanyNameMaxLength)
    + Email("contact_email_address", c.contactEmail, isEmail)
    + MaxLength("phone_number", c.phoneNumber, PhoneMaxLength)
  }

  /** `FilmBase`: title at most 32 characters, a strictly positive budget, a valid release year. */
  function FilmFieldErrors(f: FilmRow, thisYear: int): (errs: seq<FieldError>)
    ensures errs == [] <==>
      |f.title| <= TitleMaxLength && f.budget > 0 && MinReleaseYear <= f.releaseYear <= thisYear
    ensures YearOutOfRange(f.releaseYear, thisYear) in errs <==> CheckReleaseYear(f.releaseYear, thisYear).Err?
  {
    MaxLength("title", f.title, TitleMaxLength)
    + Positive("budget", f.budget)
    + Year(f.releaseYear, thisYear)
  }

  /**
   * A field of a request body as it arrives: left out, sent as `null`, or sent with a value.
   * The model distinguishes the three where the schema treats them differently.
   */
  datatype Sent<T> = Missing | Null | Given(value: T)

  /**
   * `FilmUpdatePartial`. `title`, `budget` and `release_year` are declared `Optional[...]`
   * without a default, which makes them required but nullable; `id`, `description`,
   * `genres` and `company_id` have defaults and appear here as parsed.
   */
  datatype FilmPartial = FilmPartial(
    id: Option<int>,
    title: Sent<string>,
    description: Option<string>,
    budget: Sent<int>,
    releaseYear: Sent<int>,
    genres: Option<seq<string>>,
    companyId: Option<int>)

  /**
   * How parsing a body ends: the list of field errors (empty when it is accepted), or an
   * exception raised inside a validator that the validation library lets propagate.
   */
  datatype Parsed = Checked(errs: seq<FieldError>) | Raised

  /** A required field that was left out; a value is checked by `rule`, `null` passes. */
  function RequiredNullable<T>(field: string, v: Sent<T>, rule: T -> seq<FieldError>): seq<FieldError>
  {
    match v
    case Missing => [Required(field)]
    case Null => []
    case Given(x) => rule(x)
  }

  /**
   * Parsing a partial film. A left-out required field is an error; `null` title or budget
   * is accepted; a `null` release year reaches `valid_year`, whose comparison `None < 1900`
   * raises a `TypeError` that is not turned into a validation error.
   */
  function FilmPartialErrors(p: FilmPartial, thisYear: int): (r: Parsed)
    ensures r.Raised? <==> p.releaseYear.Null?
    ensures r == Checked([]) <==>
      && (p.title.Null? || (p.title.Given? && |p.title.value| <= TitleMaxLength))
      && (p.budget.Null? || (p.budget.Given? && p.budget.value > 0))
      && p.releaseYear.Given? && MinReleaseYear <= p.releaseYear.value <= thisYear
    ensures r.Checked? ==>
      && (Required("title") in r.errs <==> p.title.Missing?)
      && (Required("budget") in r.errs <==> p.budget.Missing?)
      && (Required("release_year") in r.errs <==> p.releaseYear.Missing?)
    ensures p.releaseYear.Given? ==>
      (YearOutOfRange(p.releaseYear.value, thisYear) in r.errs <==> CheckReleaseYear(p.releaseYear.value, thisYear).Err?)
  {
    if p.releaseYear.Null? then Raised
    else
      Checked(
        RequiredNullable("title", p.title, (t: string) => MaxLength("title", t, TitleMaxLength))
        + RequiredNullable("budget", p.budget, (b: int) => Positive("budget", b))
        + RequiredNullable("release_year", p.releaseYear, (y: int) => Year(y, thisYear)))
  }

  /** A partial film carrying every field is accepted exactly when the full film is: one year rule for both paths. */
  lemma PartialAgreesWithFull(f: FilmRow, thisYear: int)
    ensures var p := FilmPartial(None, Given(f.title), f.description, Given(f.budget), Given(f.releaseYear), f.genres, f.companyId);
      (FilmPartialErrors(p, thisYear) == Checked([])) <==> (FilmFieldErrors(f, thisYear) == [])
  {
  }

  /**
   * One entry of an update list (`UserFilmUpdateSchema` / `UserCompanyUpdateSchema`): the
   * role, the row's id as parsed, and the row's other fields.
   */
  datatype Item<T, R> = Item(role: R, id: Option<int>, fields: T)

  /** `UserFilmCreateSchema` / `UserCompanyCreateSchema`: a role and a new row's fields. */
  datatype FilmCreateItem = FilmCreateItem(role: FilmRole, film: FilmRow)
  datatype CompanyCreateItem = CompanyCreateItem(role: CompanyRole, company: CompanyRow)

  /** `UserCreateSchema`; a nested list may be sent as null, which the schema lets through. */
  datatype UserCreate = UserCreate(
    firstName: string,
    lastName: string,
    email: string,
    minimumFee: int,
    films: Option<seq<FilmCreateItem>>,
    companies: Option<seq<CompanyCreateItem>>)

  /** `UserUpdateSchema`: the user's id, the scalar fields, and the two association lists. */
  datatype UserUpdate = UserUpdate(
    id: int,
    firstName: string,
    lastName: string,
    minimumFee: int,
    films: Option<seq<Item<FilmRow, FilmRole>>>,
    companies: Option<seq<Item<CompanyRow, CompanyRole>>>)

  /** A create payload that passes validation. */
  ghost predicate ValidUserCreate(p: UserCreate, thisYear: int, isEmail: string -> bool)
  {
    && UserFieldErrors(p.firstName, p.lastName, p.minimumFee) == []
    && isEmail(p.email)
    && (p.films.Some? ==> forall i :: 0 <= i < |p.films.value| ==> FilmFieldErrors(p.films.value[i].film, thisYear) == [])
    && (p.companies.Some? ==> forall i :: 0 <= i < |p.companies.value| ==>
          CompanyFieldErrors(p.companies.value[i].company, isEmail) == [])
  }

  /** An update payload that passes validation. */
  ghost predicate ValidUserUpdate(p: UserUpdate, thisYear: int, isEmail: string -> bool)
  {
    && UserFieldErrors(p.firstName, p.lastName, p.minimumFee) == []
    && (p.films.Some? ==> forall i :: 0 <= i < |p.films.value| ==> FilmFieldErrors(p.films.value[i].fields, thisYear) == [])
    && (p.companies.Some? ==> forall i :: 0 <= i < |p.companies.value| ==>
          CompanyFieldErrors(p.companies.value[i].fields, isEmail) == [])
  }

  /** The id of an update item as parsed: absent gives the declared default 0, null gives None. */
  function ItemId(sent: Option<Option<int>>): Option<int>
  {
    match sent
    case None => Some(0)
    case Some(v) => v
  }
}
