/** The role vocabularies of the two association tables, one type per relation kind. */
module Roles {
  import opened Wrappers

  /** Role of a user on a film (the `user_film` table). */
  datatype FilmRole = Director | Producer | Writer

  /** Role of a user in a company (the `company_user` table). */
  datatype CompanyRole = Owner | Member

  /** Width of the `role` column of both association tables. */
  const RoleColumnWidth: nat := 16

  const FilmRoleNames: set<string> := {"director", "producer", "writer"}
  const CompanyRoleNames: set<string> := {"owner", "member"}

  /** The string stored in the `role` column for a film role. */
  function FilmRoleName(r: FilmRole): (s: string)
    ensures s in FilmRoleNames
    ensures |s| <= RoleColumnWidth
    ensures ParseFilmRole(s) == Some(r)
  {
    match r
    case Director => "director"
    case Producer => "producer"
    case Writer => "writer"
  }

  /** The request validator for a film role: only the three literals are accepted. */
  function ParseFilmRole(s: string): (r: Option<FilmRole>)
    ensures r.Some? <==> s in FilmRoleNames
  {
    if s == "director" then Some(Director)
    else if s == "producer" then Some(Producer)
    else if s == "writer" then Some(Writer)
    else None
  }

  /** The string stored in the `role` column for a company role. */
  function CompanyRoleName(r: CompanyRole): (s: string)
    ensures s in CompanyRoleNames
    ensures |s| <= RoleColumnWidth
    ensures ParseCompanyRole(s) == Some(r)
  {
    match r
    case Owner => "owner"
    case Member => "member"
  }

  /** The request validator for a company role: only the two literals are accepted. */
  function ParseCompanyRole(s: string): (r: Option<CompanyRole>)
    ensures r.Some? <==> s in CompanyRoleNames
  {
    if s == "owner" then Some(Owner)
    else if s == "member" then Some(Member)
    else None
  }

  /** Parsing a stored film role name gives back the name: the two directions are inverse. */
  lemma FilmRoleParseInverse(s: string)
    ensures ParseFilmRole(s).Some? ==> FilmRoleName(ParseFilmRole(s).value) == s
  {
  }

  /** Parsing a stored company role name gives back the name. */
  lemma CompanyRoleParseInverse(s: string)
    ensures ParseCompanyRole(s).Some? ==> CompanyRoleName(ParseCompanyRole(s).value) == s
  {
  }
}
