# simplecrud: users, films and companies with reconciled associations

This project models the repository layer of `simplecrud` in Dafny. The layer stores users, films and companies. A user is linked to films through `user_film` rows, each with a role (`director`, `producer` or `writer`). A user is linked to companies through `company_user` rows, each with a role (`owner` or `member`). The model covers these operations:

- **`get_user`, `get_user_by_email`, `get_users`.** Lookups with the user's links loaded, plus offset/limit paging.
- **`create_user`.** Inserts the user, then one new film per entry of the `films` list and one `user_film` row joining the user to the i-th new film with the i-th role. Companies follow the same way.
- **`update_user_post`.** Overwrites the user's scalar fields, then runs two reconciliation passes, one over the films and `user_film`, one over the companies and `company_user`. In each pass:
  - an entry with a non-zero id overwrites that row and re-tags the user's link to it;
  - an entry whose id is 0 or null becomes a new row with a new link, in list order;
  - every link of the user to a row that the list neither named nor created is deleted.
- **The request schemas.** Length limits, positivity, the release-year range, and the role literals.

The database is an abstract state (`Models.Db`):

- three tables, each a map from id to row with a serial `next` that hands out fresh ids;
- two sets of `Link(owner, target, role)` rows.

Every operation is a pure function from a state to either a new state or a `DbError`. An error means the transaction is rolled back and the caller keeps the state it had. Errors are modelled where the code raises or the database refuses:

- a nested list sent as `null`, which the loop cannot iterate;
- an overwritten film whose `company_id` names no company, which fails the foreign key;
- new association rows for a user id that is not stored;
- a value outside the 32-bit range of an `Integer` column: the fee, a film's budget or release year, or an id or `company_id` that an update writes back (`Models.InInt4`);
- a negative OFFSET or LIMIT.

The two passes of `update_user_post` are one generic pass (`Reconcile.Pass`), instantiated once per association table. Two functions are passed in:

- `accepts` is the foreign-key check the database makes on an overwritten row;
- `prepare` builds a new row from the submitted fields. A new film is inserted without its `company_id`, and a `genres` sent as null is left out of the INSERT, so the column default `[]` is stored.

Beside the executable pass, the model gives a reference description, `Reconcile.PassSpec`, which states row by row and link by link what a pass leaves behind. The lemmas connect the two.

Some behaviours of the code are easy to miss, and the model states them:

- **No ownership check.** An update entry that names a row the user does not link still overwrites that row, and the user gains no link to it (`UpdateProperties.UpdateOverwritesUnlinkedFilm`).
- **Links equal the payload only conditionally.** After an update, the user's links are the submitted list exactly when every entry names a row the user already linked (`UpdateProperties.UpdateExactWhenAllHeld`). In general they are the named rows the user already linked plus the new rows (`UpdateProperties.UpdateUserPostKeepsExactly`).
- **Duplicate ids.** A repeated id is not deduplicated: the last entry's fields and role win (`Reconcile.LastForIsLastOccurrence`).
- **`company_id` defaults to 0.** A film entry that leaves out `company_id` gets 0. An overwrite then names the missing company 0, so the whole update is rolled back (`UpdateProperties.UpdateWithDefaultCompanyIdRollsBack`).
- **Partial films.** `FilmUpdatePartial` declares `title`, `budget` and `release_year` as `Optional[...]` without a default, so leaving one out is an error, and a `null` release year makes the year validator raise instead of reporting a field error (`Schemas.FilmPartialErrors`).

Things outside the code are parameters:

- the order in which an unordered `SELECT` visits the users (`Crud.ScanOrder`);
- the email-format check (`isEmail`);
- the current year read by the year validator (`thisYear`).

## Model

| member | source | states |
|---|---|---|
| Roles.FilmRoleName | simplecrud/schemas.py:144-146 | the stored name of a film role is one of `director`, `producer`, `writer`, fits the 16-character role column, and parses back to the same role |
| Roles.ParseFilmRole | simplecrud/schemas.py:208-210 | a film role string is accepted exactly when it is one of the three literals |
| Roles.CompanyRoleName | simplecrud/schemas.py:136-138 | the stored name of a company role is `owner` or `member`, fits the role column, and parses back to the same role |
| Roles.ParseCompanyRole | simplecrud/schemas.py:200-202 | a company role string is accepted exactly when it is one of the two literals |
| Schemas.CheckReleaseYear | simplecrud/schemas.py:80-85 | a release year is accepted exactly when 1900 <= v <= the current year and is then returned unchanged; otherwise the error names the year and the current year |
| Schemas.UserFieldErrors | simplecrud/schemas.py:21-24 | a user's fields have no error exactly when both names have at most 64 characters and the fee is strictly positive; the fee error appears exactly when the fee is not positive |
| Schemas.CompanyFieldErrors | simplecrud/schemas.py:47-50 | a company has no error exactly when its name has at most 32 characters, its email is well formed and its phone number has at most 15 characters |
| Schemas.FilmFieldErrors | simplecrud/schemas.py:72-85 | a film has no error exactly when its title has at most 32 characters, its budget is positive and its year is in range; the year error appears exactly when the year check fails |
| Schemas.FilmPartialErrors | simplecrud/schemas.py:96-110 | parsing a partial film raises exactly when the release year is null; it is accepted exactly when title and budget are null or meet the full film's rule and the year is given and in range; each of the three required fields left out gives its own "required" error |
| Schemas.PartialAgreesWithFull | simplecrud/schemas.py:105-110 | a partial film carrying every field is accepted exactly when the full film is, so both paths apply the same year rule |
| Schemas.ValidUserCreate | simplecrud/schemas.py:168-187 | defines a create payload that passes validation: the user's, every film's and every company's field rules |
| Schemas.ValidUserUpdate | simplecrud/schemas.py:200-219 | defines an update payload that passes validation: the user's, every film entry's and every company entry's field rules |
| Schemas.ItemId | simplecrud/schemas.py:92-93 | defines the id of an update entry as parsed: left out gives the declared default 0, null gives none (likewise for company entries) |
| Models.Valid | simplecrud/models.py:9-50 | defines the table constraints: serials ahead of every id, composite keys of the association tables, and every foreign key resolving |
| Models.InInt4 | simplecrud/models.py:34-50 | defines the range of an `Integer` column, -2^31 to 2^31 - 1 |
| Models.Fits | simplecrud/models.py:31-62 | defines the width bounds of the stored strings: both user names at most 64 characters, film titles and company names at most 32, phone numbers at most 15 |
| Crud.GetUser | simplecrud/crud.py:6-8 | a user is found exactly when its id is stored, and is returned with its row and exactly its own film and company links |
| Crud.ViewOf | simplecrud/crud.py:6-8 | the eagerly loaded user view carries the stored row and exactly the user's own film and company links |
| Crud.GetUsers | simplecrud/crud.py:16-17 | a negative offset or limit is refused; otherwise at most `limit` users, exactly min(limit, n - skip) of them, the i-th being the (skip + i)-th of the scan |
| Crud.Window | simplecrud/crud.py:16-17 | an `OFFSET skip LIMIT limit` window of a scan has min(limit, n - skip) ids, or none past the end, and its i-th id is the (skip + i)-th of the scan |
| Crud.GetUserByEmail | simplecrud/crud.py:11-13 | a user is found exactly when some stored user has that email, and it is the first such user of the scan |
| Crud.AsInsertedFilm | simplecrud/crud.py:37-43 | a film built for insertion has no company, stores `[]` for genres sent as null and the submitted list otherwise, and carries every other submitted field |
| Crud.AsInsertedCompany | simplecrud/crud.py:153-157 | defines a company built for insertion: every submitted field is kept |
| Crud.FilmInsertFits | simplecrud/crud.py:37-43 | defines a film whose budget and release year fit their `Integer` columns |
| Crud.CreateCommits | simplecrud/crud.py:24-47 | defines the payloads a create commits: fee in range, both lists present, every film's integers in range |
| Crud.Inserted | simplecrud/crud.py:24-87 | the inserted state stores the user under `uid` beside the other users and advances the film and company serials by the number of new rows |
| Crud.CreateUser | simplecrud/crud.py:24-90 | a create commits exactly when the fee fits its column, both lists are lists and every film's budget and year fit; the first failing step names the error, in order: a fee out of range, a null `films`, a film whose budget or year is out of range, a null `companies`; a committed create stores the new user under the next fresh id |
| Crud.UpdateScalars | simplecrud/crud.py:94-98 | the user's names and fee take the payload's values, the email is kept, no other user changes, and an id that matches no row changes nothing |
| Crud.FilmsAccept | simplecrud/crud.py:105 | defines the foreign-key check on an overwritten film: no company, or a stored one |
| Crud.CompaniesAccept | simplecrud/models.py:56-62 | defines the foreign-key check on an overwritten company: a company row references no other table, so it accepts every row |
| Crud.FilmItemFits | simplecrud/crud.py:103-116 | defines an update film entry whose integers fit: budget and year always, and the id and `company_id` when the entry overwrites |
| Crud.CompanyItemFits | simplecrud/crud.py:146-149 | defines an update company entry whose id fits when it overwrites |
| Crud.FilmPass | simplecrud/crud.py:100-141 | an entry out of the `Integer` range rolls the film pass back; a committed film pass changes neither users, companies nor `company_user` |
| Crud.CompanyPass | simplecrud/crud.py:143-179 | an entry out of the `Integer` range rolls the company pass back; a committed company pass changes neither users, films nor `user_film` |
| Crud.UpdateUserPost | simplecrud/crud.py:93-182 | an id or fee out of range is refused first, then a null `films` list; a committed update has applied the scalar update, and the user returned is the one read back by id afterwards |
| Reconcile.IsNew | simplecrud/crud.py:103 | defines the entries that ask for a new row: the truth test on the id fails for both null and 0 |
| Reconcile.PayloadIds | simplecrud/crud.py:102-106 | the ids named by a list are exactly the non-zero ids of its entries |
| Reconcile.LastFor | simplecrud/crud.py:102-107 | the entry that sticks for a named row is an entry of the list naming that row |
| Reconcile.NewItems | simplecrud/crud.py:108-117 | the entries that ask for new rows are entries of the list with id 0 or null |
| Reconcile.SetRole | simplecrud/crud.py:107 | re-tagging changes only the user's link to that row and creates no link when the user has none |
| Reconcile.ScanItem | simplecrud/crud.py:102-117 | one iteration of the loop: an overwrite is refused, with a dangling-reference error, exactly when its row exists and the database rejects the fields; otherwise keys are kept, the named row takes the fields, the id joins the kept list, only the user's link to that row is re-tagged, to the entry's role and no other (and only when the link exists), and a new entry is queued; `Reconcile.OverwriteEffect` states the whole loop |
| Reconcile.FreshRows | simplecrud/crud.py:120-123 | the new rows get the consecutive ids from the serial on, the i-th built from the i-th new entry |
| Reconcile.FreshLinks | simplecrud/crud.py:124-133 | one association row per new entry: the i-th links the user to the i-th new id with the i-th role, and there are exactly as many rows as entries |
| Reconcile.FreshLinksExactly | simplecrud/crud.py:124-133 | the new association rows are exactly the (user, next + i, i-th role) rows |
| Reconcile.FreshIdsKeyFreshRows | simplecrud/crud.py:120-135 | the ids added to the kept list after the inserts are exactly the keys of the rows inserted for the new entries |
| Reconcile.Overwrite | simplecrud/crud.py:102-117 | the loop over the list keeps the table's keys and leaves the new entries waiting in list order |
| Reconcile.Finish | simplecrud/crud.py:119-140 | inserting the new rows fails exactly when there are some and the user is not stored; otherwise the serial advances by their number and the keys are the old ones plus the new ids |
| Reconcile.Evict | simplecrud/crud.py:139-140 | the DELETE removes only links, keeps every other user's links, and keeps a link of the user exactly when its row is in the kept list |
| Reconcile.Pass | simplecrud/crud.py:100-141 | composes the loop, the inserts and the DELETE; `Reconcile.PassEffect` relates it to the reference description |
| Reconcile.PassSpec | simplecrud/crud.py:100-141 | defines, row by row and link by link, what a committed pass leaves behind |
| Reconcile.Reconciled | simplecrud/crud.py:102-140 | defines the links after a pass: other users' links, the user's links to named rows with the last role, one link per new row |
| Reconcile.OverwriteEffect | simplecrud/crud.py:102-117 | the loop over the list fails exactly when an overwrite is refused; otherwise keys are kept, each named row holds its last entry's fields, only the user's links to named rows are re-tagged, and the new entries wait in order |
| Reconcile.RetaggedHolds | simplecrud/crud.py:107 | re-tagging never adds or removes a link of the user to any row |
| Reconcile.LastForIsLastOccurrence | simplecrud/crud.py:102-107 | for a repeated id the last entry in the list wins |
| Reconcile.NewItemsInOrder | simplecrud/crud.py:108-117 | new rows are created in list order: the new entries of a concatenation are concatenated |
| Reconcile.PassEffect | simplecrud/crud.py:100-141 | a pass is rolled back exactly when an overwrite is refused or new rows would be linked to a missing user; otherwise it leaves the reference description behind |
| Reconcile.PassLinksExactlyKept | simplecrud/crud.py:139-140 | after a pass the user links exactly the named rows it linked before plus the new rows; every other link of the user is deleted |
| Reconcile.PassOtherOwnersUnchanged | simplecrud/crud.py:139-140 | a pass leaves every other user's links as they were |
| Reconcile.PassEmptyListClears | simplecrud/crud.py:139-140 | an empty list always commits, changes no row, and deletes every link of the user |
| Reconcile.PassUnheldIdOverwritesWithoutLink | simplecrud/crud.py:103-107 | a named row the user does not link is still overwritten, and the user gains no link to it |
| Reconcile.PassExactWhenAllHeld | simplecrud/crud.py:102-140 | when every entry names a row the user links, the user's links afterwards are exactly the submitted (id, role) pairs, the last role winning |
| Reconcile.AllNewItems | simplecrud/crud.py:108-117 | a list of entries that all ask for new rows creates one row per entry, in list order |
| Reconcile.NoNewItems | simplecrud/crud.py:103-107 | a list whose entries all carry ids creates no row |
| Reconcile.PassWithoutNewRows | simplecrud/crud.py:120-123 | a pass over such a list leaves the table's keys and serial unchanged |
| Reconcile.PassIdempotent | simplecrud/crud.py:100-141 | applying a list whose entries all carry ids a second time gives back the same table and links |
| Reconcile.PassKeepsLinksUnique | simplecrud/models.py:9-13 | a pass keeps at most one association row per (user, row) pair |
| Reconcile.PassKeepsReferences | simplecrud/models.py:11-12 | a pass keeps both foreign keys of every association row resolving and the serial ahead of every id |
| Reconcile.PassKeepsRowProperty | simplecrud/crud.py:102-123 | a pass deletes no row, and a property of the stored rows, of every accepted overwrite and of every new row holds of every row afterwards |
| CrudProperties.CreateUserFilms | simplecrud/crud.py:34-61 | a create inserts one film per entry at consecutive fresh ids without a company and with `[]` for genres sent as null, and exactly one crew row per entry joining the user to the i-th new film with the i-th role; stored films and crew rows are kept |
| CrudProperties.CreateUserCompanies | simplecrud/crud.py:63-87 | a create inserts one company per entry at consecutive fresh ids and exactly one staff row per entry with the i-th role; stored companies and staff rows are kept |
| CrudProperties.CreateThenGet | simplecrud/crud.py:25-32 | the created user gets an unused id and the submitted fields, other users are kept, and reading it back by id gives the returned user |
| CrudProperties.CreatedUserLinks | simplecrud/crud.py:50-84 | the returned user holds exactly the links built from its two lists, position by position |
| CrudProperties.CreateUserKeepsValid | simplecrud/models.py:9-24 | a create keeps the serials, the composite keys, every foreign key, and films' company references valid |
| CrudProperties.ValidCreateFits | simplecrud/schemas.py:21-75 | a validated create payload carries only names, titles, company names and phone numbers within the schema limits |
| CrudProperties.CreateUserKeepsFits | simplecrud/models.py:31-62 | a validated create keeps every stored name, title and phone number within its column width |
| UpdateProperties.UpdateUserPostSteps | simplecrud/crud.py:93-182 | an update commits exactly when the id and fee fit their columns, both lists are lists whose integers fit, and both passes commit, and then leaves the scalar update and the two passes' results |
| UpdateProperties.UpdateUserPostRollsBack | simplecrud/crud.py:93-182 | an update is rolled back exactly when the id, the fee or an entry's integer is out of range, a list is null, a film overwrite names a missing company, or new rows would be linked to a missing user |
| UpdateProperties.UpdateCommitsExactly | simplecrud/crud.py:93-182 | `UpdateCommits`, the commit conditions written out without running the update, holds exactly when the update commits; the lemmas below require it and promise the commit |
| UpdateProperties.OmittedIdsCreateRows | simplecrud/schemas.py:92-93 | update items whose id was left out (default 0) all ask for new rows, in list order |
| UpdateProperties.UpdateWithDefaultCompanyIdRollsBack | simplecrud/crud.py:103-105 | an entry naming a stored film with `company_id` left at 0 makes the whole update roll back |
| UpdateProperties.UpdateUserPostFilms | simplecrud/crud.py:100-141 | a committed update leaves films and `user_film` as the reference description of a pass says, new films built by `Crud.AsInsertedFilm` (no company, `[]` for null genres) |
| UpdateProperties.UpdateUserPostCompanies | simplecrud/crud.py:143-179 | a committed update leaves companies and `company_user` as the reference description of a pass says |
| UpdateProperties.UpdateUserPostTouchesOnlyTheUser | simplecrud/crud.py:94-98 | the user's names and fee take the payload's values and the email is kept; other users and their links are unchanged |
| UpdateProperties.UpdateUserPostKeepsExactly | simplecrud/crud.py:135-179 | after an update the user links exactly the named rows it linked before plus the new rows, for both films and companies |
| UpdateProperties.UpdateEmptyListsClear | simplecrud/crud.py:139-179 | with the id and fee in range, two empty lists commit, change no film or company, and delete every link of the user |
| UpdateProperties.UpdateOverwritesUnlinkedFilm | simplecrud/crud.py:103-107 | a named film the user does not link is overwritten with the last entry's fields, and no link to it is created |
| UpdateProperties.UpdateExactWhenAllHeld | simplecrud/crud.py:102-179 | when every entry names a row the user links, the user's links afterwards are exactly the submitted pairs, for both tables |
| UpdateProperties.UpdateScalarsTwice | simplecrud/crud.py:98 | setting the same scalar fields twice is setting them once |
| UpdateProperties.UpdateUserPostIdempotent | simplecrud/crud.py:93-182 | re-sending an update whose entries all carry ids commits and changes nothing |
| UpdateProperties.UpdateKeepsCrew | simplecrud/models.py:9-15 | after an update `user_film` keeps unique keys that resolve, and the film serial stays ahead |
| UpdateProperties.UpdateKeepsStaff | simplecrud/models.py:18-24 | after an update `company_user` keeps unique keys that resolve, and the company serial stays ahead |
| UpdateProperties.UpdateKeepsFilmCompanies | simplecrud/models.py:50 | after an update every film's company reference still names a stored company |
| UpdateProperties.UpdateUserPostKeepsValid | simplecrud/models.py:9-50 | an update keeps every table constraint |
| UpdateProperties.UpdateFilmTitlesFit | simplecrud/models.py:44 | a validated update keeps every film title within 32 characters, overwritten or new |
| UpdateProperties.UpdateCompanyStringsFit | simplecrud/models.py:60-62 | a validated update keeps every company name and phone number within their columns |
| UpdateProperties.UpdateUserPostKeepsFits | simplecrud/models.py:31-62 | a validated update keeps every stored string within its column width |
| LookupProperties.GetUsersPages | simplecrud/crud.py:16-17 | for one fixed scan order, two consecutive pages are the page spanning both |
| LookupProperties.GetUsersAll | simplecrud/crud.py:16-17 | a page from offset 0 at least as long as the table holds every user, each exactly once |

## Left out

- The HTTP layer, `core/`, `main.py` and `simplecrud/database.py`: routing, status codes and engine configuration are not part of this model.
- `update_user_put`, `update_film`, `update_company`, `create_company` and `get_users_by_ids` are unfinished or broken stubs, and are left out.
- `get_film`, `get_film_title`, `get_films`, `get_films_by_ids`, `get_company`, `get_company_by_name`, `get_companies` and `create_film` are left out. They are lookups and a single insert on the other tables, outside the association logic.
- Session mechanics (`flush`, `commit`, `refresh`, `joinedload`) are left out: each call is one atomic transition, and eager loading is a plain lookup.
- `print` calls and the pickled storage of `genres` are left out; `genres` is an opaque list of strings.
- Concurrency between requests is left out, because the code does not coordinate it.
- The email-format validator and the clock are parameters: `isEmail` and `thisYear`.
- Crud.GetUsers: the order of an unordered scan is a parameter (`order`, every stored id once), not a database order; an OFFSET or LIMIT beyond the 64-bit range is not refused.
- LookupProperties.GetUsersPages: assumes every read sees the same scan order; `get_users` has no ORDER BY, so PostgreSQL may return the rows of separate queries in different orders, and the pages of separate requests are then not slices of one sequence.
- Crud.FilmPass: all range checks of a list are made before its loop, so when an out-of-range value and a refused overwrite occur in one list the model may name a different one of the two errors than the database; whether the update rolls back is the same.
- Crud.CreateUser: the `String(n)` width checks of the database are not modelled as errors; instead `CrudProperties.CreateUserKeepsFits` and `UpdateProperties.UpdateUserPostKeepsFits` show that a validated payload never exceeds them. An id exhausting the 32-bit serial is not modelled either.
- Crud.UpdateUserPost: a rolled-back transaction keeps the whole old state in the model, including the serials, which the database advances even on rollback.
- Models.Fits: the 254-character `email` and `contact_email_address` columns are not bounded, because the email validator is a parameter.
