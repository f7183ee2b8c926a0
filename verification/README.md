# Quiz store: listing, CRUD services and authentication in Dafny

This project models the core of a quiz-content API: a relational store of
multiple-choice questions, their choices, users and the answers users
submit; the SELECT statement that lists questions (filter by subdomain and
difficulty, optional ORDER BY one column, OFFSET, LIMIT, choices loaded
with each question); the services that insert questions, choices and users
and read one question back; and the token-based authentication, including
the literal `"abc"` token that stands for the placeholder user and the
registration path that consults a Redis set of registered emails before
the users table.

Modules, one per file:

- `Runtime` (runtime.dfy): `Option`, the Python exceptions the core can raise
  (`Error`), and `Outcome` (a call either returns a value or raises).
- `Models` (models.dfy): the records of orm/models.py, the enums of
  enums.py, the constants of constants.py, and the four tables as the value
  `Tables`. `Tables.Valid` states what the primary keys, foreign keys and
  the unique email index guarantee. The module also covers the cascade on
  `Question.choices` and what the schema deliberately does not constrain.
- `Ordering` (ordering.dfy): how the database, taken to be PostgreSQL, orders rows by one column. It
  covers the column a name designates, NULL above every value, the enum in
  declaration order and text by code point. It proves that the order is a
  total preorder.
- `Statement` (statement.dfy): the statement both `list_questions` build.
  It evaluates as page(sort(filter(scan))), with every row loaded with its
  choices. The builder attaches LIMIT and OFFSET before WHERE, but the
  database evaluates WHERE first.
- `Queries` (queries.dfy): `list_questions` of orm/queries.py. With no
  subdomain it falls back to the curated `DEFAULT_SUBDOMAINS`.
- `Services` (services.dfy): the database as a mutable object
  (`Database`). It holds the four tables and the three id sequences the
  inserts draw from. Beside it are `create_instance`,
  `create_question_choices` (one commit per choice), `read_question`, and
  the services' `list_questions`, where no subdomain means no restriction.
- `Auth` (auth.dfy): `decode_token`, `get_current_user`, `authenticate`
  and `register_user`. Signing and decoding tokens (`Codec`) and hashing
  passwords (`Hasher`) are values passed in. The properties that need them
  to behave state that as a precondition: `SubjectRoundTrip`,
  `NeverBackdoor` and `VerifiesOwnHash`. The Redis set is the object
  `RegisteredEmails`.

Semantic choices that follow the code (the database is taken to be
PostgreSQL; see "## Left out"):

- **Falsy parameters.** A falsy `limit` or `offset` (None or 0) emits no
  clause. `ListParams` carries 0 for both. A falsy `subdomain` (None or
  `""`) emits no equality filter.
- **Ordering.** The column is looked up only when both `order_by` and
  `order_direction` are truthy.
  - A name that is not a column raises `AttributeError` from `getattr`.
  - A truthy direction equal to neither enum member looks the column up
    but adds no ORDER BY (`Direction.Unrecognized`).
- **Negative limit or offset.** These are truthy, so the clause is emitted
  and the database, taken to be PostgreSQL, rejects the statement. The
  model raises `DatabaseError`.
- **Row order.** Rows come from the table in an arbitrary scan order (the
  `scan` parameter). An ORDER BY is a stable sort of that scan. Every order
  SQL permits is the result of some scan (`Statement.SortKeepsSorted`).
  When no two rows tie on the ORDER BY column, the scan order makes no
  difference (`Statement.RunIndependentOfScan`).
- **Id sequences.** Under PostgreSQL, the database assumed here, a sequence
  is not rolled back, so a failed insert still uses up an id.
- **Failures the model does not explain** are inputs. `fault` makes the
  commit of `create_instance` fail. `failAt` names the first choice whose
  commit fails.

`list_questions` in `orm/queries.py` takes no `all_subdomains` argument. The
code has no cache-aside listing and no per-caller answer overlay.

## Model

| member | source | states |
|---|---|---|
| Models.DeleteQuestion | orm/models.py:43 | deleting a question raises IntegrityError iff an answer refers to it or one of its choices; otherwise exactly the question and all its choices are removed, every other row is unchanged, and the schema constraints still hold |
| Models.Tables.Valid | orm/models.py:25-93 | the primary keys are the map keys, every choice's question is stored, user ids are distinct (the `auth_user.id` primary key) and emails are keys (the unique index), and every answer's user, question and choice are stored |
| Models.ChoicesPartition | orm/models.py:43-60 | in a valid store the `choices` lists of two different questions share no choice, and every stored choice is in the list of the question its foreign key names |
| Models.RemoveChoice | orm/models.py:43 | removing a choice from its question (delete-orphan) raises IntegrityError iff an answer refers to it; otherwise exactly that row is deleted and the constraints still hold |
| Models.ChoiceBelongsToOneQuestion | orm/models.py:55 | in a valid store a choice's question exists, and the choice is in the choice list of its own question and of no other |
| Models.DuplicateAnswersAllowed | orm/models.py:83-84 | a valid store can hold two answers with the same user, question and choice (no unique constraint) |
| Models.AnswerChoiceIndependentOfQuestion | orm/models.py:89-91 | a valid store can hold an answer whose choice belongs to another question than the answer's question |
| Models.UserIdsCount | orm/models.py:69 | with distinct user ids there are exactly as many primary keys in `auth_user` as users |
| Models.UserIdsRemove | orm/models.py:69 | removing one user removes exactly its id from the primary keys |
| Ordering.LevelRankInjective | enums.py:5-8 | two difficulty levels never tie in the enum order: equal ranks mean equal levels |
| Ordering.ParseColumn | orm/queries.py:14 | `getattr(Question, order_by)` finds the column with that name, and finds nothing exactly when no column has that name |
| Ordering.ParseColumnName | orm/models.py:33-42 | column names are distinct: looking a column up by its name gives that column back |
| Ordering.StrLeTotal | orm/queries.py:15-18 | any two texts are comparable in the text order |
| Ordering.StrLeTransitive | orm/queries.py:15-18 | the text order is transitive |
| Ordering.StrLeAntisymmetric | orm/queries.py:15-18 | two texts each ordered before the other are equal |
| Ordering.KeyLeTotal | orm/queries.py:15-18 | any two column values are comparable, NULL included |
| Ordering.KeyLeTransitive | orm/queries.py:15-18 | the column order with NULL greatest is transitive |
| Ordering.BeforeTotal | orm/queries.py:15-18 | for any column and either direction, of two rows one may precede the other |
| Ordering.BeforeTransitive | orm/queries.py:15-18 | the ASC and DESC orders on rows are transitive |
| Ordering.KeyLeAntisymmetric | orm/queries.py:15-18 | two column values each ordered before the other are equal |
| Ordering.BeforeAntisymmetric | orm/queries.py:15-18 | two rows that may each precede the other tie on the ORDER BY column |
| Statement.WhereOfMeaning | orm/queries.py:23-28 | a row satisfies the WHERE clauses iff its subdomain is the truthy subdomain (or, with none, is in the whitelist of `orm/queries.py`, or anything for the services) and its level is the given level when one is given |
| Statement.Filter | orm/queries.py:23-28 | the WHERE clauses keep exactly the matching rows, each as many times as the scan has it, in scan order (a subsequence of the scan) |
| Statement.PrependSorted | orm/queries.py:15-18 | a row that may precede every row of rows in ORDER BY order can be put in front of them and the order is kept |
| Statement.Insert | orm/queries.py:15-18 | inserting a row into rows in ORDER BY order keeps them in order and adds exactly that row |
| Statement.Sort | orm/queries.py:15-18 | ORDER BY returns a permutation of its input in which every pair of rows is in ASC (non-decreasing) or DESC (non-increasing) order |
| Statement.SortKeepsSorted | orm/queries.py:15-18 | rows already in a permitted order come out unchanged, so every order SQL permits, ties included, is reachable |
| Statement.Page | orm/queries.py:19-22 | OFFSET skips the first `offset` rows (none for 0) and LIMIT keeps at most `limit` (no cap for 0): the page has `limit` rows, or all the rows after `offset` when fewer remain, and none when `offset` is past the end |
| Statement.PageIsSlice | orm/queries.py:19-22 | a page is the contiguous run of rows starting at `offset` |
| Statement.PageSplit | orm/queries.py:19-22 | the page of `a` rows at offset `o` followed by the page of `b` rows at `o + a` is the page of `a + b` rows at `o` |
| Statement.PageSorted | orm/queries.py:19-22 | a page of rows in ORDER BY order is in that order |
| Statement.Load | orm/queries.py:12 | `selectinload` keeps the rows and their order, and gives each row all and only the stored choices whose foreign key is that row's id |
| Statement.LoadRows | orm/queries.py:12 | every listed question comes with its full choice list, in the order of the rows, and no row is added or dropped |
| Statement.LoadConcat | orm/queries.py:12 | loading the choices of two runs of rows one after the other is loading them for the rows together |
| Statement.OrderRows | orm/queries.py:13-18 | with an ORDER BY the rows are a sorted permutation; without one (empty `order_by`, falsy or unrecognised direction) they are left as read |
| Statement.Select | orm/queries.py:12-28 | WHERE, then ORDER BY, then OFFSET and LIMIT, whatever order the builder attached them in: the rows are the run of the ordered matching rows that starts at `offset`, empty past the end, with `limit` rows when that many remain and all the remaining rows otherwise |
| Statement.SelectSound | orm/queries.py:12-28 | every selected row is a scanned row satisfying every WHERE clause, there are at most `limit` of them, and they follow the ORDER BY |
| Statement.Run | orm/queries.py:10-31 | the statement raises iff the column name is unknown (AttributeError, while it is built) or LIMIT/OFFSET is negative (database error, when it runs) |
| Statement.RunSound | orm/queries.py:12-31 | every returned row is a scanned row satisfying every WHERE clause, with its full choice list; there are at most `limit` rows, in ORDER BY order |
| Statement.RunComplete | orm/queries.py:19-22 | without LIMIT and OFFSET the listing holds every matching row exactly as often as the scan does |
| Statement.RunIsLoad | orm/queries.py:19-22 | whatever LIMIT and OFFSET are, the listing loads a page of the same filtered and ordered rows |
| Statement.LoadedPagesTile | orm/queries.py:19-22 | consecutive loaded pages of the same rows concatenate to the loaded page with both limits together |
| Statement.RunPagesTile | orm/queries.py:19-22 | for one fixed scan order, paging is consistent: the listing with LIMIT `a` at OFFSET `o` followed by the one with LIMIT `b` at OFFSET `o + a` is the listing with LIMIT `a + b` at OFFSET `o`, choices included |
| Statement.SortedHeadFirst | orm/queries.py:15-18 | the first of rows in ORDER BY order may precede any row among them |
| Statement.SortedHeadsAgree | orm/queries.py:15-18 | two orderings of the same rows, with no ties on the column, start with the same row |
| Statement.TailsPermutation | orm/queries.py:15-18 | two arrangements of the same rows that start with the same row continue with the same rows |
| Statement.SortedUnique | orm/queries.py:15-18 | when no two rows tie on the ORDER BY column, the ORDER BY admits exactly one order of those rows |
| Statement.ArrangedAcrossScans | orm/queries.py:13-28 | with an ORDER BY on a column no two rows tie on, the filtered and ordered rows do not depend on the order the table was read in |
| Statement.RunIndependentOfScan | orm/queries.py:10-31 | with an ORDER BY on a column no two rows tie on, the listing (any LIMIT and OFFSET, error cases included) does not depend on the scan order |
| Statement.RunPagesTileAcrossScans | orm/queries.py:19-22 | under such an ORDER BY, consecutive pages tile even when each of the three statements reads the table in its own order |
| Statement.DistinctCount | orm/models.py:33 | a scan whose rows have distinct ids holds each row at most once |
| Statement.ScansOfOneTable | orm/models.py:33 | two scans of the same table hold the same rows, each once |
| Statement.ScanIdsUnique | orm/models.py:33 | no two rows of a scan tie on `id`, the primary key |
| Statement.RunPagesByIdTile | orm/queries.py:19-22 | listings ordered by `id` page consistently: LIMIT `a` at OFFSET `o` followed by LIMIT `b` at OFFSET `o + a` is LIMIT `a + b` at OFFSET `o`, whatever order each statement reads the table in |
| Statement.RunListsStoredRows | orm/queries.py:29-31 | every listed question is the stored row with its id |
| Statement.RunListsEveryMatchingRow | orm/queries.py:23-31 | without LIMIT and OFFSET every stored question that satisfies the filters is listed |
| Queries.ListQuestions | orm/queries.py:10-32 | raises iff the column is unknown or LIMIT/OFFSET negative; a truthy subdomain lists only that subdomain, a falsy one only python, javascript and sql; a given level lists only that level; each row carries its full choice list; at most `limit` rows; in ORDER BY order; the questions listed are exactly the statement's selected rows, so OFFSET and completeness hold too |
| Queries.NewestFirst | orm/queries.py:10 | rows in `created_at` DESC order have non-increasing creation times |
| Queries.DefaultListing | orm/queries.py:10 | the default call returns at most twenty questions, all from the curated subdomains, newest first |
| Queries.UnrecognizedDirectionKeepsScanOrder | orm/queries.py:13-18 | a direction equal to neither enum member adds no ordering: without LIMIT and OFFSET the matching rows come back in scan order |
| Services.AppendedRows | services.py:28-35 | the choices stored for a request are one row per input, with consecutive ids from the sequence, that question id, and the input's text and `is_answer`, in input order |
| Services.AppendedStep | services.py:28-35 | storing one more input extends the stored choices by exactly that row |
| Services.AddQuestionKeepsConsistent | services.py:70-82 | inserting a question under the next sequence value keeps the schema constraints and the sequences ahead of every id |
| Services.AddChoiceKeepsConsistent | orm/models.py:55 | inserting a choice of a stored question under the next sequence value keeps the constraints |
| Services.AddUserKeepsConsistent | orm/models.py:71 | inserting a user with a new email under the next sequence value keeps emails unique, user ids distinct and every answer's user stored |
| Services.SkipIdKeepsConsistent | services.py:78-81 | a failed insert that only advances a sequence keeps the constraints |
| Services.Database.constructor | orm/models.py:25-93 | the store starts with four empty tables that satisfy the constraints |
| Services.Database.CreateInstance | services.py:70-82 | a committed insert stores exactly one new row under a fresh id and returns that id; a failed one (a stored email, or a fault) rolls back, leaves every table as it was and raises; the sequence advances either way and the constraints are kept |
| Services.Database.CommitChoice | services.py:29-35 | one iteration: the choice is stored under a fresh id, or on a failed commit nothing is stored and the error propagates |
| Services.Database.CreateQuestionChoices | services.py:19-36 | an unknown question returns (False, "Invalid question id") and stores nothing; otherwise each input is stored in order with that question id, text and `is_answer` and (True, '') is returned; a failure on input k keeps inputs 0..k-1, drops k and re-raises; other tables never change; fewer choices than inputs are stored exactly when a commit fails, and then exactly the inputs before the failing one |
| Services.ReadQuestion | services.py:39-44 | the question with that primary key with exactly its choices, or None iff there is none |
| Services.ListedRowIsReadable | services.py:39-67 | every row the services' listing returns is what `read_question` returns for its id |
| Services.ListQuestions | services.py:47-67 | the same rules as the public listing, but a falsy subdomain imposes no restriction; the questions listed are exactly the selected rows of that statement |
| Services.ListQuestionsUnrestricted | services.py:60-61 | with no subdomain, no level, no LIMIT and no OFFSET every stored question is listed, whatever its subdomain |
| Services.ListingsAgreeOnSubdomain | services.py:60-61 | when a subdomain is given, the services' listing and the public listing return the same result |
| Services.CategoryIgnored | services.py:47 | the `category` argument has no effect on the result |
| Auth.DecodeToken | auth.py:29-42 | "abc" resolves to the placeholder user (None if that row is missing) with message "" and no decoding; an undecodable token gives (None, "Invalid token"); a decoded token without `sub` raises KeyError; otherwise the user stored under `sub` with "" or (None, "User not found") |
| Auth.GetCurrentUser | auth.py:59-63 | raises HTTP 401 carrying exactly `decode_token`'s message iff it returned no user; otherwise returns that user; a KeyError propagates |
| Auth.ReadUserByEmail | orm/models.py:71 | in a store that satisfies the constraints, the user found for an email (the unique index) has that email |
| Auth.BackdoorWithoutPlaceholder | auth.py:30-33 | with no placeholder row, "abc" is refused with 401 and an empty detail |
| Auth.Authenticate | auth.py:66-76 | (None, "User not found") for an unknown email, (None, "Incorrect password") when the password does not verify, and otherwise the token encoding {"sub": email} with ""; a token is issued iff the user exists and the password verifies |
| Auth.IssuedTokenResolves | auth.py:34-42 | assuming the codec round-trips and never signs "abc", a token issued for an email decodes to the user stored under it, or "User not found" |
| Auth.AuthenticateThenDecode | auth.py:75-76 | under the same assumptions, the token of a successful `authenticate` makes `get_current_user` return that same user |
| Auth.HashedPasswordAuthenticates | auth.py:73 | assuming verify accepts a password against its own hash, a user stored with the hash of a password authenticates with it |
| Auth.RegisteredEmails.IsMember | auth.py:97 | `sismember` answers iff the email is in the set |
| Auth.RegisteredEmails.Add | auth.py:109 | `sadd` adds exactly the email to the set |
| Auth.RegisterUser | auth.py:79-114 | an email in the registered set (whatever the table holds) or in the table gives (None, "Email already taken") and changes nothing; a failed insert raises and leaves the set alone; otherwise the table gains exactly one user with that email and the hashed password, the set gains the email, and the token's `sub` is the email; the question, choice and answer tables and the question and choice id sequences never change; once the email is found free, the user id sequence advances by one whether or not the insert commits; "registered set within stored emails" is preserved |

## Left out

- `read_user` is imported by auth.py from services.py, but services.py does not define it, so its definition is not part of this model. `Auth.ReadUser` is a lookup in the users table by email.
- Auth.RegisterUser: `read_user(pk=created_id)` after the insert is modelled as the lookup of the email just inserted. In a store that satisfies the constraints, that is the same row, since user ids are distinct.
- Auth.RegisterUser: the `created_id is None` branch ("Something went wrong") cannot be reached, because `create_instance` returns an id or raises. The model has no such branch.
- JSON Web Token signing (HS256) and bcrypt hashing are not modelled. They are function-valued parameters, and what the lemmas need of them is stated as preconditions.
- Bearer-token extraction from the Authorization header, HTTP routing, CORS, status-code mapping and the e-mail length check of main.py are outside the core.
- Redis connection handling and outages are not modelled. `RegisteredEmails` is a plain set.
- Connection plumbing is left out: engines, sessions and the read replica.
- Transaction isolation and concurrency are left out. Each call runs alone against the store.
- The scripts that export to Elasticsearch are left out.
- Timestamps of choices and users, `updated_at` updates and server defaults are left out. `Question.createdAt` and `updatedAt` are ticks of the database clock, given as `now`.
- Column widths (`String(20)`, `String(100)`) are not enforced.
- The database is taken to be PostgreSQL. The code reads only a connection string from the environment (constants.py:21) and never names the engine. These modelled behaviours depend on that choice:
  - `Statement.Run` raises `DatabaseError` for a negative LIMIT or OFFSET.
  - `Ordering.KeyLe` puts NULL last in ASC and first in DESC.
  - `Ordering.LevelRank` sorts the enum in declaration order.
  - `Models.DeleteQuestion` and `Models.RemoveChoice` raise IntegrityError because foreign keys are enforced.
  - A failed insert still uses up an id from the sequence.

  Another engine (SQLite, for one) treats a negative LIMIT as none and sorts NULL first ascending. It does not enforce foreign keys by default, and it sorts a non-native enum by its name.
- Text ordering is modelled as code-point order. PostgreSQL orders text by the database collation.
- Ordering.ParseColumn: `getattr` on a name that is a class attribute but not a column (a relationship or a method) is treated like an unknown name. What SQLAlchemy does with such an attribute is not modelled.
- Services.Database.CreateInstance: covers the rows the core inserts through it, questions and users. Choices are inserted by `CommitChoice`, and answers are not inserted by the core.
- `user_answer_id` and `correct_answer_id` of the response schema (pydantic_types.py:44-45) are never set by the code, and no service stores answers; neither is modelled.
- Statement.RunPagesTile: PostgreSQL does not keep one scan order across statements, so pages under ties on the ORDER BY column, or without an ORDER BY, may overlap or skip rows. Tiling across scans is proved only when no two rows tie on the ORDER BY column (`Statement.RunPagesTileAcrossScans`, and `Statement.RunPagesByIdTile` for `id`).
- The index on `auth_user.email` is not modelled as a separate index: `Tables` keys users by email. `CreateInstance` raises IntegrityError where the unique index would reject an insert.
