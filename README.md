# Traffic citation lifecycle and access control, in Dafny

This project models the server core of a traffic-violation system. Officers
file citations against vehicle owners. Each owner gets a citizen account,
created on first citation, so they can sign in and see their own citations.
Officers and admins settle citations. Admins read aggregate statistics.

The model covers five parts of the source:

- **Citation lifecycle** (`violationController.js`). The owner's e-mail is
  derived from the owner name. Their citizen account is found or created,
  and the violation is inserted and linked to the calling officer and to
  that account. Listings are scoped by role. A violation moves to `paid`
  only through a guarded transition.
- **Violation schema** (`Violation.js`). The record, the status enumeration,
  the defaults and the required paths.
- **Statistics** (`analyticsController.js`). The count and the three fine
  sums, written as recursive folds. The group-by-type count, joined against
  the violation types.
- **Credential service** (`authController.js`). Register, login, token
  issue and `getMe`.
- **Access policy**. The two server route tables, each a chain of
  authentication and then a role allow-list. The client route table and its
  `ProtectedRoute` gate.

The Mongo collections are held in memory by one object, `Store.Db`. Its
fields `users` and `violations` change; `types` and `areas` are read only.
Identifiers come from a counter, `nextId`. `Db.Valid()` is the store
invariant, kept by every operation that changes the store:

- identifiers are unique and below `nextId`;
- account e-mails are unique;
- every stored violation passed schema validation.

Each state-changing controller is a module-level method that takes the
database `db: Db` and names it in its `modifies` clause: `CreateViolation`,
`MarkViolationAsPaid` and `RegisterUser`. Each method's postcondition
equates the new store and the reply with a pure step function: `Create`,
`Pay` and `Register`. The properties the source promises are proved as
lemmas about those functions.

The following are parameters, not modelled internals:

- the clock (`now`);
- the random password and the random username suffix of an auto-created
  account;
- the account the bearer token identifies.

bcrypt is modelled as a digest of the first 72 characters of the password
(`Identity.Hash`), without the salt. Like bcrypt, it ignores everything
after that limit, so two long passwords that share their first 72
characters match the same digest (`Identity.LongPasswordsCollide`). A JWT is modelled by its claims: the account id, the issue time and
the 30-day expiry. The signature is not modelled.

The model follows these behaviours of the code:

- Creating a violation never looks up the violation type or the area.
- `fine_amount` is copied verbatim from the request, not from the type's base fine.
- A `disputed` violation can be marked paid.
- With an empty or missing owner name, no account is looked up or created.
  The insert then fails because `owner_name` is a required path. So no
  violation with a null `user` is stored by this path.
- Saving a paid violation also refreshes its `updatedAt` timestamp
  (`timestamps: true`). Mark-paid therefore changes `status` and `updatedAt`,
  and nothing else.
- Both mark-paid errors end with HTTP status 400: the `catch` overrides the
  404 set for an unknown id.
- `registerUser` stores a caller-supplied role as given. The register route
  is public, so anyone can create an `admin` account.
  `Auth.Register` states this: the role is the given one, or `citizen` when
  it is omitted.
- An owner name made only of white space derives the bare `@traffic.com`.
  All such names share one account (`BlankNamesShareOneAccount`).

## Model

| member | source | states |
|---|---|---|
| `ViolationSchema.ParseStatus` | server/src/models/Violation.js:40-43 | a status string is accepted exactly when it is `unpaid`, `paid` or `disputed`, and then names that status |
| `ViolationSchema.StatusNameRoundTrip` | server/src/models/Violation.js:40-43 | each status parses back from its own name |
| `ViolationSchema.Build` | server/src/models/Violation.js:3-50 | creation succeeds exactly when every required path is present (required strings non-empty) and any given status is in the enum; a failure reports each of the seven validated paths exactly when its own check fails, and no other path; a created record copies vehicle number, owner name, type, area, officer, fine, notes and `user` (null by default), takes a given status or date and otherwise `status` = unpaid and `violation_date` = now, and has both timestamps = now |
| `Identity.FindByEmail` | server/src/controllers/authController.js:23 | finds the first account with exactly that e-mail, or reports that none has it |
| `Identity.MatchesOnlyTheHashedPassword` | server/src/controllers/authController.js:60 | a password matches its own digest; a candidate matches it exactly when the two agree on their first 72 characters, so for passwords of at most 72 characters only the password itself matches |
| `Identity.LongPasswordsCollide` | server/src/controllers/authController.js:60 | any extension of a password of 72 or more characters matches that password's digest |
| `Auth.GenerateToken` | server/src/controllers/authController.js:6-9 | the token binds the account id and verifies to it exactly until 30 days after issue, and to nothing from then on |
| `Auth.Register` | server/src/controllers/authController.js:15-49 | registration succeeds exactly when all four fields are non-empty and no account has that e-mail; failures give 'Please add all fields' or 'User already exists' and leave the store unchanged; success appends exactly one account with the hashed password and the given role (default citizen) and replies with its id, username, e-mail, role and token |
| `Auth.RegisterKeepsInvariant` | server/src/controllers/authController.js:23-36 | registration keeps account ids and e-mails unique |
| `Auth.RegisterUser` | server/src/controllers/authController.js:15-49 | the method changes only the user store and the id counter, as `Register` says, and keeps the store invariant |
| `Auth.Login` | server/src/controllers/authController.js:54-72 | every failure is 'Invalid credentials'; a success is the session of an account with that e-mail whose digest the password matches, with a token for its id |
| `Auth.LoginSucceedsIff` | server/src/controllers/authController.js:58-68 | with unique e-mails, login succeeds exactly when the password matches the account holding that e-mail, and returns that account |
| `Auth.LoginFailureIsUniform` | server/src/controllers/authController.js:58-71 | an unknown e-mail and a wrong password give the identical reply |
| `Auth.RegisterThenLogin` | server/src/controllers/authController.js:15-72 | a freshly registered account logs in with its password and gets its own id and role |
| `Auth.LoginThenGetMe` | server/src/controllers/authController.js:54-79 | the login token makes `getMe` return the logged-in account for 30 days and nobody afterwards |
| `ViolationController.DerivedEmailShape` | server/src/controllers/violationController.js:19 | the derived e-mail ends in `@traffic.com`, and the part before it has no white space and no upper-case letter |
| `ViolationController.SameEmailIffSameCanonical` | server/src/controllers/violationController.js:19 | two owner names derive the same e-mail exactly when their lower-cased, space-stripped forms agree |
| `ViolationController.CaseDoesNotMatter` | server/src/controllers/violationController.js:19 | changing a letter's case anywhere in the name leaves the e-mail unchanged |
| `ViolationController.SpacingDoesNotMatter` | server/src/controllers/violationController.js:19 | inserting a white-space character anywhere in the name leaves the e-mail unchanged |
| `ViolationController.CanonicalNameIsFixedPoint` | server/src/controllers/violationController.js:19 | canonicalising is idempotent, and the canonical name derives the same e-mail as the name |
| `ViolationController.BlankNamesShareOneAccount` | server/src/controllers/violationController.js:17-19 | an all-white-space owner name derives the bare `@traffic.com` |
| `ViolationController.UsernameOfOwner` | server/src/controllers/violationController.js:28 | for a name without '@', the new account's username is the canonical name followed by the random number |
| `ViolationController.CreateReusesAccount` | server/src/controllers/violationController.js:17-58 | if an account has the derived e-mail, it is reused: the user store is unchanged, `newUser` is null and the violation is linked to that account |
| `ViolationController.CreateProvisionsAccount` | server/src/controllers/violationController.js:21-40 | otherwise exactly one citizen account is appended, with the owner name as full name and the derived e-mail; it is kept even if the insert fails, and a success returns its e-mail and password and links the violation to it |
| `ViolationController.CreateWithoutOwnerName` | server/src/controllers/violationController.js:14-52 | with an empty or missing owner name, no account is created and the insert fails on `owner_name` |
| `ViolationController.CreateStoresViolation` | server/src/controllers/violationController.js:43-52 | a create succeeds exactly when vehicle number, owner name, type, area and fine are present; the violation is appended with officer = caller, the request's fine verbatim, type and area unchecked, status unpaid and date = now; a failure stores nothing |
| `ViolationController.CreateKeepsInvariant` | server/src/controllers/violationController.js:21-52 | creating keeps ids and account e-mails unique and every stored violation schema-valid |
| `ViolationController.SecondCitationReusesAccount` | server/src/controllers/violationController.js:17-41 | a second citation for a name with the same derived e-mail creates no account, returns no credentials and links the same account |
| `ViolationController.CreateViolation` | server/src/controllers/violationController.js:9-64 | the method inserts the account (if new) before the violation, changes the stores as `Create` says and keeps the store invariant |
| `ViolationController.GetViolations` | server/src/controllers/violationController.js:69-83 | a citizen's listing holds exactly the violations linked to the caller, each as many times as it is stored; an officer's or admin's listing is the whole collection |
| `ViolationController.Pay` | server/src/controllers/violationController.js:121-143 | a refused payment leaves the collection unchanged; a successful one returns the violation with that id in status paid |
| `ViolationController.PayUnknownId` | server/src/controllers/violationController.js:123-128 | an unknown id gives 'Violation not found' and no change |
| `ViolationController.PayAlreadyPaid` | server/src/controllers/violationController.js:130-133 | a paid violation gives 'Violation is already paid' and no change |
| `ViolationController.PaySettles` | server/src/controllers/violationController.js:135-139 | an unpaid or disputed violation becomes paid with `updatedAt` = now, and nothing else in the collection changes |
| `ViolationController.PayTwice` | server/src/controllers/violationController.js:130-137 | after a successful payment, paying the same id again fails and changes nothing |
| `ViolationController.PayKeepsInvariant` | server/src/controllers/violationController.js:135-137 | paying keeps the store invariant |
| `ViolationController.MarkViolationAsPaid` | server/src/controllers/violationController.js:121-143 | the method changes only the violation collection, as `Pay` says, and keeps the store invariant |
| `Analytics.FinesPartition` | server/src/controllers/analyticsController.js:13-24 | collected plus pending equals the total, for every collection |
| `Analytics.SumsOverStatusGroups` | server/src/controllers/analyticsController.js:15-24 | collected is the fine total over paid violations; pending is the total over all others, disputed included |
| `Analytics.GetStats` | server/src/controllers/analyticsController.js:6-29 | `totalViolations` is the number of violations and `totalFines` their fine sum; `collectedFines` is the fine sum over paid violations and `pendingFines` the sum over all others; collected + pending = total; an empty collection gives all zeros |
| `Analytics.GroupByType` | server/src/controllers/analyticsController.js:48-52 | the buckets have distinct type ids and positive counts, and their counts add up to the number of violations |
| `Analytics.GroupByTypeCounts` | server/src/controllers/analyticsController.js:48-52 | each type's bucket count is the number of violations of that type |
| `Analytics.GroupByTypeBuckets` | server/src/controllers/analyticsController.js:48-52 | a type has a bucket exactly when some violation has that type |
| `Analytics.ByTypeRowsAreCounts` | server/src/controllers/analyticsController.js:48-70 | every row names an existing type by its name and carries that type's positive violation count |
| `Analytics.ByTypeRowsAreComplete` | server/src/controllers/analyticsController.js:48-70 | a type has a row exactly when it exists and some violation has it; types without violations and unresolved ids have none |
| `Analytics.ByTypeRowsDistinct` | server/src/controllers/analyticsController.js:48-70 | no two rows share a type id: each type has at most one row |
| `Analytics.ByTypeTotal` | server/src/controllers/analyticsController.js:54-70 | the row counts add up to at most the number of violations, and to exactly that when every type reference resolves |
| `Lifecycle.CreateUpdatesStats` | server/src/controllers/analyticsController.js:8-24 | a create adds one violation and its fine to the total and to pending; a failed create changes no statistic |
| `Lifecycle.PayUpdatesStats` | server/src/controllers/violationController.js:135-137 | a payment moves the fine from pending to collected and keeps count and total; a refused one changes nothing |
| `Lifecycle.NothingBecomesDisputed` | server/src/models/Violation.js:40-44 | no create or payment raises the number of disputed violations |
| `Lifecycle.OwnerSeesNewViolation` | server/src/controllers/violationController.js:76-83 | a new violation appears in the listing of the citizen account it is linked to |
| `ServerRoutes.GuardedChainOutcome` | server/src/routes/violationRoutes.js:7-14 | a chain of authentication then role checks refuses an unauthenticated request before any role check, and admits a known caller exactly when every role list holds its role |
| `ServerRoutes.RoutesFollowPolicy` | server/src/routes/violationRoutes.js:7-14 | every violation and analytics route authenticates first; types, areas and listing admit any authenticated caller; create and pay admit officer and admin; stats and by-type admit only admin |
| `ServerRoutes.CitizenCannotPay` | server/src/routes/violationRoutes.js:14 | an authenticated citizen is always refused on PUT `/:id/pay` |
| `ServerRoutes.AnalyticsIsAdminOnly` | server/src/routes/analyticsRoutes.js:7-8 | both analytics routes reach the controller exactly for an authenticated admin |
| `ClientRoutes.ProtectedRoute` | client/src/routes/ProtectedRoute.jsx:8-22 | loading shows the loading view whatever the user; otherwise no user redirects to `/login`; otherwise a role outside a given list is denied; otherwise the page renders |
| `ClientRoutes.PathOfRoundTrip` | client/src/App.jsx:16-31 | each page is mounted at exactly one path |
| `ClientRoutes.RenderShowsIff` | client/src/App.jsx:16-31 | a page is shown exactly when it is `/login`, or a signed-in, loaded user whose role the page admits opens its path (dashboard and violations: any role; register-violation: admin, officer; analytics: admin) |
| `ClientRoutes.LoginAlwaysReachable` | client/src/App.jsx:16 | `/login` renders without a user |
| `ClientRoutes.UnknownPathGoesHome` | client/src/App.jsx:34 | any other path redirects to `/`, which shows the dashboard to a signed-in user and sends an anonymous one on to `/login` |
| `ClientRoutes.AnonymousSeesOnlyLogin` | client/src/App.jsx:19-31 | without a user, the only page shown is the login page |

## Left out

- `getViolationTypes` and `getAreas` (server/src/controllers/violationController.js:97-116): plain reads of the reference collections.
- `populate` of officer, type and area in the listing: it only fills in display fields.
- The authentication and role middleware and the `User` model are not part of this model. `Auth.Authenticate` gives `protect` the plainest reading: an unexpired token whose account exists. `checkRole` is read as membership in the route's list. A token for a missing account is refused.
- `User.create` is assumed to succeed. Its own validation and any username uniqueness are not modelled, and the unreachable 'Invalid user data' branch of `registerUser` is not modelled.
- JWT signing and verification with the secret, and bcrypt's salt and cost. `Auth.Login` models no constant-time comparison.
- `Math.random`: the generated password and the username suffix are parameters.
- Lower-casing covers ASCII letters only; Unicode case mapping (including mappings that change length) is not modelled. The JavaScript `\s` set is modelled in full.
- Values of the wrong JSON type: a non-string owner name (which would throw), a fine given as a string or a fraction, and malformed ObjectId strings (cast errors). Fines are integers and ids are naturals.
- The text of Mongoose validation messages: a failed insert reports only the failing paths.
- The order of the by-type rows: Mongo does not promise one. The model lists buckets in order of first appearance.
- Exact HTTP status codes. The model keeps error kinds and messages.
- Concurrency: the find-then-create race for an owner's account, and the read-modify-write race of mark-paid. The model is sequential. In this model the e-mail uniqueness invariant holds only because operations do not interleave.
- URL matching details: Express and React Router match paths case-insensitively and ignore a trailing slash, and the server routers are mounted under `/api/violations` and `/api/analytics`. The model matches exact paths after the mount point.
- Login requests whose e-mail or password is missing. There the source may throw outside a `try`, and the model takes both as strings.
- ViolationController.GetViolations: states which violations the listing holds and how often, not that it keeps store order (the function does keep it).
- Identity.MatchesOnlyTheHashedPassword: bcrypt's limit is 72 UTF-8 bytes, and the model counts 72 characters. The two agree only for ASCII passwords, because the model has no UTF-8 encoding.
