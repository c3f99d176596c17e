# Social graph and signup of the twitter-clone backend, in Dafny

This project models the parts of the twitter-clone REST backend that hold real
logic, with the MongoDB collections replaced by an in-memory users table (a map
from id to user document) and an append-only notification log:

- **Follow toggle** (`toggleFollowUser`): refuses a self-toggle, then a missing
  user; reads the edge from the target's `followers`; on follow pushes the two ids
  and logs one `follow` notification; on unfollow pulls every occurrence of both
  ids and logs nothing.
- **Suggested users** (`getSuggestedUsers`): from a random sample of at most ten
  other users, drops those the caller follows, keeps the first four and nulls
  their passwords.
- **Signup** (`signup`): checks the email format, then username, then email, then
  password length, the first failure deciding the 400 response; then inserts one
  new document with the schema's defaults and answers 201 without the password.
- **User document** (`userSchema`): fields, defaults, the validation `save()`
  runs (required paths, password `minLength: 6`) and the unique indexes.

Files: `wrappers.dfy` (Option, Result), `object_ids.dfy` (12-byte ObjectIds,
their lower-case hex string and the case-insensitive cast of a route
parameter), `id_lists.dfy` (MongoDB `$push` and `$pull` on id lists),
`user_model.dfy` (the document, `save()`, table and graph
invariants), `store.dfy` (class `Db` holding both collections),
`user_controller.dfy`, `email_format.dfy` (the address regular expression) and
`auth_controller.dfy`. Each handler is a pure function describing its outcome
and new state, plus an imperative method on `Db` proved equal to it. For
`toggleFollowUser` the imperative method follows the corrected self check
described under "## Findings"; the check as written is the pure
`ToggleFollowAsWritten`.

A missing user in the toggle is answered with 400
(backend/controllers/user.controller.js:40). Follow lists are arrays that
`$push` may extend with a duplicate. The signup response reads a `coverImg`
path the schema never declares, so that field is always undefined (`None`).

## Model

| member | source | states |
|---|---|---|
| IdLists.Push | backend/controllers/user.controller.js:48 | `$push` appends the id after the old list, present or not |
| IdLists.Pull | backend/controllers/user.controller.js:69-70 | `$pull` leaves exactly the elements different from the id, removes every occurrence, never lengthens the list, and changes nothing when the id is absent |
| IdLists.PullCounts | backend/controllers/user.controller.js:69-70 | `$pull` keeps every other element with its multiplicity and drops every copy of the id |
| IdLists.PullAppend | backend/controllers/user.controller.js:69-70 | `$pull` keeps the order of what it leaves: pulling from a concatenation is the concatenation of the pulled parts |
| IdLists.PullKeepsNoDuplicates | backend/controllers/user.controller.js:69-70 | pulling keeps a duplicate-free list duplicate-free |
| IdLists.PushKeepsNoDuplicates | backend/controllers/user.controller.js:48-52 | pushing an absent id keeps a list duplicate-free |
| IdLists.PullUndoesPush | backend/controllers/user.controller.js:48-70 | pulling an id that was pushed onto a list lacking it gives back the original list |
| UserModel.Save | backend/models/user.model.js:5-23 | a new document is stored exactly when the required paths are non-empty, the password has at least 6 characters, and its id, username and email are all unused; then only that entry is added |
| UserModel.SaveKeepsTableValid | backend/models/user.model.js:5-23 | a successful save keeps the table keyed by id, every document valid, usernames unique and emails unique |
| ObjectIds.CastIdString | backend/controllers/user.controller.js:28-35 | the string `toString()` gives for an id is 24 lower-case hex digits and casts back to the same id |
| ObjectIds.Cast | backend/controllers/user.controller.js:28 | a route parameter casts to an id exactly when it is 24 hex digits in either case |
| ObjectIds.CanonicalIsIdString | backend/controllers/user.controller.js:28-35 | a 24-digit lower-case hex string is the `toString()` of the id it casts to |
| ObjectIds.IdStringInjective | backend/controllers/user.controller.js:35 | distinct ids have distinct strings, so comparing canonical strings is comparing ids |
| ObjectIds.UpperCaseSpelling | backend/controllers/user.controller.js:28-35 | the upper-case spelling of id 10 casts to id 10 but differs from its `toString()` |
| UserController.Follow | backend/controllers/user.controller.js:46-67 | the target's followers gain the caller and the caller's following gains the target, appended at the end; one `follow` notification from caller to target is logged; every other document is unchanged |
| UserController.Unfollow | backend/controllers/user.controller.js:68-72 | every occurrence of the caller leaves the target's followers and of the target the caller's following; the log and every other document are unchanged |
| UserController.FollowChangesOneEdge | backend/controllers/user.controller.js:46-52 | between distinct users, a follow changes only the caller's following and the target's followers, and no other membership or profile field |
| UserController.UnfollowChangesOneEdge | backend/controllers/user.controller.js:69-70 | between distinct users, an unfollow changes only the caller's following and the target's followers, and no other membership or profile field |
| UserController.ApplyToggle | backend/controllers/user.controller.js:43-73 | membership of the caller in the target's followers is negated and mirrored in the caller's following; a follow logs exactly one `follow` notification from caller to target and an unfollow leaves the log as it was; the two documents keep every field but the follow lists, and no other document changes |
| UserController.ToggleFollowAsWritten | backend/controllers/user.controller.js:23-78 | the handler as written: the self-toggle refusal happens exactly when the raw parameter equals the caller's id string |
| UserController.ToggleFollow | backend/controllers/user.controller.js:23-78 | the corrected handler (self check on the cast id): a cast error answers 500, any spelling of the caller's own id answers 400 before the not-found check, a missing target or caller answers 400 "User(s) not found."; every failure leaves users and notifications unchanged; a success is the toggle between two distinct stored users |
| UserController.ApplyToggleKeepsGraph | backend/controllers/user.controller.js:43-73 | from a graph with symmetric edges, no duplicates, no self-edges and no dangling ids, a toggle between distinct users yields such a graph again |
| UserController.ApplyToggleKeepsTable | backend/controllers/user.controller.js:43-73 | a toggle touches no validated path, so the table stays keyed by id with valid documents and unique usernames and emails |
| UserModel.OneEdgeChangeKeepsGraph | backend/models/user.model.js:24-37 | changing one follow edge on both of its views at once, without duplicating it, keeps the follow graph consistent |
| UserController.ToggleFollowKeepsInvariants | backend/controllers/user.controller.js:23-78 | every call keeps the schema constraints of the table and the consistency of the follow graph |
| UserController.ToggleTwiceRestoresMembership | backend/controllers/user.controller.js:43-73 | after two successive successful toggles the caller is in the target's followers exactly when it was before |
| UserController.FollowThenUnfollowRestoresUsers | backend/controllers/user.controller.js:46-72 | from a consistent graph, follow then unfollow restores every user document exactly, leaving one `follow` notification in the log |
| UserController.UnfollowUndoesFollow | backend/controllers/user.controller.js:46-72 | when neither list holds the other id, unfollowing after following gives back the same users table |
| UserController.AsWrittenAgreesOnCanonicalSpelling | backend/controllers/user.controller.js:23-78 | for the lower-case spelling `toString()` produces, the handler as written and the corrected one give the same reply and state |
| UserController.AsWrittenAllowsSelfFollow | backend/controllers/user.controller.js:35-37 | with the upper-case spelling of one's own id the handler as written follows oneself and breaks the no-self-edge invariant, while the corrected handler refuses it |
| UserController.ToggleFollowUser | backend/controllers/user.controller.js:23-78 | the imperative handler, with the corrected self check: its reply and new database state are those of `ToggleFollow`, and it keeps the database invariant |
| UserController.NotFollowedMembers | backend/controllers/user.controller.js:134 | the filter keeps exactly the sampled users whose id is not on the caller's following list |
| UserController.NotFollowedAppend | backend/controllers/user.controller.js:134 | the filter preserves the sample's order: filtering a concatenation is the concatenation of the filtered parts |
| UserController.Scrubbed | backend/controllers/user.controller.js:138 | a scrubbed user has a null password |
| UserController.SuggestedUsers | backend/controllers/user.controller.js:119-144 | a missing caller answers 500 exactly when the sample is non-empty (the filter callback reads `following` of null) and an empty list otherwise; with the caller stored the answer has exactly min(4, number of unfollowed sampled users) users; never more than 4 |
| UserController.SuggestedUsersAreUnfollowedStrangers | backend/controllers/user.controller.js:122-138 | the answer is, in order, the password-free copies of the first unfollowed sampled users; none is the caller or followed by the caller, and none carries a password |
| UserController.GetSuggestedUsers | backend/controllers/user.controller.js:119-144 | the handler answers exactly `SuggestedUsers`: a missing caller fails on the first sampled user, then come the filter, the slice and the password-nulling loop |
| UserController.FilterUnfollowed | backend/controllers/user.controller.js:134 | the filter loop keeps exactly what `NotFollowed` keeps, in sample order |
| UserController.ScrubEach | backend/controllers/user.controller.js:138 | the `forEach` loop nulls the password of every element and changes nothing else |
| EmailFormat.ValidEmailMatchesPattern | backend/controllers/auth.controller.js:10-14 | the scanning check accepts a string exactly when it decomposes as a non-empty `[A-Za-z0-9_.-]` run, one `@`, one or more non-empty `[A-Za-z0-9_-]` labels each followed by a dot, and a last label of 2 to 4 such characters |
| AuthController.CheckSignup | backend/controllers/auth.controller.js:10-32 | the checks run in order email format, username taken, email used, password shorter than 6; each error is returned exactly when the earlier checks pass and its own fails; all are status 400 |
| AuthController.SignupOutcome | backend/controllers/auth.controller.js:6-62 | a failure leaves the table unchanged; success happens exactly when the checks pass, the new id is unused and the required paths and hash are valid; it adds exactly one user with the given names and email, the hashed password, empty follow and liked lists, empty profile strings; the response carries id, full name, username, empty lists and no cover image |
| AuthController.PasswordLengthBoundary | backend/controllers/auth.controller.js:30-32 | with the earlier checks passed, a 6-character password is accepted and a shorter one refused |
| AuthController.SignupKeepsInvariants | backend/controllers/auth.controller.js:16-46 | signup keeps usernames and emails unique and the follow graph consistent |
| AuthController.Signup | backend/controllers/auth.controller.js:6-62 | the imperative handler's result and new users table are those of `SignupOutcome`, the notification log is untouched, and the database invariant is kept |

## Left out

- UserController.ToggleFollowUser: performs the corrected self check on the cast id, not the raw string comparison of line 35; the comparison as written is modelled only by the pure `ToggleFollowAsWritten`, which gives the same reply and state on every spelling `toString()` produces (`AsWrittenAgreesOnCanonicalSpelling`).
- HTTP routing, server start-up, environment loading and the database connection: I/O. Status codes are modelled as numbers on the reply types.
- The authentication middleware: the caller's id is an input, standing for the document it attached to the request.
- Token and cookie issuance, including the cookie being set before `save()` runs: outside the data model.
- bcrypt: hashing with a fresh salt is the parameter `hash`; `compare` and salt generation are not modelled.
- AuthController.SignupOutcome: says the stored password is `hash(password)`; whether that differs from the plaintext depends on the hash function, which is abstract here.
- The unreachable `else` branch of `if (newUser)` in `signup` ("Invalid user data."): a freshly built document is always truthy.
- `updateUserProfile`, `login`, `logout` and `getUserProfile`: not part of this model.
- The randomness of `$sample`: the sample is an input, constrained by `IsSample` (at most ten distinct stored users, caller excluded).
- UserController.GetSuggestedUsers: nulls the passwords of the chosen records in a sequence of values; the sampled objects being mutated in place is not modelled, as nothing else refers to them.
- Partial failures between the two `findByIdAndUpdate` calls and races between concurrent requests: every handler is one atomic step.
- The notification schema: a notification is only its type, sender and recipient; read flags and defaults are not modelled.
- The `createdAt` and `updatedAt` timestamps: they come from the clock.
- Missing request-body fields: every field is a string; an undefined `username` turning the lookup into `findOne({})` is not modelled.
- String lengths count Dafny characters, not JavaScript's UTF-16 code units; they differ only for characters outside the Basic Multilingual Plane.
- ObjectId casts of anything other than a 24-digit hexadecimal string (a 12-character string, a number, a nested object): treated as cast errors.

## Findings

| source | as written | input that shows it | evidently intended | confidence | as-written member | corrected member |
|---|---|---|---|---|---|---|
| backend/controllers/user.controller.js:35 | the self check compares the raw `:id` string with the caller's canonical id, while `findById` and `$push` cast the parameter case-insensitively | caller `00000000000000000000000a` toggling `00000000000000000000000A`: the caller is pushed onto their own followers and following, and notifies themselves | refuse every spelling that casts to the caller's own id | not executed; relies on the ObjectId cast accepting upper-case hex digits | UserController.AsWrittenAllowsSelfFollow | UserController.ToggleFollow |
