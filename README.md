# Email verification and account mutation, modelled in Dafny

This project models the user controller of a server-rendered community site
(`controllers/userController.js`). It covers the workflows that verify an
email address with a one-time code and then change an account: signup,
password reset, password change, profile edit behind a password re-entry
gate, and the nickname-availability check.

The state is one `Store` object (`controller.dfy`) with these fields:

- `codes`: the rows of the `EmailVerification` table, as a sequence. Each row is `(email, code, sent_at, verified Y|N, verified_at, user_id?)`.
- `users`: the rows of the `User` table.
- `nextUserId`: a bound above every `user_id` in use; a new account takes it.
- `profileEditAllowed`: the session flag.

Each handler is a method. It checks its predicates in the source's order,
changes specific rows and answers with an `Outcome`, which stands in for the
flash message and the render or redirect. Most rejections change nothing.
The exceptions are that a signup which fails after its code check
(`RegisterFailed`, `DuplicateValue`) and a `verifyResetCode` whose user
lookup fails (`UserNotFound`) still consume the code row, as listed below.
In the intended `updateProfile` (`Store.UpdateProfile`), a changed email
whose save then clashes (`DuplicateValue`) also keeps the code consumed,
because the row is marked verified (435) before the save (441); as written
the handler never reaches that point.
The methods' `ensures` clauses state the whole new state in terms of the old
one, using the functions of `verification.dfy` and `accounts.dfy`:

- `Consume`: a row flipped to `verified = 'Y'`.
- `Issued`: a new row appended.
- `Backfill`: `user_id` written into matching rows.
- A user row updated.

The lemmas beside those functions prove the properties the workflow depends on:

- A consumed code can never match again.
- Issuing a code and backfilling `user_id` do not disturb other lookups.
- The ordered lookup always has a result when the unordered one does.
- The unique keys of the user table are preserved.

The file `scenarios.dfy` drives the store through concrete request sequences,
proved from the contracts alone:

- A code issued at T0 is accepted at T0+299 s and rejected when reused.
- The same code is rejected at T0+301 s, and in a second store in the same state it is still accepted at exactly T0+300 s.
- A second signup with the login id `alice` is refused.
- A password reset succeeds without any code.
- An email change fails as the handler is written and succeeds as intended.
- As written, a nickname change that keeps the email still saves.

At these points the code behaves in ways a reader may not expect; the model follows the code:

- The code row is consumed before `register` is called (line 41). A signup that then fails on a unique constraint or a library error still uses up the code.
- `verifyResetCode` also consumes the code before it looks the user up (253-256).
- `create` and `verifyResetCode` use `findOne` with no ordering. Any pending row with the email and code may be chosen, so a stale duplicate can be chosen over a fresh one. The model makes this choice nondeterministically (`Store.FindPending`).
- `updateProfile` takes the newest row (`Store.FindNewestPending`). For that lookup, `NewestDecidesExpiry` shows that the newest row is accepted exactly when some pending row is still fresh.
- The profile-edit flag is cleared only by a successful save (444), apart from `logout` destroying the whole session (120), which is not modelled.
- The final password-reset step (`resetPasswordFinal`) reads neither the code table nor any proof that a code was accepted. It resets the password of any existing email. `Scenarios.ResetNeedsNoCode` shows this.

The export list at line 577 names `chekNickname`, which is never defined.
Evaluating that object literal raises a ReferenceError when the module is
loaded. The model covers the handler `checkNickname` itself (479-515).

## Model

| member | source | states |
|---|---|---|
| Schema.SetPasswordThenMatches | controllers/userController.js:199-206 | documents what the model assumes of the credential library, which holds because `Hash` is injective: after `setPassword(p)` the comparison succeeds for `p` and for no other password |
| Verification.Issued | controllers/userController.js:153-159 | the inserted row is pending for its own email and code, not expired at its send time, and well formed |
| Verification.Consume | controllers/userController.js:41 | only the matched row changes; it becomes verified with `verified_at = now` and keeps email, code, send time and user id |
| Verification.Backfill | controllers/userController.js:86-95 | every row with the email, `verified = 'Y'` and no user id gets the new user id; every other row is unchanged; no matching row remains |
| Verification.ConsumeRemovesOnlyThatRow | controllers/userController.js:25-41 | after consuming row i, the rows any later lookup (any email, any code) may return are exactly the earlier ones minus i |
| Verification.IssueAddsOneRow | controllers/userController.js:153-159 | issuing adds the new row to the lookups for its own email and code and to no other lookup |
| Verification.BackfillKeepsPending | controllers/userController.js:86-95 | the backfill never changes which rows a code lookup may return |
| Verification.NewestPendingExists | controllers/userController.js:412-415 | whenever a pending row exists, a newest pending row exists, so the ordered lookup finds a row whenever the unordered one would |
| Verification.NewestDecidesExpiry | controllers/userController.js:412-433 | with the newest row chosen, the code is accepted exactly when some pending row is within the five-minute lifetime |
| Verification.ConsumeBackfillWellFormed | controllers/userController.js:41-95 | consuming and backfilling keep `verified = 'Y'` exactly on the rows that carry a `verified_at` |
| Accounts.UserById | controllers/userController.js:371 | `findByPk` returns a row with that user id, and returns nothing only when no row has it |
| Accounts.UserByEmail | controllers/userController.js:7-9 | `findOne({ email })` returns a row with that email, and returns nothing only when no row has it |
| Accounts.UserByIdFindsTheRow | controllers/userController.js:312 | under the unique keys, the primary-key lookup returns the one row with that id |
| Accounts.UserByEmailFindsTheRow | controllers/userController.js:146 | under the unique keys, the email lookup returns the one row with that email |
| Accounts.RegisterClashes | controllers/userController.js:44-57 | the columns reported by a failed insert are exactly those among email, id and name already held by some row |
| Accounts.SaveClashes | controllers/userController.js:438-452 | the columns reported by a failed save are exactly those among email and name held by another user |
| Accounts.RegisterKeepsKeysUnique | controllers/userController.js:44-95 | inserting an account that clashes on no column, under a fresh user id, keeps all four keys unique |
| Accounts.SaveKeepsKeysUnique | controllers/userController.js:438-441 | saving a nickname and email that no other user holds keeps all four keys unique |
| Accounts.CredentialChangeKeepsKeysUnique | controllers/userController.js:541-548 | replacing a credential keeps all four keys unique |
| Messages.SignupDuplicateMessage | controllers/userController.js:60-72 | the generic duplicate message is given exactly for columns other than email, id and name; email gives the email-in-use message |
| Messages.ProfileDuplicateMessage | controllers/userController.js:455-464 | the generic duplicate message is given exactly for columns other than email and name |
| Messages.SignupMessageIdentifiesColumn | controllers/userController.js:60-72 | signup gives three distinct messages for email, id and name |
| Messages.SwitchesDifferOnlyOnLogin | controllers/userController.js:455-464 | the two switches agree on every column except `id`, which the profile save reports with the generic message |
| Messages.TrimStart | controllers/userController.js:482 | the result is a suffix of the input, the removed prefix is all whitespace, and the result does not start with whitespace |
| Messages.Trim | controllers/userController.js:482 | `name.trim()` is a contiguous slice of the input with only whitespace removed on either side, and it neither starts nor ends with whitespace |
| Messages.TrimEnd | controllers/userController.js:482 | the result is a prefix of the input, the removed suffix is all whitespace, and the result does not end with whitespace |
| Messages.TrimEmptyIffBlank | controllers/userController.js:482 | `trim()` yields the empty string exactly when the input is empty or all whitespace |
| Messages.CheckNickname | controllers/userController.js:479-507 | available exactly when the name is not blank and no other user has exactly that name; the message is the prompt, the duplicate notice or the available notice accordingly |
| Messages.OwnNicknameAvailable | controllers/userController.js:490-495 | the requester's own non-blank nickname is reported available |
| UserController.NewMember | controllers/userController.js:44-51 | the row handed to `register` carries the form's login id, nickname and email, rank 1 and a verified email, and its credential matches the form's password and no other |
| UserController.Store.FindPending | controllers/userController.js:25-27 | returns some pending row for (email, code), and returns nothing exactly when none exists |
| UserController.Store.FindNewestPending | controllers/userController.js:412-415 | returns a pending row with the latest `sent_at`, and returns nothing exactly when none exists |
| UserController.Store.ValidateCode | controllers/userController.js:238-253 | rejects as invalid exactly when no pending row exists; rejects as expired when the chosen row is older than 300000 ms, with the table unchanged; otherwise accepts with `now - sent_at <= 300000` and consumes exactly that row |
| UserController.Store.Signup | controllers/userController.js:12-103 | password mismatch first, then the consent boxes, then the code lookup, then expiry, each rejecting with nothing changed; a library error or unique clash leaves the users unchanged but the code consumed, with the clashing column's message; success appends the new account (rank 1, email verified) and backfills its user id |
| UserController.Store.SendResetCode | controllers/userController.js:140-170 | an email no user holds appends nothing; otherwise exactly one pending row for that user is appended and nothing else changes |
| UserController.Store.VerifyResetCode | controllers/userController.js:235-263 | the same acceptance condition as signup; on acceptance the code is consumed before the user lookup, whichever way that lookup ends |
| UserController.Store.ResetPasswordFinal | controllers/userController.js:183-217 | a mismatch rejects with the users unchanged; otherwise the credential of the account holding the email is replaced unless the library fails; the code table is not in its frame |
| UserController.Store.CheckPasswordForEdit | controllers/userController.js:308-334 | the flag is set exactly when the requester exists and the password matches without error; otherwise the flag is unchanged |
| UserController.Store.ShowEditProfileForm | controllers/userController.js:337-348 | rejected exactly when the flag is not set; otherwise the form is shown if the requester exists |
| UserController.Store.SendProfileCode | controllers/userController.js:378-408 | same email or an email held by another user appends nothing; otherwise exactly one pending row is appended; the user table and the flag are not in its frame |
| UserController.Store.SaveProfile | controllers/userController.js:438-466 | saves exactly name and email and clears the flag when no other user holds either; otherwise leaves user and flag unchanged and reports a clashing column |
| UserController.Store.UpdateProfile | controllers/userController.js:362-476 | without the flag nothing changes; the send-code branch never touches the user or the flag; an unchanged email saves without reading any code; a changed email needs the newest pending code to be unexpired, and a failed check leaves user, flag and codes unchanged |
| UserController.Store.UpdateProfileAsWritten | controllers/userController.js:362-476 | as written: the flag gate, the send-code branch and the unchanged-email save behave as in the intended handler; a final submit that changes the email ends in the generic failure with codes, user and flag unchanged |
| UserController.Store.ChangePassword | controllers/userController.js:517-559 | a wrong current password is rejected before the confirmation is compared; either failure, a missing user or a library error leaves the users unchanged; otherwise only the credential changes |
| Scenarios.CodeIsSingleUse | controllers/userController.js:238-253 | a code sent at T0 is accepted 299 s later and rejected as invalid when submitted again |
| Scenarios.CodeExpiresAfterFiveMinutes | controllers/userController.js:247-251 | a code sent at T0 expires at T0+301 s and, in a second store in the same state, is still accepted at exactly T0+300 s |
| Scenarios.SecondAliceIsRefused | controllers/userController.js:44-75 | a second signup with the login id `alice` gets the id-in-use message |
| Scenarios.ResetNeedsNoCode | controllers/userController.js:183-210 | the final reset step changes the password of an existing account when no code was ever sent |
| Scenarios.EmailChangeAsWritten | controllers/userController.js:368-413 | as written, an email change whose code was sent never saves, and the gate stays open |
| Scenarios.NicknameChangeAsWritten | controllers/userController.js:411-444 | as written, a submit that keeps the email saves the new nickname and closes the gate |
| Scenarios.EmailChangeAsIntended | controllers/userController.js:378-447 | with the submitted code read, the same change saves the new email and closes the gate |
| Scenarios.GateClosedByDefault | controllers/userController.js:337-366 | a session that has not re-entered its password reaches neither the edit form nor a save |

## Left out

- Code generation with `Math.random` (142, 390): the code is a parameter. The precondition `IsSixDigitCode` states the six-digit shape the generator produces.
- The wall clock: `now` and `sent_at` are integer milliseconds passed in.
- Delivering codes by email: the source only logs them.
- The credential library (`register`, `setPassword`, `passwordComparison`): `Hash` stands for an injective hash, and every error the library can report is a boolean `fault` parameter.
- `register`'s own checks (such as an existing username) are folded into `fault`. The database's unique constraints on email, id and name are modelled.
- Database failures other than unique-constraint violations are not modelled: `findByPk` or `findOne` throwing, or a row write failing. Where such a failure would go depends on the handler:
  - `create` and `verifyResetCode` have no `try`. A failing lookup (25, 238, 256), code update (41, 253) or backfill (86-95) is an unhandled rejection.
  - The saves at 206 (`resetPasswordFinal`) and 548 (`changePassword`) run inside `setPassword` callbacks, outside the `.catch` at 212-216 and the `try` at 520-558. Their rejections are unhandled too.
  - Every other lookup or write reaches its handler's `catch`: 165-169 (`sendResetCode`), 212-216 (the lookup in `resetPasswordFinal`), 329-333, 354-358, 473-474 (`updateProfile`), 508-514 and 554-558 (the lookup in `changePassword`).
- The `catch` at 212-216 never calls `next()`, so such a request would hang.
- Model validators on the user table: the user model file is not part of this model.
- Database collation: names and emails are compared exactly, character by character.
- Presentation and other handlers: flash messages, view rendering, redirects, echoing form fields back, console logging, `getMyPage`, `login`, `logout`, `redirectView` and the form renderers.
- The rendering half of `showEditProfileForm`: only its gate and its user lookup are modelled.
- JavaScript value coercions of request fields: the consent boxes are booleans, and an absent nickname is the empty string. A repeated `name` query parameter would arrive as an array and make `trim` throw; this is not modelled.
- The router (`routes/userRouter.js`) and the comment, reaction and image models: they only declare routes and schemas.
- Auto-increment gaps: user ids are modelled as consecutive, and a signup rejected by a unique constraint leaves `nextUserId` unchanged. Many databases use up the value on a failed insert, so the next account would get a higher id. The model's properties need only that a new id is fresh, not its exact value.
- Concurrency: the model is sequential, so the check-then-act races on email uniqueness and on code consumption are not represented.
- Sessions: one session is modelled. It is not bound to a user, and destroying it at logout is not modelled.
- The module-load ReferenceError caused by `chekNickname` in the export list (577).
- UserController.Store.Signup: when several columns clash, the contract does not say which one is reported. The database reports one of them (`err.errors[0].path`), and the model chooses nondeterministically.
- UserController.Store.SaveProfile: when both email and name clash, the contract does not say which one is reported, for the same reason.

## Findings

| source | as written | input that shows it | evidently intended | confidence | as-written member | corrected member |
|---|---|---|---|---|---|---|
| controllers/userController.js:368 | the body is destructured into `eemailCode`, but the lookup at 413 reads `emailCode`, which no enclosing scope declares; the ReferenceError goes to the generic branch of the `catch` (473-474) | profile-edit flag set, `action` not `send-code`, a new email, and the correct code just sent to it (`Scenarios.EmailChangeAsWritten` against `Scenarios.EmailChangeAsIntended`) | look the code up by the submitted `emailCode` field and save the new email | high, not executed | UserController.Store.UpdateProfileAsWritten | UserController.Store.UpdateProfile |
