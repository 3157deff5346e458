# Signup and login handlers, modelled in Dafny

This project models the two handlers of `api/routes/user.js` that hold logic:

* **Signup** (`POST /signup`) checks the four body fields `name`, `email`, `password` and
  `password2`. All four checks always run, and each failure appends a fixed message to an error
  list. A non-empty list gives a 400 answer. Otherwise the handler looks the email up (409
  `Email exists` if it is taken), hashes the password, and saves one new user (200 `User created`).
* **Login** (`POST /login`) looks the email up, compares the password against the stored digest,
  and answers 200 with a signed token carrying `{email, userId}`, or 401 `Auth failed`.
* **Profile** (`GET /profile`) echoes the claims that the authentication middleware attached.

Modules:

* `Wrappers`: `Option`, for body fields that may be absent.
* `EmailSyntax`: the email regular expression on line 21. The ghost predicates (`DotAtom`,
  `HostName`, `DigitGroups`, `EmailPattern`, …) follow the regex term by term. Wherever the regex
  engine may backtrack, they choose the split point existentially. `IsValidEmail` is a
  deterministic recogniser that the handler calls. It splits at the last `@`, because neither
  domain alternative can contain one. Inside dot-atoms, host names and digit groups it splits at
  the first `.`. `RecogniserIsPattern` proves that the two accept the same strings.
* `SignupValidation`: the four checks. `Errors` is the reference definition: the messages of the
  failing checks, in the fixed order. `Validate` is the handler's step-by-step build of the list,
  proved equal to it.
* `Accounts`: the user store (`UserStore`: a map from email to `Account`, plus the next id) with
  its `Signup` method, the pure `Login` and `Profile` functions, and lemmas connecting them.
  `SignupTransition` is signup as a function of the store.

Modelling choices:

* Body fields are `Option<string>`. JavaScript's truthiness test on a string field (`!name`,
  `email && …`) is `Given`: the field is present and not empty. `password !== password2` compares
  the two options, so two absent passwords are equal.
* `password.length` counts UTF-16 code units (`Utf16Length`): a character outside the Basic
  Multilingual Plane counts as two.
* The regex has no `u` flag, so it runs over UTF-16 code units. Every character that a class
  excludes lies in the Basic Multilingual Plane. So for well-formed text, matching over Unicode
  scalar values, as the model does, accepts the same strings. Strings holding an unpaired
  surrogate cannot be represented, as noted under "Left out". `\s` is ECMAScript's WhiteSpace and LineTerminator set.
  `.` refuses only the four line terminators.
* bcrypt's `hash` and `compare` and jwt's `sign` are uninterpreted: they are the function fields
  of a `Crypto` value. `hash` may report an error. `compare` answers `Matches`, `Mismatch` or
  `CompareError`. The secret key, the 24-hour expiry and the cost factor 10 are inside these
  functions. The one assumption used, in `SignupThenLogin` only, is `HashVerifies`: a password
  fits its own digest.
* The callback chains (find, hash, save; find, compare, sign) run as sequential steps. Database
  errors are the inputs `StoreFaults.findFails` and `StoreFaults.saveFails`. Each gives a 500
  answer and leaves the store unchanged. A hashing error does the same.
* The database assigns `_id`. The model uses a counter, `nextId`, so ids are distinct and every
  stored id is below the counter (`WellFormed`).
* bcrypt's `compare` callback can report an error (`api/routes/user.js:67-68`). The handler answers that
  with 401, like a mismatch, and the model follows it.

## Model

| member | source | states |
|---|---|---|
| `EmailSyntax.EmailPattern` | api/routes/user.js:21 | the regex itself, term by term: some `@` splits the string into a dot-atom or quoted local part and a bracketed four-group literal or a host name, with every backtracking choice existential |
| `EmailSyntax.IsValidEmail` | api/routes/user.js:21 | the `.test(email)` call: splits at the last `@`, then at the first `.` of each atom, label or group; a string it accepts contains `@`, and it equals `EmailPattern` by `RecogniserIsPattern` |
| `EmailSyntax.RecogniserIsPattern` | api/routes/user.js:21 | the recogniser accepts a string exactly when the regex `^(dot-atom \| ".+")@(bracketed 4-group literal \| labels. + 2-letter label)$` matches it, whichever `@` the match splits at |
| `EmailSyntax.RecogniserSound` | api/routes/user.js:21 | every accepted string has an `@` that splits it into a local part and a domain of the regex |
| `EmailSyntax.RecogniserComplete` | api/routes/user.js:21 | every string the regex matches is accepted, even when the quoted local part holds an `@` |
| `EmailSyntax.DotAtomScanned` | api/routes/user.js:21 | splitting at each next dot recognises exactly `[^<>()\[\]\\.,;:\s@"]+(\.[^…]+)*` |
| `EmailSyntax.HostNameScanned` | api/routes/user.js:21 | splitting at each next dot recognises exactly `([a-zA-Z\-0-9]+\.)+[a-zA-Z]{2,}` |
| `EmailSyntax.DigitGroupsScanned` | api/routes/user.js:21 | splitting at each next dot recognises exactly n dot-separated groups of 1 to 3 digits |
| `EmailSyntax.DomainHasNoAt` | api/routes/user.js:21 | neither domain alternative contains an `@`, so the match must split at the last `@` |
| `EmailSyntax.DomainHasDot` | api/routes/user.js:21 | both domain alternatives contain a dot |
| `EmailSyntax.IndexOf` | api/routes/user.js:21 | the result is the position of the first occurrence, or none exactly when the character is absent |
| `EmailSyntax.LastIndexOf` | api/routes/user.js:21 | the result is the position of the last occurrence, or none exactly when the character is absent |
| `EmailSyntax.NoAtIsInvalid` | api/routes/user.js:21-23 | a string without `@` is never a valid email |
| `EmailSyntax.BadDomainIsInvalid` | api/routes/user.js:21-23 | if no `@` is followed by a bracketed literal or by dotted labels ending in two or more letters, the string is refused |
| `EmailSyntax.DotlessDomainIsInvalid` | api/routes/user.js:21-23 | if no `@` is followed by a dot, the string is refused |
| `EmailSyntax.WellFormedIsValid` | api/routes/user.js:21 | any local part, `@` and domain of the regex's shape together pass |
| `EmailSyntax.PlainAddressIsValid` | api/routes/user.js:21 | `ann@example.com` passes |
| `SignupValidation.Utf16Length` | api/routes/user.js:29 | the JavaScript length lies between the character count and twice it, and equals the character count for text inside the Basic Multilingual Plane |
| `SignupValidation.Fails` | api/routes/user.js:16-31 | the condition of each of the four `if`s: a missing or empty field; a given email the regex refuses; unequal password fields; a given password of fewer than 6 UTF-16 code units |
| `SignupValidation.Errors` | api/routes/user.js:14-31 | the reference error list: the messages of the failing checks in the order required, email, match, length; every entry is one of the four messages |
| `SignupValidation.Validate` | api/routes/user.js:13-31 | the list built by four appends is the list of the failing checks' messages in the fixed order |
| `SignupValidation.ErrorsByCheck` | api/routes/user.js:14-31 | the error list is the concatenation, check by check in the fixed order, of each failing check's message |
| `SignupValidation.FailedMessagesMembers` | api/routes/user.js:14-31 | a check's message is reported exactly when that check is among those run and fails |
| `SignupValidation.FailedMessagesRanked` | api/routes/user.js:14-31 | checks run in increasing order report their messages in increasing order |
| `SignupValidation.MessageIffFails` | api/routes/user.js:14-31 | each of the four messages is in the list exactly when its check fails; no check suppresses another |
| `SignupValidation.ErrorsInFixedOrder` | api/routes/user.js:14-31 | the list holds only the four messages, none twice, in the order required, email, match, length, and has at most four entries |
| `SignupValidation.MissingFieldReported` | api/routes/user.js:16-18 | an absent or empty `name`, `email`, `password` or `password2` puts `Enter required fields` in a non-empty list |
| `SignupValidation.EmailMessageIffRejected` | api/routes/user.js:21-23 | `Enter a valid email` appears exactly when the email is given and the regex refuses it; never for an absent or empty email; always for a given email without `@` |
| `SignupValidation.MatchMessageIffDiffer` | api/routes/user.js:25-27 | `Passwords must match` appears exactly when the two password fields differ, one absent and one present included |
| `SignupValidation.LengthMessageIffShort` | api/routes/user.js:29-31 | `Password must be at least 6 characters` appears exactly when the password is given and shorter than 6 |
| `SignupValidation.AcceptedFormIsComplete` | api/routes/user.js:14-33 | an empty list means every field is given, the email matches the regex, the passwords are equal and at least 6 long |
| `Accounts.SignupTransition` | api/routes/user.js:33-57 | signup as a function of the store: 400 with the error list, 500 on a lookup fault, 409 on a stored email, 500 on a hash or save fault, else 200 with one new account; the status is one of 200, 400, 409, 500, and the id counter grows by at most one |
| `Accounts.UserStore.constructor` | api/routes/user.js:36-51 | an empty user collection whose id counter starts at 0, which is well formed |
| `Accounts.UserStore.Signup` | api/routes/user.js:12-58 | the handler's steps keep the store well formed, and its answer and new store are those of `SignupTransition` |
| `Accounts.SignupRejectsInvalid` | api/routes/user.js:33-35 | a non-empty error list gives 400 with that list and leaves the store unchanged; a missing field is always in the list |
| `Accounts.SignupRejectsDuplicate` | api/routes/user.js:36-39 | a valid form whose email is already stored gives 409 `Email exists` and leaves the store unchanged, whether or not the save would fail, whenever the lookup succeeds |
| `Accounts.SignupChangesOnlyOnSuccess` | api/routes/user.js:33-56 | the answer is 200 exactly when the form passes, the email is new and neither the database nor the hasher fails; on every other answer the store is unchanged |
| `Accounts.SignupCreatesOneAccount` | api/routes/user.js:41-51 | a successful signup adds exactly one account under the form's email, holding its name and `hash(password)`, never the plaintext, and keeps every other account |
| `Accounts.SignupKeepsWellFormed` | api/routes/user.js:36-51 | signup keeps every account under its own email and keeps ids distinct |
| `Accounts.ShortPasswordRefused` | api/routes/user.js:29-34 | a complete form with a valid email and equal passwords shorter than 6 gives 400 with the length message alone |
| `Accounts.Login` | api/routes/user.js:62-84 | login reads the store and never changes it. It answers 200 exactly when the email is stored and `compare` reports a match, with a token signed over exactly `{email, userId}` of that account. An unknown email, a compare error and a mismatch all give 401 `Auth failed`. A database error gives 500. |
| `Accounts.Profile` | api/routes/user.js:86-88 | answers 200 with the claims the middleware attached, unchanged |
| `Accounts.SignupThenLogin` | api/routes/user.js:41-75 | after a successful signup, logging in with the same email and password yields a token for that email and the new id, if a password fits its own digest |
| `Accounts.SignupTwiceConflicts` | api/routes/user.js:36-39 | repeating a successful signup gives 409 and keeps the store |

## Left out

- The Express application, CORS, JSON body parsing, the Mongoose connection and `listen` (`server.js`): configuration and I/O with no logic.
- bcrypt's salting and cost factor, and the token's signature, key and 24-hour expiry: foreign library code, kept uninterpreted in `Crypto`. The model cannot state that a digest differs from its plaintext. It states only that the stored field is the hasher's output and that accounts have no plaintext field.
- The authentication middleware and the `User` schema are not part of this model. `Profile` therefore only echoes its input. Token verification is not modelled.
- The race between the lookup and the save of two concurrent signups for one email, and the scheduling of promises and callbacks: concurrency, not sequential logic. The map keyed by email rules out the duplicate accounts that the race can create.
- Accounts.Login: a request without an `email` is treated as matching no account. What the database driver does with an undefined filter value is not modelled.
- The contents of the 500 answers (`{ error: err }`) are reduced to one opaque body.
- Body fields are modelled as well-formed Unicode text. `JSON.parse` can produce a JavaScript string with an unpaired surrogate (`"\ud800abcde"`), which the regex's classes and `.length` treat as one code unit. A Dafny `string` cannot hold such a code unit, so these requests are outside the model.
- Body fields that are not strings (numbers, objects, arrays) and JavaScript's coercion of them are not modelled. Fields are `Option<string>`.
- A `jwt.sign` that throws (a missing key) is not modelled; `sign` always returns a token.
