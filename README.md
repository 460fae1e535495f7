# Nexora signup — a verified model

This project models the signup handler of Nexora's authentication controller
(`Backend/src/controllers/auth.controller.js`). The handler checks the request
fields in a fixed order and rejects a duplicate email. Otherwise it stores one
new user, with a random avatar, and answers 201 with a seven-day `jwt` session
cookie. The model states and proves:

- the validation order and its messages;
- the e-mail regular expression `^[^\s@]+@[^\s@]+\.[^\s@]+$`, given once as
  the expression reads and once as a split-at-`@` check, with a proof that the
  two accept the same strings;
- that a rejected signup leaves the user collection alone and sets no cookie;
- that an accepted signup appends exactly one user and keeps emails unique;
- the avatar index range, the URL template and the cookie attributes.

Modules, one per concern:

- `JsText` (`js_text.dfy`): JavaScript's `\s` class, and `length` as UTF-16 code units.
- `Email` (`email.dfy`): the regular expression and the decision procedure.
- `Avatar` (`avatar.dfy`): `Math.floor(Math.random() * 100) + 1` and the avatar URL.
- `Session` (`session.dfy`): the opaque token and the `jwt` cookie options.
- `Users` (`users.dfy`): the `User` document and the collection class `UserStore`
  (`findOne`, `create`).
- `Http` (`http.dfy`): the response object class `HttpResponse` (`status`, `cookie`, `json`).
- `AuthController` (`auth_controller.dfy`): validation, the decision function
  `SignupSpec`, the handler method `Signup` proved against it, and lemmas.
- `Wrappers` (`wrappers.dfy`): `Option` and `Result`.

Inputs the handler cannot see are parameters:

- the deployment environment (`Env.nodeEnv`, i.e. `NODE_ENV`);
- the draw of `Math.random()`, a real `r` with 0 ≤ r < 1;
- which of `User.findOne`, `User.create` and `jwt.sign` throws (`Faults`).

A JavaScript string is a Dafny `string`. `password.length` is `Utf16Length`, so
a character outside the Basic Multilingual Plane counts as two. The regular
expression has no `u` flag, so it works on UTF-16 code units. Both halves of a
surrogate pair are in `[^\s@]`, so matching on whole characters gives the same
answer.

## Behaviour of the code as written

- The controller passes the password to `User.create` unchanged (line 31). The
  model stores it unchanged; any hashing a schema hook might do is not modelled.
- A `jwt.sign` failure (line 40) comes after `User.create` (line 29), so the
  reply is 500 and the new user stays stored (`SignFailureKeepsUser`).
- A duplicate insert that the store itself refused would throw inside the `try`
  and take the catch path of lines 54-57, answering 500 rather than 400.
- The TODO at line 38 is not implemented; nothing runs between `User.create`
  and `jwt.sign`.
- The success body is `{ success: true, user: newUser }` with `newUser` as
  `User.create` returned it (lines 49-52); how the schema serialises it is not
  modelled.

## Model

| member | source | states |
|---|---|---|
| JsText.IsJsWhitespace | Backend/src/controllers/auth.controller.js:15 | the characters `\s` matches: the ECMAScript WhiteSpace and LineTerminator code points |
| JsText.Utf16Length | Backend/src/controllers/auth.controller.js:11 | JavaScript's `length` lies between the character count and twice it, and is 0 only for the empty string |
| JsText.Utf16LengthOfBmp | Backend/src/controllers/auth.controller.js:11 | for text inside the Basic Multilingual Plane, the length the password check compares with 6 is the number of characters |
| Email.MatchesEmailRegex | Backend/src/controllers/auth.controller.js:15 | the regular expression read literally: the whole string is a run of `[^\s@]`, `@`, a run, a literal `.`, a run |
| Email.IsValidEmail | Backend/src/controllers/auth.controller.js:15-17 | the decision procedure: split at the first `@`, non-empty local part in `[^\s@]`, domain in `[^\s@]` with an inner `.` |
| Email.IndexOf | Backend/src/controllers/auth.controller.js:15 | the index found holds the searched character and none comes before it; no index found means the character is absent |
| Email.IsValidEmailIff | Backend/src/controllers/auth.controller.js:15-17 | the split-at-`@` check (non-empty local part without whitespace or `@`, domain without whitespace or `@` containing a `.` with a character on each side) accepts exactly the strings `^[^\s@]+@[^\s@]+\.[^\s@]+$` matches |
| Email.IsValidEmailMatches | Backend/src/controllers/auth.controller.js:15-17 | every string the split-at-`@` check accepts matches the regular expression |
| Email.MatchesIsValidEmail | Backend/src/controllers/auth.controller.js:15-17 | every string the regular expression matches passes the split-at-`@` check |
| Email.RegexAtIsFirstAt | Backend/src/controllers/auth.controller.js:15 | the `@` of a match is the first `@` of the string |
| Email.NoAtRejected | Backend/src/controllers/auth.controller.js:15-19 | a string without `@` is an invalid email |
| Email.NoInnerDotRejected | Backend/src/controllers/auth.controller.js:15-19 | a domain without a `.` that has a character on each side makes the email invalid |
| Email.BlankRejected | Backend/src/controllers/auth.controller.js:15-19 | any `\s` character anywhere makes the email invalid |
| Email.TwoAtsRejected | Backend/src/controllers/auth.controller.js:15-19 | a second `@` makes the email invalid |
| Email.AllInClassConcat | Backend/src/controllers/auth.controller.js:15 | two runs of `[^\s@]` joined are again a run of `[^\s@]` |
| Email.DomainOfMatch | Backend/src/controllers/auth.controller.js:15 | the text after the `@` of a match is free of whitespace and `@` and has an inner `.` |
| Email.Compose | Backend/src/controllers/auth.controller.js:15 | a local part, a host and a suffix, each a non-empty run of `[^\s@]`, joined as local@host.suffix match |
| Email.SimpleEmailAccepted | Backend/src/controllers/auth.controller.js:15 | "a@b.com" matches |
| Email.ExampleEmailsRejected | Backend/src/controllers/auth.controller.js:15-19 | "ab.com", "a@bcom", "a@.com", "a@b@c.com" and "a b@c.com" do not match |
| Avatar.AvatarIndex | Backend/src/controllers/auth.controller.js:26 | for a draw in [0, 1) the avatar index lies in 1..100 |
| Avatar.AvatarIndexUniform | Backend/src/controllers/auth.controller.js:26 | index k is chosen exactly for draws in [(k-1)/100, k/100), one hundredth of the interval each |
| Avatar.Decimal | Backend/src/controllers/auth.controller.js:27 | the number written into the URL is a non-empty string of decimal digits without a leading zero |
| Avatar.DecimalRoundTrip | Backend/src/controllers/auth.controller.js:27 | reading back the written digits gives the number |
| Avatar.AvatarUrl | Backend/src/controllers/auth.controller.js:27 | the template `https://avatar.iran.liara.run/public/${idx}.png` with the index written in decimal |
| Avatar.AvatarUrlRoundTrip | Backend/src/controllers/auth.controller.js:27 | the URL is `https://avatar.iran.liara.run/public/` + the index + `.png`, and parsing it back gives the index |
| Avatar.AvatarUrlInjective | Backend/src/controllers/auth.controller.js:27 | two indices give the same URL only when they are equal |
| Session.SessionCookie | Backend/src/controllers/auth.controller.js:42-47 | the cookie named `jwt` whose value is the token and whose options are SessionCookieOptions |
| Session.SessionCookieOptions | Backend/src/controllers/auth.controller.js:40-47 | the cookie is httpOnly, sameSite "Strict", lives 604800000 ms (the token's 7 days), and is secure exactly when NODE_ENV is "production" |
| Users.FindByEmail | Backend/src/controllers/auth.controller.js:21-22 | a user found has the given email and is stored; none found means no stored user has it |
| Users.AppendKeepsWellFormed | Backend/src/controllers/auth.controller.js:21-34 | inserting a user whose email is not taken, under the next identifier, keeps emails unique and identifiers distinct |
| Users.UserStore.FindOne | Backend/src/controllers/auth.controller.js:21 | `User.findOne({ email })` returns a stored user with that email, or none when none exists |
| Users.UserStore.Create | Backend/src/controllers/auth.controller.js:29-34 | `User.create` appends exactly one document with the given email, password, name and picture under a fresh identifier, and keeps the collection's invariant when the email was not yet stored |
| Http.HttpResponse.Status | Backend/src/controllers/auth.controller.js:49 | sets the status code and nothing else |
| Http.HttpResponse.SetCookie | Backend/src/controllers/auth.controller.js:42-47 | appends one cookie and changes nothing else |
| Http.HttpResponse.Json | Backend/src/controllers/auth.controller.js:49-52 | sets the body and changes nothing else |
| AuthController.ValidateSignup | Backend/src/controllers/auth.controller.js:7-19 | "All fields are required" exactly when a field is missing or empty; else "Password must be at least 6 characters" exactly when it is shorter than 6; else "Invalid email format" exactly when the regular expression fails; otherwise the three fields pass unchanged |
| AuthController.NewUser | Backend/src/controllers/auth.controller.js:29-34 | the document signup creates: the next identifier, the validated email, password and full name, and the avatar URL for the draw |
| AuthController.SignupSpec | Backend/src/controllers/auth.controller.js:3-58 | status is 201, 400 or 500; a cookie and a user body come exactly with 201; 400 leaves the collection unchanged and carries one of the four messages; 500 says "Internal Server Error"; at most one user is appended; 201 appends exactly NewUser of the validated fields, the next id and the avatar URL of the draw, answers with it and sets the `jwt` cookie for its id |
| AuthController.Signup | Backend/src/controllers/auth.controller.js:3-58 | the handler leaves the collection, the status, the body and the cookies as SignupSpec says, and keeps the collection's invariant |
| AuthController.ValidationPrecedesStore | Backend/src/controllers/auth.controller.js:7-19 | a request that fails validation gets that 400 whatever is stored and whatever would throw |
| AuthController.DuplicateEmailRejected | Backend/src/controllers/auth.controller.js:21-24 | a valid request whose email is stored gets 400 "Email already in use, Please use a different one" and the collection is unchanged |
| AuthController.FreshEmailAccepted | Backend/src/controllers/auth.controller.js:26-34 | a valid request for a new email succeeds with 201 and appends exactly the new user |
| AuthController.SignupKeepsWellFormed | Backend/src/controllers/auth.controller.js:21-34 | every signup keeps emails unique and identifiers fresh |
| AuthController.SecondSignupRejected | Backend/src/controllers/auth.controller.js:21-24 | after a successful signup, a second valid signup with the same email is refused with 400 and changes nothing |
| AuthController.FaultBeforeInsertFails | Backend/src/controllers/auth.controller.js:21-57 | if `findOne` throws, or `create` throws for a fresh email, the reply is 500 "Internal Server Error" with no cookie and the collection unchanged |
| AuthController.SignFailureKeepsUser | Backend/src/controllers/auth.controller.js:29-57 | if signing the token throws, the reply is 500 and the new user stays stored |
| AuthController.FirstSignupExample | Backend/src/controllers/auth.controller.js:3-52 | signup of "a@b.com", "secret1", "Ann Lee" into an empty collection answers 201 with that user as the only one stored, its avatar URL of the template |

## Left out

- `login` and `logout` (auth.controller.js:60-66) only send a fixed text; they hold no logic.
- Signing of the JSON Web Token is a library call. The token is an opaque value holding the user id and `expiresIn: "7d"`. The signing secret is not modelled.
- The internals of `User.findOne` and `User.create` (Mongoose, and the `User` schema that is not part of this model) are left out. So are any defaults or normalisation the schema applies, such as lower-casing an email or defaults for onboarding fields.
- `Math.random()` is a parameter `r` in [0, 1), and the product `r * 100` is taken over exact reals. Near 1 a double-precision product still floors to at most 99, so the index range is the same.
- Exceptions are boolean faults at the three calls that can throw. `console.error` (line 55) is output only and is left out, as are failures inside the Express response object.
- Request fields that are JSON values other than strings (numbers, arrays, objects) are not modelled. The model covers a string, an absent field and `null`.
- Lone UTF-16 surrogates in request strings cannot be written as a Dafny `string` and are not modelled.
- The destructuring of `req.body` (line 4) sits outside the `try`; an undefined body would throw without a reply. The model assumes the body is an object.
- Concurrent signups racing on the same email are not modelled; each call runs against one state of the collection.
- The theme store (frontend/src/store/useThemeStore.js) is outside the signup core and is thin persistence glue.
