# User authentication core, modelled in Dafny

This project models the authentication core of a small username/password
backend (Express, Mongoose, bcrypt, JSON Web Tokens):

- **the password-strength rule** that registration runs as a custom Joi
  validator (`CustomValidation`): a password shorter than 8 characters is
  refused with the length code before its composition is looked at; a longer
  one must hold an ASCII digit `0`-`9` and an ASCII letter `a`-`z`/`A`-`Z`,
  and is then returned unchanged;
- **the three service flows** (`AuthService`): `registerUser`, `loginUser` and
  `resetUserPass` over a user collection keyed by its unique `username`
  (class `UserStore`, whose `users` map is reassigned by every write and whose
  ghost `writes` log records every document persisted). bcrypt's
  `hashPassword` and `comparePassword` are the store's `hash` and `matches`
  function parameters; nothing is assumed about them. Every failure leaves the
  flow through the shared catch block, modelled by `Rewrap`: the message is
  prefixed with `Error: ` and the status is the thrown `statusCode`, or 500
  when it is missing or 0 (`err.statusCode || 500`);
- **the bearer-token middleware** (`AuthMiddleware`): the token is the piece
  at index 1 of `authorization.split(" ")`, the scheme word is never checked
  against `Bearer`, a missing or empty token is answered 401 "Unauthorized
  access", a token the verifier refuses is answered 403 with the verifier's
  message, and otherwise the decoded claims are stored on `req.user` and
  `next` is called once. `Jwt.verify` under the configured secret is the
  `verify` function parameter. The decision is the function `Gate`; the
  method `Auth` carries it out on `Request`, `Response` and `Next` objects.

`EndToEnd.Walkthrough` strings the pieces together: register, pass the gate
with the token issued for the new user, log in with the token's `sub`, reset,
and log in with the old and the new password.

Behaviour of the code that the model keeps as it is:

- login compares `String(user._id)` with the token's `sub` before it looks at
  the password, so a correct password with another user's token, or with no
  `sub` at all, is refused 403. Ids are distinct: the store invariant says no
  two users share one, and `RegisterUser` takes the new id as one the
  database has not handed out before, as Mongo's `_id` never repeats;
- the reset key is compared with `!==`: when `PASSWORD_RESET_KEY` is unset, a
  request without the `x-api-key` header passes, and a header that arrives as
  an array never passes;
- reset persists twice: `findOneAndUpdate` first stores the new password in
  plaintext, then the document is hashed and saved. Between the two writes the
  invariant "every stored password is a hash" (`UserStore.Valid`) does not
  hold; it holds again when the flow returns;
- the `!user` test after `new User.Model(...)` in `registerUser`
  (src/services/auth.service.ts:47-52) can never fire, since a constructor
  always yields an object; the model has no such branch.

Files: `results.dfy` (Option, Result), `http_status.dfy` (status codes),
`custom_validation.dfy`, `auth_service.dfy`, `auth_middleware.dfy`,
`end_to_end.dfy`.

## Model

| member | source | states |
|---|---|---|
| `CustomValidation.FirstMatch` | src/validations/custom.validation.ts:17 | `s.match` with a one-character class: the index returned is the leftmost character in the class; None exactly when no character of `s` is in it |
| `CustomValidation.Password` | src/validations/custom.validation.ts:10-24 | length < 8 gives the length code whatever the composition; otherwise no ASCII digit or no ASCII letter gives the composition code; accepted iff length ≥ 8, some digit and some letter, and then the value is returned unchanged |
| `CustomValidation.AccentedLettersDoNotCount` | src/validations/custom.validation.ts:17-21 | digits followed by any characters outside ASCII (accented letters among them), 8 or more characters in all, are refused with the composition code |
| `CustomValidation.Examples` | src/validations/custom.validation.ts:12-24 | `secret123` is accepted; `abc` and `!!` get the length code; `12345678` and `abcdefgh` get the composition code |
| `AuthService.Rewrap` | src/services/auth.service.ts:58-62 | the outward message is `Error: ` followed by the original message; the status is the original status when present and non-zero, else 500, and is never 0 |
| `AuthService.KeyAcceptedCases` | src/services/auth.service.ts:131-136 | an array header never passes the key check; an absent header passes exactly when the key is unset; a passing header with a key set is that single key |
| `AuthService.UserStore.constructor` | src/models/user.model.ts:39-43 | an empty collection keyed by username, with no writes, satisfies the invariant (every stored password a hash, ids distinct) |
| `AuthService.UserStore.OtherUsersTokenRefused` | src/services/auth.service.ts:97-99 | under the invariant two different users have different ids, so the subject of one user's token never equals another user's id |
| `AuthService.UserStore.FindUserByUsername` | src/services/auth.service.ts:171-173 | a document is found exactly when the username is a key, and it is that entry |
| `AuthService.UserStore.SaveDocument` | src/services/auth.service.ts:181-182 | the document is stored under its username, every other entry unchanged, and one write is logged |
| `AuthService.UserStore.FindOneAndUpdate` | src/services/auth.service.ts:138-142 | an unknown username changes nothing and yields None; a known one gets the given password, logs one write and returns the updated document |
| `AuthService.UserStore.RegisterUser` | src/services/auth.service.ts:30-64 | an existing username fails 400 "Error: User already exists, Please login!" with the store and log unchanged; a fresh one, with an id no stored user has, adds exactly one entry holding `hash(password)`, every other entry unchanged, one write; every stored password stays a hash and ids stay distinct |
| `AuthService.UserStore.LoginUser` | src/services/auth.service.ts:82-112 | unknown username fails 400 "User doesn't exist…"; a known one whose id differs from the token's subject (or with no subject) fails 403 "Unauthorized access" whatever the password; then a password `matches` refuses fails 400 "Incorrect password"; success iff all three pass, returning the stored document; nothing is modified |
| `AuthService.UserStore.ResetUserPass` | src/services/auth.service.ts:125-163 | a refused key fails 400 before the collection is touched; an unknown username fails 400 with store and log unchanged; otherwise only that user's password changes, to `hash(newPassword)`, after an intermediate plaintext write; every stored password is a hash again on return |
| `AuthMiddleware.Split` | src/middlewares/auth.ts:25-26 | `split(sep)` yields at least one piece, no piece holds the separator, and joining the pieces with the separator gives the input back |
| `AuthMiddleware.SplitField` | src/middlewares/auth.ts:25-26 | a separator-free field followed by a separator splits off as the first piece; a separator-free string splits into itself alone |
| `AuthMiddleware.SplitJoin` | src/middlewares/auth.ts:25-26 | joining separator-free pieces and splitting again returns the pieces |
| `AuthMiddleware.ExtractToken` | src/middlewares/auth.ts:25-26 | an absent header gives no token; a non-empty token holds no space and comes from a header that holds one |
| `AuthMiddleware.SecondFieldIsToken` | src/middlewares/auth.ts:25-26 | for any space-free first field, the space-free second field is the token, whatever follows after a further space |
| `AuthMiddleware.NoSpaceNoToken` | src/middlewares/auth.ts:25-33 | a non-empty header with no space yields no token |
| `AuthMiddleware.EmptySecondField` | src/middlewares/auth.ts:25-33 | `scheme + " "` and `scheme + "  x"` yield the empty token |
| `AuthMiddleware.TokenExamples` | src/middlewares/auth.ts:25-26 | "X abc" gives "abc", "a b c" gives "b", "Bearer" none, "Bearer " and "Bearer  x" the empty string, "" itself |
| `AuthMiddleware.Gate` | src/middlewares/auth.ts:23-45 | a missing header, or a token that is undefined or empty, is denied 401 "Unauthorized access", and only those are, and every 401 carries that message; for a non-empty token, a verifier error gives 403 with the verifier's message and a verifier success admits exactly the decoded claims, in both directions |
| `AuthMiddleware.SchemeNotInspected` | src/middlewares/auth.ts:25-43 | for any scheme word, `scheme + " " + token` is decided by the verifier alone: refusal gives 403 with its message, success admits its claims |
| `AuthMiddleware.Auth` | src/middlewares/auth.ts:23-45 | on denial the response gets the status and a body with message and status, `req.user` is untouched and `next` is not called; on admission `req.user` is the claims, `next` is called exactly once and the response is untouched |
| `EndToEnd.Walkthrough` | src/controllers/auth.controller.ts:14-75 | on an empty store, registering succeeds with the hashed password; the issued token passes the gate and login with its subject returns the same user; reset succeeds; login with the old password then fails 400 "Incorrect password" and with the new one succeeds |

## Left out

- bcrypt: `hash` and `matches` are parameters. The salt is not modelled (`hash` is a function of the plaintext alone), and that a plaintext matches its own hash is assumed nowhere except as the stated hypotheses of `EndToEnd.Walkthrough`.
- JWT signing and verification are the `verify` parameter; the token service that issues tokens is not part of this model. Claims keep only `sub`.
- The message Joi renders from the code handed to `helpers.error` is library behaviour; the model returns the code. The rule's `length` counts the elements of the string, which stand for UTF-16 code units.
- The Joi request schemas and the validation middleware are not modelled; `EndToEnd.Walkthrough` only takes the password rule's acceptance as its precondition. The reset route does not apply the rule to `newPassword`.
- Database and hashing failures (which reach the catch block without a `statusCode`) are not produced by the store model; `Rewrap` covers them for every thrown value.
- The unique-index rejection of `save` is reachable only when two registrations race between lookup and save; flows are modelled as sequential atomic calls, so it is left out.
- Timestamps (`createdAt`, `updatedAt`) and the ids Mongo generates: the new id is a parameter of `RegisterUser`.
- Express routing, controllers (beyond the walkthrough), configuration and start-up are I/O glue.
