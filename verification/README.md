# Authentication controller of auth-services, modelled in Dafny

auth-services is an Express gateway for ThinkMirAI applications. People sign up through Firebase and then log in with a Firebase ID token. The gateway keeps a `Users` table in PostgreSQL and issues its own JWTs: an access token and a refresh token, both set as cookies. Other applications present the access token to `/verify` to get the user's local id back.

This project models `controllers/authController.js`:

- **Password policy** (`password_policy.dfy`, module `PasswordPolicy`). `validatePassword` is a single anchored regular expression. `ValidPassword` follows it construct by construct:
  - `DotStarThen` is one lookahead `(?=.*[k])`. It keeps JavaScript's rule that `.` does not match a line terminator.
  - `RepeatToEnd` is `[A-Za-z\d@$!%*?&]{8,}$`.

  `MeetsPolicy` states the same policy by character-class membership. `ValidPasswordIffPolicy` proves that the two definitions accept exactly the same strings. When the request has no password, `regex.test(undefined)` tests the string "undefined", and `RegexInput` models this.
- **Shared values** (`auth_types.dfy`, module `AuthTypes`). This module holds tokens, cookies, request bodies, the answers of Firebase and of the JWT library, and responses. Each response has a status, a body and the cookies it writes. An error body carries the handler's exact `error` text.
- **The `Users` table** (`user_table.dfy`, module `UserTable`). The table is a map keyed by `firebase_uid`. `Valid` states the database constraints:
  - `id`, `firebase_uid`, `email` and `phone_number` are unique, and `email` is not null (`models/user.js`);
  - `firebase_uid`, `email`, `full_name`, `phone_number` and `profile_pic` hold at most 255 characters. The migration `migrations/20250303104914-create-user.js` creates them as `Sequelize.STRING`, which is VARCHAR(255). For `profile_pic` the model follows that migration, not the TEXT type that `models/user.js` declares.

  `Create` is `User.create`. It fails exactly where one of these constraints would refuse the row. `Find` is `User.findOne` by `firebase_uid`.
- **The handlers** (`auth_controller.dfy`, module `AuthController`). Class `Controller` holds the table. It has one method per handler: `Signup`, `Login`, `GetMe`, `RefreshToken`, `VerifyToken` and `Logout`. Each method returns the response it sends. `Signup` and `Login` also return the Firebase calls they made, in order.

  Everything a handler learns from outside is a method parameter, so every possible answer is covered:
  - Firebase's `getUserByEmail`, `createUser` and `verifyIdToken`;
  - whether the verification email was sent;
  - the verdict of `verifyJWT` or `verifyRefreshToken` (`Decoded`, `Expired` or `Invalid`);
  - the `id` the database gives a new row;
  - the clock. Login reads it separately for `signup_date` and `last_login`, as the two `new Date()` calls do.

The repository declares more than the controller uses. The model follows what the controller does:
- `DeviceSessions.is_active` is declared (`migrations/20250306112106-update-auth-tables.js:59-62`), but no handler creates or deactivates a session.
- Logout only clears the two cookies. It revokes nothing on the server.
- `FailedLogins.attempt_count` and `Users.locked_until` are declared (`migrations/20250306112106-update-auth-tables.js:5-8` and `22-26`), but nothing counts failed logins or locks an account.
- Sign-up stores `email_verified` as false, "until verified" as the comment at controllers/authController.js:106 says. Yet login inserts a row only for an unknown `firebase_uid` and never updates a row it finds, including `email_verified` and `last_login`. `VerifiedLoginAfterSignup` shows the result: after signup, a login whose token says the email is verified still reports `email_verified` as false.
- The error text at controllers/authController.js:61 does not mention the lowercase letter that the regex requires (`LowercaseRequired`).
- `refreshToken` is not routed in routes/authRoutes.js:20-25. It is modelled as a handler all the same.

## Model

| member | source | states |
|---|---|---|
| PasswordPolicy.ValidPasswordIffPolicy | controllers/authController.js:19-22 | the regex accepts a password exactly when it has at least 8 characters, every character is an ASCII letter, a digit or one of `@$!%*?&`, and it has at least one lowercase letter, one uppercase letter, one digit and one special character |
| PasswordPolicy.DotStarThenFinds | controllers/authController.js:21 | a lookahead `(?=.*[k])` succeeds exactly when some character of class k occurs before any line terminator |
| PasswordPolicy.RepeatToEndIff | controllers/authController.js:21 | `[A-Za-z\d@$!%*?&]{n,}$` matches exactly the strings of n or more alphabet characters |
| PasswordPolicy.LookaheadOnAlphabet | controllers/authController.js:21 | on a string of alphabet characters, each lookahead is plain membership of its class |
| PasswordPolicy.ValidPasswordMinLength | controllers/authController.js:21 | an accepted password has at least 8 characters |
| PasswordPolicy.ForeignCharacterRejected | controllers/authController.js:21 | one character outside letters, digits and `@$!%*?&` makes the password invalid |
| PasswordPolicy.LowercaseRequired | controllers/authController.js:21 | a password with no lowercase letter is rejected, although the error text at line 61 does not list that requirement |
| PasswordPolicy.MissingPasswordRejected | controllers/authController.js:54-58 | a sign-up request without a password fails validation, because "undefined" has no uppercase letter |
| UserTable.Create | models/user.js:12-36 | an insert succeeds exactly when email is set, every string column fits VARCHAR(255), and no row shares its firebase_uid, id, email or non-null phone number; the result keeps the constraints, adds exactly that row and leaves every other row as it was |
| UserTable.Find | controllers/authController.js:153 | lookup by firebase_uid returns the one row whose firebase_uid is that uid, and none when no row has it |
| AuthController.CreateErrorReply | controllers/authController.js:119-137 | the four Firebase error codes the handler recognises give 400; any other error gives 500 |
| AuthController.Controller.Signup | controllers/authController.js:53-138 | a rejected password gives 400 with no Firebase call and no write; an existing email gives 400 and a lookup error 500; a createUser error gives its mapped status; a failed verification email gives 500 with the table unchanged; otherwise one new row with email_verified false is added and 201 sent, or 500 if the database refuses it; existing rows are never modified |
| AuthController.Controller.Login | controllers/authController.js:141-202 | a missing token gives 400 with no Firebase call; any verification or insert failure gives 401 with the table unchanged; a row is inserted only for an unknown uid and existing rows are never modified; on success the access and refresh tokens carry the ID token's uid and email and the body shows the stored row |
| AuthController.Controller.GetMe | controllers/authController.js:204-240 | missing cookie 401; expired token 403 TOKEN_EXPIRED; invalid token 401; unknown uid 404; otherwise 200 with the view of the row whose firebase_uid is the token's uid |
| AuthController.Controller.RefreshToken | controllers/authController.js:242-276 | missing cookie 401; expired 403 REFRESH_TOKEN_EXPIRED; invalid 401; otherwise 200 and one new access-token cookie with the refresh token's uid and email; the refresh token is never reissued and the table is not written |
| AuthController.Controller.VerifyToken | controllers/authController.js:281-318 | missing token 400; expired 403 TOKEN_EXPIRED; invalid 401; unknown uid 404; otherwise 200 with the row's database id, firebase_uid and email |
| AuthController.Controller.Logout | controllers/authController.js:322-344 | always 200; both cookies are cleared, no token is issued and the table is not written |
| AuthController.VerifiedLoginAfterSignup | controllers/authController.js:101-165 | after a successful signup, a login for the same uid succeeds and reports the stored email_verified false even when the ID token says the email is verified |

## Left out

- Firebase (`config/firebase.js`, `services/firebaseService.js`), the verification mailer (`services/emailService.js`) and `jsonwebtoken` (`services/jwtService.js`) are foreign I/O. Their answers are method parameters. Signature checking, token expiry against the wall clock, and the separation of the two signing secrets belong to those libraries and are not modelled.
- Cookie options (`httpOnly`, `secure`, `sameSite`, `maxAge` computed from environment strings) are not modelled. A cookie write records only its name and the token, or that it clears the cookie.
- `testFirebase`, `testEmail` and `sendEmailVerificationLink` are not modelled. They are test endpoints that only forward I/O.
- Database outages are not modelled. The table is always reachable, and `User.create` fails only on the constraints in `UserTable.Valid`. In the source, a store failure is answered differently per handler:
  - in `signup`, 500 through the `else` at controllers/authController.js:133-135;
  - in `login`, 401 "Invalid Firebase token" (198-201);
  - in `getMe` and `verifyToken`, 401 "Invalid token", because `User.findOne` sits inside the inner `try` (212-235 and 290-313).
- The outer `catch` blocks that send 500 in `getMe`, `refreshToken`, `verifyToken` and `logout` are not modelled. Only a fault while writing the response reaches them.
- Logging is not modelled.
- Request fields other than the password and the tokens are taken as given strings. A sign-up email that is missing or not a string reaches Firebase, whose answer is the `lookup` parameter.
- The `email_verified` claim of an ID token is modelled as a boolean, so an absent claim is read as false.
- Failed-login records, account lockout (`locked_until`), login history, redirect logs and device sessions exist only as tables and columns. No handler reads or writes them, so they are not modelled.
- `index.js` and `routes/authRoutes.js` are HTTP wiring and a rate limiter, and are not modelled.
- Concurrency between requests is not modelled. Each handler is modelled as one uninterrupted step over the table.
