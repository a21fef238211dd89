/** The request handlers of the authentication controller.

    Each handler is a method of Controller, which holds the `Users` table.
    What the handler learns from outside is a parameter: Firebase's answers
    (`getUserByEmail`, `createUser`, `verifyIdToken`), whether the
    verification email went out, what the JWT library made of a presented
    token, the `id` the database assigns to a new row, and the current time.
    Each handler returns the response it sends; the two that talk to
    Firebase also return the Firebase calls they made, in order. */
module AuthController {

  import opened AuthTypes
  import opened UserTable
  import PasswordPolicy

  /** The response the sign-up handler's catch block sends for a
      `createUser` error code. */
  function CreateErrorReply(code: CreateError): (r: Response)
    ensures r.status == 400 <==> code != OtherCreateError
    ensures r.status == 500 <==> code == OtherCreateError
    ensures r.cookies == [] && r.body.Error?
  {
    match code
    case EmailAlreadyExists => Reply(400, EmailInUse)
    case InvalidPhoneNumberCode => Reply(400, InvalidPhoneNumber)
    case PhoneNumberAlreadyExists => Reply(400, PhoneNumberExists)
    case WeakPasswordCode => Reply(400, WeakPassword)
    case OtherCreateError => Reply(500, InternalServerError)
  }

  predicate PasswordAccepted(req: SignupRequest)
  {
    PasswordPolicy.ValidPassword(PasswordPolicy.RegexInput(req.password))
  }

  /** The row sign-up stores: the Firebase uid, the request's own fields,
      `email_verified` false until the address is confirmed. */
  function SignupDraft(req: SignupRequest, uid: string, id: string, now: int): Draft
  {
    Draft(id, uid, Some(req.email), req.fullName, req.phoneNumber, None, now, None, false)
  }

  /** The row login stores for a first-time user, from the ID token's claims;
      `signup_date` and `last_login` each read the clock. */
  function LoginDraft(c: IdClaims, id: string, signupNow: int, loginNow: int): Draft
  {
    Draft(id, c.uid, c.email, OrNull(c.name), None, OrNull(c.picture), signupNow, Some(loginNow), c.emailVerified)
  }

  class Controller {

    /** The `Users` table, keyed by `firebase_uid`. */
    var users: Table

    ghost predicate Valid()
      reads this
    {
      UserTable.Valid(users)
    }

    constructor (initial: Table)
      requires UserTable.Valid(initial)
      ensures Valid() && users == initial
    {
      users := initial;
    }

    /** POST /signup. */
    method Signup(req: SignupRequest, lookup: EmailLookup, create: CreateAnswer,
                  mailSent: bool, newId: string, now: int)
      returns (res: Response, calls: seq<FirebaseCall>)
      requires Valid()
      modifies this
      ensures Valid()
      // a rejected password stops everything
      ensures !PasswordAccepted(req) ==>
                res == Reply(400, PasswordRule) && calls == [] && users == old(users)
      // the Firebase calls are a prefix of lookup, create, send
      ensures PasswordAccepted(req) ==>
                && 1 <= |calls| <= 3
                && calls <= [GetUserByEmail(req.email), CreateUser(req.email), SendVerificationEmail(req.email)]
      ensures PasswordAccepted(req) && lookup == AccountExists ==>
                res == Reply(400, EmailRegistered) && |calls| == 1 && users == old(users)
      ensures PasswordAccepted(req) && lookup == LookupFailed ==>
                res == Reply(500, InternalServerError) && |calls| == 1 && users == old(users)
      ensures PasswordAccepted(req) && lookup == NoAccount && create.CreateRejected? ==>
                res == CreateErrorReply(create.code) && |calls| == 2 && users == old(users)
      ensures PasswordAccepted(req) && lookup == NoAccount && create.Created? ==> |calls| == 3
      ensures PasswordAccepted(req) && lookup == NoAccount && create.Created? && !mailSent ==>
                res == Reply(500, VerificationEmailFailed) && users == old(users)
      ensures PasswordAccepted(req) && lookup == NoAccount && create.Created? && mailSent
              && !Insertable(old(users), SignupDraft(req, create.account.uid, newId, now)) ==>
                res == Reply(500, InternalServerError) && users == old(users)
      // success: exactly one new, unverified row for the new Firebase account
      ensures res.status == 201 <==>
                && PasswordAccepted(req) && lookup == NoAccount && create.Created? && mailSent
                && Insertable(old(users), SignupDraft(req, create.account.uid, newId, now))
      ensures res.status == 201 ==>
                && res == Response(201, Registered(create.account), [])
                && create.account.uid !in old(users)
                && users.Keys == old(users).Keys + {create.account.uid}
                && users[create.account.uid].email == req.email
                && users[create.account.uid].fullName == req.fullName
                && users[create.account.uid].phoneNumber == req.phoneNumber
                && users[create.account.uid].id == newId
                && users[create.account.uid].signupDate == now
                && users[create.account.uid].profilePic.None?
                && users[create.account.uid].lastLogin.None?
                && !users[create.account.uid].emailVerified
      ensures res.status != 201 ==> users == old(users)
      // rows already present are never touched
      ensures forall u :: u in old(users) ==> u in users && users[u] == old(users)[u]
    {
      calls := [];
      if !PasswordPolicy.ValidPassword(PasswordPolicy.RegexInput(req.password)) {
        res := Reply(400, PasswordRule);
        return;
      }

      calls := calls + [GetUserByEmail(req.email)];
      match lookup {
        case AccountExists =>
          res := Reply(400, EmailRegistered);
          return;
        case LookupFailed =>
          res := Reply(500, InternalServerError);
          return;
        case NoAccount =>
      }

      calls := calls + [CreateUser(req.email)];
      if create.CreateRejected? {
        res := CreateErrorReply(create.code);
        return;
      }
      var account := create.account;

      calls := calls + [SendVerificationEmail(req.email)];
      if !mailSent {
        res := Reply(500, VerificationEmailFailed);
        return;
      }

      var outcome := UserTable.Create(users, SignupDraft(req, account.uid, newId, now));
      if outcome.ConstraintViolation? {
        res := Reply(500, InternalServerError);
        return;
      }
      users := outcome.table;
      res := Response(201, Registered(account), []);
    }

    /** POST /login. */
    method Login(firebaseToken: Option<string>, answer: IdTokenAnswer, newId: string,
                 signupNow: int, loginNow: int)
      returns (res: Response, calls: seq<FirebaseCall>)
      requires Valid()
      modifies this
      ensures Valid()
      ensures !Present(firebaseToken) ==>
                res == Reply(400, FirebaseTokenRequired) && calls == [] && users == old(users)
      ensures Present(firebaseToken) ==> calls == [VerifyIdToken(firebaseToken.value)]
      ensures Present(firebaseToken) && answer.IdRejected? ==>
                res == Reply(401, InvalidFirebaseToken) && users == old(users)
      // a known uid: the table is left as it is
      ensures answer.IdVerified? && answer.claims.uid in old(users) ==> users == old(users)
      // an unknown uid whose row the database refuses: 401, nothing stored
      ensures Present(firebaseToken) && answer.IdVerified? && answer.claims.uid !in old(users)
              && !Insertable(old(users), LoginDraft(answer.claims, newId, signupNow, loginNow)) ==>
                res == Reply(401, InvalidFirebaseToken) && users == old(users)
      ensures res.status == 200 <==>
                && Present(firebaseToken) && answer.IdVerified?
                && (answer.claims.uid in old(users) || Insertable(old(users), LoginDraft(answer.claims, newId, signupNow, loginNow)))
      ensures res.status != 200 ==> res.cookies == [] && users == old(users)
      // success: tokens carry the ID token's uid and email, the body shows the stored row
      ensures res.status == 200 ==>
                && answer.claims.uid in users
                && users[answer.claims.uid].firebaseUid == answer.claims.uid
                && res.body == LoggedIn(Token(Access, answer.claims.uid, answer.claims.email),
                                        View(users[answer.claims.uid]))
                && res.cookies == [SetCookie(AuthCookie, Token(Access, answer.claims.uid, answer.claims.email)),
                                   SetCookie(RefreshCookie, Token(Refresh, answer.claims.uid, answer.claims.email))]
      // a row is added only for a first login, and it is built from the claims
      ensures users != old(users) ==>
                && res.status == 200
                && answer.claims.uid !in old(users)
                && users.Keys == old(users).Keys + {answer.claims.uid}
                && Some(users[answer.claims.uid].email) == answer.claims.email
                && users[answer.claims.uid].id == newId
                && users[answer.claims.uid].fullName == OrNull(answer.claims.name)
                && users[answer.claims.uid].profilePic == OrNull(answer.claims.picture)
                && users[answer.claims.uid].phoneNumber.None?
                && users[answer.claims.uid].emailVerified == answer.claims.emailVerified
                && users[answer.claims.uid].signupDate == signupNow
                && users[answer.claims.uid].lastLogin == Some(loginNow)
      ensures forall u :: u in old(users) ==> u in users && users[u] == old(users)[u]
    {
      calls := [];
      if !Present(firebaseToken) {
        res := Reply(400, FirebaseTokenRequired);
        return;
      }

      calls := [VerifyIdToken(firebaseToken.value)];
      if answer.IdRejected? {
        res := Reply(401, InvalidFirebaseToken);
        return;
      }
      var claims := answer.claims;

      var found := UserTable.Find(users, claims.uid);
      var row: User;
      if found.Some? {
        row := found.value;
      } else {
        var outcome := UserTable.Create(users, LoginDraft(claims, newId, signupNow, loginNow));
        if outcome.ConstraintViolation? {
          res := Reply(401, InvalidFirebaseToken);
          return;
        }
        users := outcome.table;
        row := outcome.row;
      }

      var access := Token(Access, claims.uid, claims.email);
      var refresh := Token(Refresh, claims.uid, claims.email);
      res := Response(200, LoggedIn(access, View(row)),
                      [SetCookie(AuthCookie, access), SetCookie(RefreshCookie, refresh)]);
    }

    /** GET /me: the access-token cookie and what `verifyJWT` made of it. */
    method GetMe(cookie: Option<string>, verdict: VerifyResult) returns (res: Response)
      requires Valid()
      ensures !Present(cookie) ==> res == Reply(401, NotAuthenticated)
      ensures Present(cookie) && verdict == Expired ==> res == Reply(403, TokenExpired)
      ensures Present(cookie) && verdict == Invalid ==> res == Reply(401, InvalidToken)
      ensures Present(cookie) && verdict.Decoded? && verdict.uid !in users ==>
                res == Reply(404, UserNotFound)
      ensures res.status == 200 <==> Present(cookie) && verdict.Decoded? && verdict.uid in users
      ensures res.status == 200 ==>
                && res.body.Me?
                && res.body.user.firebaseUid == verdict.uid
                && res.body.user == View(users[verdict.uid])
      ensures res.cookies == []
    {
      if !Present(cookie) {
        return Reply(401, NotAuthenticated);
      }
      match verdict {
        case Expired => return Reply(403, TokenExpired);
        case Invalid => return Reply(401, InvalidToken);
        case Decoded(uid, _) =>
          var found := UserTable.Find(users, uid);
          if found.None? {
            return Reply(404, UserNotFound);
          }
          var row := found.value;
          return Response(200, Me(View(row)), []);
      }
    }

    /** Token refresh: the refresh-token cookie and what `verifyRefreshToken`
        made of it. */
    method RefreshToken(cookie: Option<string>, verdict: VerifyResult) returns (res: Response)
      ensures !Present(cookie) ==> res == Reply(401, RefreshTokenMissing)
      ensures Present(cookie) && verdict == Expired ==> res == Reply(403, RefreshTokenExpired)
      ensures Present(cookie) && verdict == Invalid ==> res == Reply(401, InvalidRefreshToken)
      ensures res.status == 200 <==> Present(cookie) && verdict.Decoded?
      // a new access token for the same uid and email; the refresh token is not reissued
      ensures res.status == 200 ==>
                && res.body == Refreshed
                && res.cookies == [SetCookie(AuthCookie, Token(Access, verdict.uid, verdict.email))]
      ensures forall w :: w in res.cookies ==> w.SetCookie? && w.name == AuthCookie && w.token.kind == Access
    {
      if !Present(cookie) {
        return Reply(401, RefreshTokenMissing);
      }
      match verdict {
        case Expired => return Reply(403, RefreshTokenExpired);
        case Invalid => return Reply(401, InvalidRefreshToken);
        case Decoded(uid, email) =>
          var access := Token(Access, uid, email);
          return Response(200, Refreshed, [SetCookie(AuthCookie, access)]);
      }
    }

    /** POST /verify: the `token` body field and what `verifyJWT` made of it. */
    method VerifyToken(token: Option<string>, verdict: VerifyResult) returns (res: Response)
      requires Valid()
      ensures !Present(token) ==> res == Reply(400, TokenRequired)
      ensures Present(token) && verdict == Expired ==> res == Reply(403, TokenExpired)
      ensures Present(token) && verdict == Invalid ==> res == Reply(401, InvalidToken)
      ensures Present(token) && verdict.Decoded? && verdict.uid !in users ==>
                res == Reply(404, UserNotFound)
      ensures res.status == 200 <==> Present(token) && verdict.Decoded? && verdict.uid in users
      // the database id of the row whose firebase_uid is the token's uid
      ensures res.status == 200 ==>
                && res.body.TokenValid?
                && res.body.firebaseUid == verdict.uid
                && res.body.userId == users[verdict.uid].id
                && res.body.email == users[verdict.uid].email
      ensures res.cookies == []
    {
      if !Present(token) {
        return Reply(400, TokenRequired);
      }
      match verdict {
        case Expired => return Reply(403, TokenExpired);
        case Invalid => return Reply(401, InvalidToken);
        case Decoded(uid, _) =>
          var found := UserTable.Find(users, uid);
          if found.None? {
            return Reply(404, UserNotFound);
          }
          var row := found.value;
          return Response(200, TokenValid(row.id, row.firebaseUid, row.email), []);
      }
    }

    /** POST /logout: clears both cookies; nothing is revoked server-side. */
    method Logout() returns (res: Response)
      ensures res.status == 200 && res.body == LoggedOut
      ensures ClearCookie(AuthCookie) in res.cookies && ClearCookie(RefreshCookie) in res.cookies
      ensures forall w :: w in res.cookies ==> w.ClearCookie?
    {
      res := Response(200, LoggedOut, [ClearCookie(AuthCookie), ClearCookie(RefreshCookie)]);
    }
  }

  /** Sign-up followed by a first login. Login never updates a row it finds,
      so the row sign-up stored keeps `email_verified` false even when the ID
      token says the address has been verified. */
  method VerifiedLoginAfterSignup(c: Controller, req: SignupRequest, account: Account,
                                  rowId: string, idToken: string, claims: IdClaims,
                                  loginRowId: string, signupTime: int, loginTime: int)
    returns (signedUp: Response, loggedIn: Response)
    requires c.Valid()
    requires idToken != "" && claims.uid == account.uid
    modifies c
    ensures c.Valid()
    ensures signedUp.status == 201 ==>
              && loggedIn.status == 200 && loggedIn.body.LoggedIn?
              && loggedIn.body.user.firebaseUid == account.uid
              && loggedIn.body.user.email == req.email
              && !loggedIn.body.user.emailVerified
              && loggedIn.body.accessToken == Token(Access, account.uid, claims.email)
  {
    var signupCalls, loginCalls;
    signedUp, signupCalls := c.Signup(req, NoAccount, Created(account), true, rowId, signupTime);
    loggedIn, loginCalls := c.Login(Some(idToken), IdVerified(claims), loginRowId, loginTime, loginTime);
  }
}
