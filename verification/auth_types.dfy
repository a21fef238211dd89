/** Values that flow through the authentication handlers: request fields,
    the answers of the collaborators the handlers call (Firebase, the
    verification mailer, the JWT library), and the responses they send. */
module AuthTypes {

  datatype Option<T> = None | Some(value: T)

  /** JavaScript truthiness of an optional string field: a missing field and
      the empty string both fail `if (!token)`. */
  predicate Present(v: Option<string>)
  {
    v.Some? && v.value != ""
  }

  /** `x || null`: a missing or empty value is stored as null. */
  function OrNull(v: Option<string>): Option<string>
  {
    if Present(v) then v else None
  }

  // ---------------------------------------------------------------------------
  // Tokens and cookies

  /** Access tokens are signed with JWT_SECRET, refresh tokens with
      JWT_REFRESH_SECRET. */
  datatype TokenKind = Access | Refresh

  /** A token the gateway signs: its kind and its `{ uid, email }` claims.
      An absent email is dropped from the payload. */
  datatype Token = Token(kind: TokenKind, uid: string, email: Option<string>)

  /** JWT_COOKIE_NAME and JWT_REFRESH_COOKIE_NAME. */
  datatype CookieName = AuthCookie | RefreshCookie

  datatype CookieWrite =
    | SetCookie(name: CookieName, token: Token)
    | ClearCookie(name: CookieName)

  /** What `verifyJWT` / `verifyRefreshToken` make of a presented token: its
      decoded claims, a `TokenExpiredError`, or any other failure (bad
      signature, wrong secret, malformed input). */
  datatype VerifyResult =
    | Decoded(uid: string, email: Option<string>)
    | Expired
    | Invalid

  // ---------------------------------------------------------------------------
  // Firebase and the mailer

  /** The Firebase operations a handler performs, in the order performed. */
  datatype FirebaseCall =
    | GetUserByEmail(email: string)
    | CreateUser(email: string)
    | SendVerificationEmail(email: string)
    | VerifyIdToken(token: string)

  /** `getUserByEmail`: a record, the `auth/user-not-found` error, or any
      other error. */
  datatype EmailLookup = AccountExists | NoAccount | LookupFailed

  /** The error codes the sign-up handler tells apart. */
  datatype CreateError =
    | EmailAlreadyExists
    | InvalidPhoneNumberCode
    | PhoneNumberAlreadyExists
    | WeakPasswordCode
    | OtherCreateError

  /** The Firebase user record `createUser` returns. */
  datatype Account = Account(uid: string, email: string, displayName: Option<string>, phoneNumber: Option<string>)

  datatype CreateAnswer = Created(account: Account) | CreateRejected(code: CreateError)

  /** The claims of a Firebase ID token that the login handler reads. */
  datatype IdClaims = IdClaims(
    uid: string,
    email: Option<string>,
    name: Option<string>,
    picture: Option<string>,
    emailVerified: bool)

  /** `verifyIdToken`: the decoded claims, or a thrown error. */
  datatype IdTokenAnswer = IdVerified(claims: IdClaims) | IdRejected

  /** The sign-up request body. */
  datatype SignupRequest = SignupRequest(
    email: string,
    password: Option<string>,
    fullName: Option<string>,
    phoneNumber: Option<string>)

  // ---------------------------------------------------------------------------
  // Responses

  /** The error bodies the handlers send. */
  datatype Failure =
    | PasswordRule
    | EmailRegistered
    | InternalServerError
    | VerificationEmailFailed
    | EmailInUse
    | InvalidPhoneNumber
    | PhoneNumberExists
    | WeakPassword
    | FirebaseTokenRequired
    | InvalidFirebaseToken
    | NotAuthenticated
    | UserNotFound
    | TokenExpired
    | InvalidToken
    | RefreshTokenMissing
    | RefreshTokenExpired
    | InvalidRefreshToken
    | TokenRequired

  /** The `error` text each failure carries. The password text names the
      length, an uppercase letter, a number and a special character; it does
      not name the lowercase letter the regex also requires. */
  function Message(f: Failure): string
  {
    match f
    case PasswordRule =>
      "Password must be at least 8 characters long, contain an uppercase letter, a number, and a special character."
    case EmailRegistered => "Email is already registered. Please log in."
    case InternalServerError => "Internal Server Error"
    case VerificationEmailFailed => "User created, but email verification failed. Please try again."
    case EmailInUse => "Email is already in use. Please log in."
    case InvalidPhoneNumber => "Invalid phone number format."
    case PhoneNumberExists => "Phone number already exists."
    case WeakPassword => "Password is too weak."
    case FirebaseTokenRequired => "Firebase token is required"
    case InvalidFirebaseToken => "Invalid Firebase token"
    case NotAuthenticated => "Not authenticated"
    case UserNotFound => "User not found"
    case TokenExpired => "TOKEN_EXPIRED"
    case InvalidToken => "Invalid token"
    case RefreshTokenMissing => "Refresh token missing"
    case RefreshTokenExpired => "REFRESH_TOKEN_EXPIRED"
    case InvalidRefreshToken => "Invalid refresh token"
    case TokenRequired => "Token is required"
  }

  /** The public view of a user row sent by login and /me. */
  datatype UserView = UserView(
    firebaseUid: string,
    email: string,
    fullName: Option<string>,
    profilePic: Option<string>,
    emailVerified: bool)

  datatype Body =
    | Error(failure: Failure, text: string)
    | Registered(account: Account)
    | LoggedIn(accessToken: Token, user: UserView)
    | Me(user: UserView)
    | Refreshed
    | TokenValid(userId: string, firebaseUid: string, email: string)
    | LoggedOut

  datatype Response = Response(status: nat, body: Body, cookies: seq<CookieWrite>)

  /** An error response: a status and an `{ error: text }` body, no cookie
      written. */
  function Reply(status: nat, f: Failure): Response
  {
    Response(status, Error(f, Message(f)), [])
  }
}
