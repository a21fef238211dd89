/** The `Users` table as the handlers see it: one row per Firebase account,
    looked up by `firebase_uid`. The table is a map keyed by that column;
    the database's own constraints (a primary key `id`, `firebase_uid`,
    `email` and `phone_number` unique, `email` not null, the string columns
    VARCHAR(255)) are the invariant Valid, and Create fails where one of
    them would refuse the insert. */
module UserTable {

  import opened AuthTypes

  datatype User = User(
    id: string,
    firebaseUid: string,
    email: string,
    fullName: Option<string>,
    phoneNumber: Option<string>,
    profilePic: Option<string>,
    signupDate: int,
    lastLogin: Option<int>,
    emailVerified: bool)

  type Table = map<string, User>

  /** `Sequelize.STRING` columns are created as VARCHAR(255). */
  const MaxColumnLength: nat := 255

  predicate FitsColumn(v: string)
  {
    |v| <= MaxColumnLength
  }

  predicate FitsNullableColumn(v: Option<string>)
  {
    v.Some? ==> FitsColumn(v.value)
  }

  /** The row's `firebase_uid`, `email`, `full_name`, `phone_number` and
      `profile_pic` fit their VARCHAR(255) columns. */
  predicate RowFits(row: User)
  {
    && FitsColumn(row.firebaseUid)
    && FitsColumn(row.email)
    && FitsNullableColumn(row.fullName)
    && FitsNullableColumn(row.phoneNumber)
    && FitsNullableColumn(row.profilePic)
  }

  /** Every row sits under its own `firebase_uid` and fits its columns; no two
      rows share an `id`, an `email`, or a non-null `phone_number`. */
  ghost predicate Valid(t: Table)
  {
    && (forall u :: u in t ==> t[u].firebaseUid == u && RowFits(t[u]))
    && (forall u, v :: u in t && v in t && u != v ==>
          && t[u].id != t[v].id
          && t[u].email != t[v].email
          && (t[u].phoneNumber.Some? ==> t[u].phoneNumber != t[v].phoneNumber))
  }

  /** The columns a `User.create` call supplies; `email` may be missing. */
  datatype Draft = Draft(
    id: string,
    firebaseUid: string,
    email: Option<string>,
    fullName: Option<string>,
    phoneNumber: Option<string>,
    profilePic: Option<string>,
    signupDate: int,
    lastLogin: Option<int>,
    emailVerified: bool)

  /** The database accepts the row: `email` is set, every string fits its
      VARCHAR(255) column, and no existing row has the same `firebase_uid`,
      `id`, `email` or non-null `phone_number`. */
  predicate Insertable(t: Table, d: Draft)
  {
    && d.email.Some?
    && FitsColumn(d.firebaseUid)
    && FitsColumn(d.email.value)
    && FitsNullableColumn(d.fullName)
    && FitsNullableColumn(d.phoneNumber)
    && FitsNullableColumn(d.profilePic)
    && d.firebaseUid !in t
    && forall u :: u in t ==>
         && t[u].id != d.id
         && t[u].email != d.email.value
         && (d.phoneNumber.Some? ==> t[u].phoneNumber != d.phoneNumber)
  }

  datatype CreateResult = Inserted(table: Table, row: User) | ConstraintViolation

  /** `User.create`: insert the drafted row, or fail on a constraint. */
  function Create(t: Table, d: Draft): (r: CreateResult)
    requires Valid(t)
    ensures r.Inserted? <==> Insertable(t, d)
    ensures r.Inserted? ==> Valid(r.table)
    ensures r.Inserted? ==>
              && r.table.Keys == t.Keys + {d.firebaseUid}
              && d.firebaseUid !in t
              && r.table[d.firebaseUid] == r.row
              && (forall u :: u in t ==> r.table[u] == t[u])
    ensures r.Inserted? ==>
              && r.row.id == d.id && r.row.firebaseUid == d.firebaseUid
              && Some(r.row.email) == d.email
              && r.row.fullName == d.fullName && r.row.phoneNumber == d.phoneNumber
              && r.row.profilePic == d.profilePic && r.row.signupDate == d.signupDate
              && r.row.lastLogin == d.lastLogin && r.row.emailVerified == d.emailVerified
  {
    if Insertable(t, d) then
      var row := User(d.id, d.firebaseUid, d.email.value, d.fullName, d.phoneNumber,
                      d.profilePic, d.signupDate, d.lastLogin, d.emailVerified);
      Inserted(t[d.firebaseUid := row], row)
    else
      ConstraintViolation
  }

  /** `User.findOne({ where: { firebase_uid: uid } })`. */
  function Find(t: Table, uid: string): (r: Option<User>)
    requires Valid(t)
    ensures r.Some? ==> r.value.firebaseUid == uid && r.value in t.Values
    ensures r.None? ==> forall u :: u in t ==> t[u].firebaseUid != uid
    ensures forall u :: u in t && t[u].firebaseUid == uid ==> r == Some(t[u])
  {
    if uid in t then Some(t[uid]) else None
  }

  /** The public view of a row. */
  function View(row: User): UserView
  {
    UserView(row.firebaseUid, row.email, row.fullName, row.profilePic, row.emailVerified)
  }
}
