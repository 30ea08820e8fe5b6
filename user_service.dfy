/** The user participant's `UserService`: registration with its role
    downgrade, the null-guarded profile update, the username availability test
    and the password-free `UserDTO`. The password encoder is a function
    parameter. */
module UserService {
  import opened Common
  import opened Keyed

  datatype Role = ADMIN | ORGANIZER | PARTICIPANT

  /** A stored user; the text columns are nullable. */
  datatype User = User(
    id: Uuid,
    username: Option<string>,
    name: Option<string>,
    phone: Option<string>,
    email: Option<string>,
    password: Option<string>,
    role: Role,
    createdAt: Minutes)

  /** `RegisterDTO`: the registration and update request body. */
  datatype RegisterRequest = RegisterRequest(
    name: Option<string>,
    email: Option<string>,
    phone: Option<string>,
    username: Option<string>,
    password: Option<string>,
    role: Option<Role>)

  /** `UserDTO`: what the service hands out. It has no password field. */
  datatype UserDto = UserDto(
    id: Uuid,
    name: Option<string>,
    email: Option<string>,
    phone: Option<string>,
    username: Option<string>,
    role: Role,
    createdAt: Minutes)

  function Key(u: User): Uuid
  {
    u.id
  }

  /** The `unique = true` username column: no two users share a non-null name. */
  ghost predicate UniqueUsernames(rows: seq<User>)
  {
    forall i, j :: 0 <= i < |rows| && 0 <= j < |rows| && rows[i].username.Some? && rows[i].username == rows[j].username
      ==> i == j
  }

  /** The user table. */
  class UserDb {
    var rows: seq<User>

    ghost predicate Valid()
      reads this
    {
      UniqueKeys(rows, Key) && UniqueUsernames(rows)
    }

    constructor ()
      ensures Valid() && rows == []
    {
      rows := [];
    }
  }

  // ---------------------------------------------------------------------------
  // mapToUserDTO
  // ---------------------------------------------------------------------------

  /** `mapToUserDTO`: every column but the password. */
  function ToUserDto(u: User): (d: UserDto)
    ensures d.id == u.id && d.username == u.username && d.role == u.role && d.createdAt == u.createdAt
    ensures d.name == u.name && d.email == u.email && d.phone == u.phone
  {
    UserDto(u.id, u.name, u.email, u.phone, u.username, u.role, u.createdAt)
  }

  /** The DTO does not depend on the password in any way. */
  lemma DtoHidesPassword(u: User, p: Option<string>)
    ensures ToUserDto(u.(password := p)) == ToUserDto(u)
  {
  }

  // ---------------------------------------------------------------------------
  // isUsernameAvailable
  // ---------------------------------------------------------------------------

  /** `findByUsername`. */
  function ByUsername(rows: seq<User>, username: string): (r: Option<User>)
    ensures r.Some? ==> r.value in rows && r.value.username == Some(username)
    ensures r.None? ==> forall k :: 0 <= k < |rows| ==> rows[k].username != Some(username)
  {
    if rows == [] then None
    else if rows[0].username == Some(username) then Some(rows[0])
    else
      var r := ByUsername(rows[1..], username);
      assert r.None? ==> forall k :: 1 <= k < |rows| ==> rows[1..][k - 1] == rows[k];
      r
  }

  /** `isUsernameAvailable`: nobody holds the name, or its holder is `userID`. */
  function IsUsernameAvailable(rows: seq<User>, username: string, userID: Option<Uuid>): (ok: bool)
    requires UniqueUsernames(rows)
    ensures ok <==> forall k :: 0 <= k < |rows| && rows[k].username == Some(username) ==> userID == Some(rows[k].id)
  {
    match ByUsername(rows, username)
    case None => true
    case Some(holder) =>
      var i :| 0 <= i < |rows| && rows[i] == holder;
      assert forall k :: 0 <= k < |rows| && rows[k].username == Some(username) ==> k == i;
      userID.Some? && holder.id == userID.value
  }

  // ---------------------------------------------------------------------------
  // addUser
  // ---------------------------------------------------------------------------

  /** The role registration stores: ADMIN is never granted. */
  function RegisteredRole(requested: Option<Role>): (r: Role)
    ensures r != ADMIN
    ensures requested == Some(ORGANIZER) <==> r == ORGANIZER
    ensures requested == Some(PARTICIPANT) ==> r == PARTICIPANT
  {
    if requested.None? || requested.value == ADMIN then PARTICIPANT else requested.value
  }

  /** The row `addUser` stores: the request's fields, the encoded password and
      the downgraded role. */
  function NewUser(dto: RegisterRequest, encode: string -> string, newId: Uuid, now: Minutes): (u: User)
    requires dto.password.Some?
    ensures u.id == newId && u.createdAt == now
    ensures u.password == Some(encode(dto.password.value))
    ensures u.role == RegisteredRole(dto.role)
    ensures u.username == dto.username && u.name == dto.name && u.phone == dto.phone && u.email == dto.email
  {
    User(newId, dto.username, dto.name, dto.phone, dto.email, Some(encode(dto.password.value)),
         RegisteredRole(dto.role), now)
  }

  /** `addUser`. The encoder refuses a null password, and the unique column
      refuses a taken username; the caller rules both out. */
  method AddUser(db: UserDb, dto: RegisterRequest, encode: string -> string, newId: Uuid, now: Minutes)
    returns (d: UserDto)
    requires db.Valid() && newId !in Keys(db.rows, Key) && dto.password.Some?
    requires dto.username.Some? ==> IsUsernameAvailable(db.rows, dto.username.value, None)
    modifies db
    ensures db.Valid()
    ensures db.rows == old(db.rows) + [NewUser(dto, encode, newId, now)]
    ensures d == ToUserDto(NewUser(dto, encode, newId, now))
  {
    var role := dto.role;
    if role.None? || role.value == ADMIN {
      role := Some(PARTICIPANT);
    }
    var u := User(newId, dto.username, dto.name, dto.phone, dto.email, Some(encode(dto.password.value)),
                  role.value, now);
    db.rows := Upsert(db.rows, Key, u);
    assert db.rows == old(db.rows) + [u];
    assert db.rows[|old(db.rows)|] == u;
    d := ToUserDto(u);
  }

  // ---------------------------------------------------------------------------
  // updateUser
  // ---------------------------------------------------------------------------

  /** The role an update leaves: a requested ADMIN becomes PARTICIPANT, no
      request keeps the current role. */
  function UpdatedRole(current: Role, requested: Option<Role>): (r: Role)
    ensures requested == Some(ADMIN) ==> r == PARTICIPANT
    ensures requested.None? ==> r == current
    ensures requested.Some? && requested.value != ADMIN ==> r == requested.value
  {
    if requested == Some(ADMIN) then PARTICIPANT
    else if requested.Some? then requested.value
    else current
  }

  /** The field-by-field patch of `updateUser`: provided fields replace the
      stored ones, a provided password is stored encoded. */
  function PatchUser(u: User, dto: RegisterRequest, encode: string -> string): (r: User)
    ensures r.id == u.id && r.createdAt == u.createdAt
    ensures r.name == (if dto.name.Some? then dto.name else u.name)
    ensures r.email == (if dto.email.Some? then dto.email else u.email)
    ensures r.phone == (if dto.phone.Some? then dto.phone else u.phone)
    ensures r.username == (if dto.username.Some? then dto.username else u.username)
    ensures r.password == (if dto.password.Some? then Some(encode(dto.password.value)) else u.password)
    ensures r.role == UpdatedRole(u.role, dto.role)
  {
    User(u.id,
         if dto.username.Some? then dto.username else u.username,
         if dto.name.Some? then dto.name else u.name,
         if dto.phone.Some? then dto.phone else u.phone,
         if dto.email.Some? then dto.email else u.email,
         if dto.password.Some? then Some(encode(dto.password.value)) else u.password,
         UpdatedRole(u.role, dto.role),
         u.createdAt)
  }

  /** Neither registration nor an update makes anyone an administrator: after
      an update a user is ADMIN only if they already were and asked for no role. */
  lemma NoSelfPromotion(u: User, dto: RegisterRequest, encode: string -> string)
    ensures PatchUser(u, dto, encode).role == ADMIN ==> u.role == ADMIN && dto.role.None?
    ensures dto.password.Some? ==> NewUser(dto, encode, u.id, u.createdAt).role != ADMIN
  {
  }

  /** Replacing one row with one whose name is free (or its own) keeps the
      usernames unique. */
  lemma ReplaceKeepsUniqueUsernames(rows: seq<User>, k: nat, x: User)
    requires UniqueUsernames(rows) && k < |rows|
    requires x.username.Some? ==> forall j :: 0 <= j < |rows| && j != k ==> rows[j].username != x.username
    ensures UniqueUsernames(rows[k := x])
  {
  }

  /** `updateUser`: an unknown id throws (None) and changes nothing; otherwise
      the patched user is saved and returned without its password. A new
      username must be free, as the unique column demands. */
  method UpdateUser(db: UserDb, userID: Uuid, dto: RegisterRequest, encode: string -> string)
    returns (r: Option<UserDto>)
    requires db.Valid()
    requires dto.username.Some? ==> IsUsernameAvailable(db.rows, dto.username.value, Some(userID))
    modifies db
    ensures db.Valid()
    ensures r.None? <==> userID !in Keys(old(db.rows), Key)
    ensures r.None? ==> db.rows == old(db.rows)
    ensures r.Some? ==>
      var u := PatchUser(FindKey(old(db.rows), Key, userID).value, dto, encode);
      db.rows == Upsert(old(db.rows), Key, u) && r.value == ToUserDto(u)
  {
    var found := FindKey(db.rows, Key, userID);
    if found.None? {
      return None;
    }
    var u := PatchUser(found.value, dto, encode);
    var k :| 0 <= k < |db.rows| && db.rows[k] == found.value;
    ReplaceKeepsUniqueUsernames(db.rows, k, u);
    db.rows := Upsert(db.rows, Key, u);
    r := Some(ToUserDto(u));
  }
}
