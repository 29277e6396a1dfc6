/**
 * The user store: usernames and emails are unique, the `isOnline` flag and `lastSeen` time move
 * together, and the copies the service returns never carry the password.
 */
module Users {
  import opened Common
  import opened Entities

  const UserNotFound := "User not found"
  const UserExists := "Username or email already exists"
  const DuplicateKey := "duplicate key value violates unique constraint"

  datatype CreateUserDto = CreateUserDto(username: string, email: string, password: string, avatar: Option<string>)

  /** The optional fields of a profile update; `None` means absent from the request. */
  datatype UpdateUserDto = UpdateUserDto(username: Option<string>, email: Option<string>, avatar: Option<string>)

  /** Some stored user already has this username or this email (the `where` of `create`). */
  predicate Taken(users: map<UserId, User>, username: string, email: string) {
    exists id | id in users :: users[id].username == username || users[id].email == email
  }

  /** Another user than `self` already has this username or this email. */
  predicate TakenByOther(users: map<UserId, User>, self: UserId, username: string, email: string) {
    exists id | id in users && id != self :: users[id].username == username || users[id].email == email
  }

  /** The two unique columns of the users table, and rows keyed by their own id. */
  ghost predicate WellFormed(users: map<UserId, User>) {
    && (forall id | id in users :: users[id].id == id)
    && (forall a, b | a in users && b in users && a != b ::
          users[a].username != users[b].username && users[a].email != users[b].email)
  }

  /** The row `create` saves: the request's fields over the defaults offline, never seen. */
  function NewUser(dto: CreateUserDto, id: UserId, now: Millis): User {
    User(id, dto.username, dto.email, Some(dto.password), dto.avatar, false, None, now)
  }

  /** The copy handed to callers: the selected columns, without the password. */
  function WithoutPassword(u: User): User {
    u.(password := None)
  }

  /** `Object.assign(user, dto)`: every supplied field overwrites, the rest stay. */
  function Patched(u: User, dto: UpdateUserDto): (r: User)
    ensures dto.username.Some? ==> r.username == dto.username.value
    ensures dto.username.None? ==> r.username == u.username
    ensures dto.email.Some? ==> r.email == dto.email.value
    ensures dto.email.None? ==> r.email == u.email
    ensures dto.avatar.Some? ==> r.avatar == dto.avatar
    ensures dto.avatar.None? ==> r.avatar == u.avatar
    ensures r.(username := u.username, email := u.email, avatar := u.avatar) == u
  {
    u.(username := dto.username.GetOr(u.username),
       email := dto.email.GetOr(u.email),
       avatar := if dto.avatar.Some? then dto.avatar else u.avatar)
  }

  /** Applying the same profile update twice gives the user one application gives. */
  lemma PatchedIdempotent(u: User, dto: UpdateUserDto)
    ensures Patched(Patched(u, dto), dto) == Patched(u, dto)
  {
  }

  /**
   * The table after `updateOnlineStatus(id, isOnline)`: online clears `lastSeen`, offline stamps
   * it with the current time; an unknown id matches no row and changes nothing.
   */
  function WithStatus(users: map<UserId, User>, id: UserId, isOnline: bool, now: Millis): (r: map<UserId, User>)
    ensures r.Keys == users.Keys
    ensures id in users ==> r[id].isOnline == isOnline
    ensures id in users ==> (r[id].lastSeen == None <==> isOnline)
    ensures id in users && !isOnline ==> r[id].lastSeen == Some(now)
    ensures id in users ==> r[id].(isOnline := users[id].isOnline, lastSeen := users[id].lastSeen) == users[id]
    ensures forall other | other in users && other != id :: r[other] == users[other]
  {
    if id in users then
      users[id := users[id].(isOnline := isOnline, lastSeen := if isOnline then None else Some(now))]
    else users
  }

  /** Presence updates never touch the unique columns, so they keep the table well formed. */
  lemma WithStatusWellFormed(users: map<UserId, User>, id: UserId, isOnline: bool, now: Millis)
    requires WellFormed(users)
    ensures WellFormed(WithStatus(users, id, isOnline, now))
  {
  }

  /** Of two presence updates for one user only the later one shows. */
  lemma LastStatusWins(users: map<UserId, User>, id: UserId, a: bool, b: bool, t1: Millis, t2: Millis)
    ensures WithStatus(WithStatus(users, id, a, t1), id, b, t2) == WithStatus(users, id, b, t2)
  {
  }

  class UsersService {
    var users: map<UserId, User>

    ghost predicate Valid()
      reads this
    {
      WellFormed(users)
    }

    constructor ()
      ensures Valid() && users == map[]
    {
      users := map[];
    }

    /**
     * `create`: Conflict, storing nothing, when the username or the email is taken; otherwise
     * the new user is stored and returned without its password. `id` is the fresh key the
     * database assigns.
     */
    method Create(dto: CreateUserDto, id: UserId, now: Millis) returns (r: Result<User>)
      requires Valid() && id !in users
      modifies this
      ensures Valid()
      ensures r.Err? <==> Taken(old(users), dto.username, dto.email)
      ensures r.Err? ==> r.error == Conflict(UserExists) && users == old(users)
      ensures r.Ok? ==> users == old(users)[id := NewUser(dto, id, now)]
      ensures r.Ok? ==> r.value == WithoutPassword(users[id]) && r.value.password == None
      ensures r.Ok? ==> FindOne(id) == r
    {
      if Taken(users, dto.username, dto.email) {
        return Err(Conflict(UserExists));
      }
      var user := NewUser(dto, id, now);
      users := users[id := user];
      r := Ok(WithoutPassword(user));
    }

    /** `findOne`: the user without its password, or NotFound. */
    function FindOne(id: UserId): (r: Result<User>)
      reads this
      ensures r.Ok? <==> id in users
      ensures r.Ok? ==> r.value == WithoutPassword(users[id]) && r.value.password == None
      ensures r.Err? ==> r.error == NotFound(UserNotFound)
    {
      if id in users then Ok(WithoutPassword(users[id])) else Err(NotFound(UserNotFound))
    }

    /**
     * `update`: NotFound for an unknown id; otherwise the supplied fields overwrite and the rest
     * are kept. A new username or email that another user holds is refused by the table's
     * unique constraint when the row is saved.
     */
    method Update(id: UserId, dto: UpdateUserDto) returns (r: Result<User>)
      requires Valid()
      modifies this
      ensures Valid()
      ensures id !in old(users) ==> r == Err(NotFound(UserNotFound)) && users == old(users)
      ensures id in old(users) ==>
        var u := Patched(old(users)[id], dto);
        if TakenByOther(old(users), id, u.username, u.email) then
          r == Err(ConstraintViolation(DuplicateKey)) && users == old(users)
        else
          users == old(users)[id := u] && r == Ok(WithoutPassword(u))
    {
      var found := FindOne(id);
      if found.Err? {
        return Err(found.error);
      }
      var u := Patched(users[id], dto);
      if TakenByOther(users, id, u.username, u.email) {
        return Err(ConstraintViolation(DuplicateKey));
      }
      users := users[id := u];
      r := Ok(WithoutPassword(u));
    }

    /** `updateOnlineStatus`: sets the flag and the matching `lastSeen`; unknown ids are ignored. */
    method UpdateOnlineStatus(id: UserId, isOnline: bool, now: Millis)
      requires Valid()
      modifies this
      ensures Valid()
      ensures users == WithStatus(old(users), id, isOnline, now)
    {
      WithStatusWellFormed(users, id, isOnline, now);
      users := WithStatus(users, id, isOnline, now);
    }

    /** `remove`: NotFound for an unknown id; otherwise the user is gone and `findOne` fails. */
    method Remove(id: UserId) returns (r: Result<()>)
      requires Valid()
      modifies this
      ensures Valid()
      ensures id !in old(users) ==> r == Err(NotFound(UserNotFound)) && users == old(users)
      ensures id in old(users) ==> r == Ok(()) && users == old(users) - {id}
      ensures FindOne(id) == Err(NotFound(UserNotFound))
    {
      var found := FindOne(id);
      if found.Err? {
        return Err(found.error);
      }
      users := users - {id};
      r := Ok(());
    }
  }
}
