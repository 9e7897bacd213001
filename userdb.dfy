/** The user side of the database (`db_user.py`): registration with unique
    nicknames and e-mail addresses, and the password check used at login. */
module UserDb {
  import opened Common
  import opened Models
  import opened Passwords

  /** `Users.query.filter_by(nickname=nickname).first()`. */
  function NicknameIndex(users: seq<User>, nickname: string): (r: Option<nat>)
    ensures r.Some? ==> r.value < |users| && users[r.value].nickname == nickname
    ensures r.None? ==> forall j :: 0 <= j < |users| ==> users[j].nickname != nickname
  {
    FindFirst(users, (u: User) => u.nickname == nickname)
  }

  /** `Users.query.filter_by(email=email).first()`. */
  function EmailIndex(users: seq<User>, email: string): (r: Option<nat>)
    ensures r.Some? ==> r.value < |users| && users[r.value].email == email
    ensures r.None? ==> forall j :: 0 <= j < |users| ==> users[j].email != email
  {
    FindFirst(users, (u: User) => u.email == email)
  }

  /** Keys are positive, ascending and below the next key; `nickname` and
      `email` are unique columns. */
  ghost predicate UsersValid(users: seq<User>, nextId: int) {
    && nextId >= 1
    && (forall i :: 0 <= i < |users| ==> 1 <= users[i].id < nextId)
    && (forall i, j :: 0 <= i < j < |users| ==> users[i].id < users[j].id)
    && (forall i, j :: 0 <= i < j < |users| ==> users[i].nickname != users[j].nickname)
    && (forall i, j :: 0 <= i < j < |users| ==> users[i].email != users[j].email)
  }

  /** `checking_pass` on a table value: an unknown nickname is an error;
      otherwise the user comes back when the password checks against the
      stored hash, and nothing when it does not. */
  function CheckPass(users: seq<User>, nickname: string, password: string): (r: Result<Option<User>>)
    ensures r.Err? <==> NicknameIndex(users, nickname).None?
    ensures r.Err? ==> r.failure == NicknameNotFound
    ensures r.Ok? ==>
              exists i :: && 0 <= i < |users| && users[i].nickname == nickname
                          && (r.value.Some? <==> CheckPw(password, users[i].hashAndSalt))
                          && (r.value.Some? ==> r.value.value == users[i])
  {
    match NicknameIndex(users, nickname)
    case None => Err(NicknameNotFound)
    case Some(i) => Ok(if CheckPw(password, users[i].hashAndSalt) then Some(users[i]) else None)
  }

  /** Logging in as a user just registered with `password`: a password
      that agrees with it on bcrypt's first 72 bytes lets the user in,
      any other is refused. */
  lemma LoginAfterRegister(users: seq<User>, u: User, password: string, salt: Salt, attempt: string)
    requires NicknameIndex(users, u.nickname).None? && u.hashAndSalt == HashPw(password, salt)
    ensures Key(attempt) == Key(password) ==> CheckPass(users + [u], u.nickname, attempt) == Ok(Some(u))
    ensures Key(attempt) != Key(password) ==> CheckPass(users + [u], u.nickname, attempt) == Ok(None)
  {
    assert (users + [u])[|users|] == u;
    CheckPwOfHash(attempt, password, salt);
  }

  /** A user whose nickname and e-mail address are not stored, appended
      under the next key, keeps the table valid. */
  lemma AppendUserKeepsValid(users: seq<User>, nextId: int, u: User)
    requires UsersValid(users, nextId) && u.id == nextId
    requires NicknameIndex(users, u.nickname).None? && EmailIndex(users, u.email).None?
    ensures UsersValid(users + [u], nextId + 1)
  {
    var after := users + [u];
    assert forall i :: 0 <= i < |users| ==> after[i] == users[i];
    assert after[|users|] == u;
  }

  /** The `users` table. */
  class UserStore {
    var users: seq<User>
    /** The key the next registered user receives. */
    var nextId: int

    ghost predicate Valid()
      reads this
    {
      UsersValid(users, nextId)
    }

    constructor ()
      ensures Valid() && users == [] && nextId == 1
    {
      users, nextId := [], 1;
    }

    /** `checking_nickname`. */
    function CheckingNickname(nickname: string): (b: bool)
      reads this
      ensures b <==> exists i :: 0 <= i < |users| && users[i].nickname == nickname
    {
      NicknameIndex(users, nickname).Some?
    }

    /** `checking_email`. */
    function CheckingEmail(email: string): (b: bool)
      reads this
      ensures b <==> exists i :: 0 <= i < |users| && users[i].email == email
    {
      EmailIndex(users, email).Some?
    }

    /** `checking_pass`. */
    function CheckingPass(nickname: string, password: string): (r: Result<Option<User>>)
      reads this
      ensures r.Err? <==> !CheckingNickname(nickname)
      ensures r.Ok? && r.value.Some? ==>
                && r.value.value in users && r.value.value.nickname == nickname
                && CheckPw(password, r.value.value.hashAndSalt)
      ensures r.Ok? ==>
                && NicknameIndex(users, nickname).Some?
                && (r.value.Some? <==> CheckPw(password, users[NicknameIndex(users, nickname).value].hashAndSalt))
    {
      CheckPass(users, nickname, password)
    }

    /** `register_user`: refuse a taken nickname, then a taken e-mail
        address, otherwise store the user with the password hashed under
        `salt` (bcrypt's random salt, given as a parameter) and return the
        new key. */
    method RegisterUser(nickname: string, password: string, email: string, firstName: Option<string>,
                        surname: Option<string>, age: Option<int>, admin: bool, salt: Salt)
      returns (r: Result<int>)
      requires Valid()
      modifies this
      ensures Valid()
      ensures old(CheckingNickname(nickname)) ==> r == Err(NicknameTaken)
      ensures !old(CheckingNickname(nickname)) && old(CheckingEmail(email)) ==> r == Err(EmailTaken)
      ensures r.Err? ==> unchanged(this)
      ensures !old(CheckingNickname(nickname)) && !old(CheckingEmail(email)) ==>
                && r == Ok(old(nextId))
                && users == old(users) + [User(old(nextId), nickname, HashPw(password, salt), email,
                                               firstName, surname, age, admin)]
                && nextId == old(nextId) + 1
      ensures r.Ok? ==> CheckingPass(nickname, password) == Ok(Some(users[|users| - 1]))
    {
      if CheckingNickname(nickname) {
        return Err(NicknameTaken);
      }
      if CheckingEmail(email) {
        return Err(EmailTaken);
      }
      var u := User(nextId, nickname, HashPw(password, salt), email, firstName, surname, age, admin);
      LoginAfterRegister(users, u, password, salt, password);
      AppendUserKeepsValid(users, nextId, u);
      users := users + [u];
      nextId := nextId + 1;
      r := Ok(u.id);
    }
  }
}
