/** The user service. Every answer is a projection of the stored user that
    leaves the password out. */
module UserService {
  import opened Outcomes
  import opened Keyed
  import opened Db

  /** A user as the service returns it: no password field exists to leak. */
  datatype UserView = UserView(id: Id, login: string, version: int, createdAt: int, updatedAt: int)

  datatype CreateUserDto = CreateUserDto(login: Option<string>, password: Option<string>)

  datatype UpdatePasswordDto = UpdatePasswordDto(oldPassword: string, newPassword: string)

  function View(u: User): UserView {
    UserView(u.id, u.login, u.version, u.createdAt, u.updatedAt)
  }

  /** JavaScript's `length`: characters outside the Basic Multilingual Plane
      take two UTF-16 code units. */
  function Utf16Length(str: string): (r: nat)
    ensures |str| <= r <= 2 * |str|
  {
    if |str| == 0 then 0
    else (if str[0] as int > 0xFFFF then 2 else 1) + Utf16Length(str[1..])
  }

  /** One character takes one UTF-16 code unit inside the Basic Multilingual
      Plane and two (a surrogate pair) outside it. */
  lemma Utf16LengthChar(c: char)
    ensures Utf16Length([c]) == if c as int > 0xFFFF then 2 else 1
  {
    assert [c][1..] == [];
  }

  /** The length of a concatenation is the sum of the lengths; with
      `Utf16LengthChar` this pins `Utf16Length` on every string. */
  lemma {:induction false} Utf16LengthAppend(a: string, b: string)
    ensures Utf16Length(a + b) == Utf16Length(a) + Utf16Length(b)
  {
    if |a| == 0 {
      assert a + b == b;
    } else {
      assert (a + b)[1..] == a[1..] + b;
      Utf16LengthAppend(a[1..], b);
    }
  }

  function FindAll(s: Store): (r: seq<UserView>)
    ensures |r| == |s.users|
    ensures forall i :: 0 <= i < |r| ==> r[i] == View(s.users[i])
  {
    seq(|s.users|, i requires 0 <= i < |s.users| => View(s.users[i]))
  }

  function FindOne(isUuid: IdCheck, s: Store, id: Id): (r: Result<UserView>)
    ensures !isUuid(id) ==> r == Err(BadRequest)
    ensures isUuid(id) && !HasKey(s.users, UserKey, id) ==> r == Err(NotFound)
    ensures r.Ok? <==> isUuid(id) && HasKey(s.users, UserKey, id)
    ensures r.Ok? ==> exists u :: u in s.users && u.id == id && r.value == View(u)
  {
    var u :- Lookup(isUuid, s.users, UserKey, id);
    Ok(View(u))
  }

  /** The password has to be non-empty and at least three UTF-16 code units
      long; nothing checks that the login is unused. The two clock readings
      are the two `Date.now()` calls. */
  function Create(s: Store, dto: CreateUserDto, freshId: Id, createdAt: int, updatedAt: int)
    : (r: Result<(UserView, Store)>)
    requires !HasKey(s.users, UserKey, freshId)
    ensures r.Err? <==>
      dto.login.None? || dto.login.value == "" || dto.password.None? || Utf16Length(dto.password.value) < 3
    ensures r.Err? ==> r.error == BadRequest
    ensures r.Ok? ==>
      var u := User(freshId, dto.login.value, dto.password.value, 1, createdAt, updatedAt);
      && r.value.1.users == s.users + [u]
      && r.value.0 == View(u)
      && r.value.1 == s.(users := r.value.1.users)
  {
    if dto.login.None? || dto.login.value == "" || dto.password.None? || dto.password.value == "" then
      Err(BadRequest)
    else if Utf16Length(dto.password.value) < 3 then
      Err(BadRequest)
    else
      var u := User(freshId, dto.login.value, dto.password.value, 1, createdAt, updatedAt);
      Ok((View(u), s.(users := s.users + [u])))
  }

  /** Checks run in source order: id format, existence, then the old
      password. On success the password is replaced, the version goes up by
      exactly one and `updatedAt` becomes `now`; nothing else changes. */
  function Update(isUuid: IdCheck, s: Store, id: Id, dto: UpdatePasswordDto, now: int)
    : (r: Result<(UserView, Store)>)
    ensures !isUuid(id) ==> r == Err(BadRequest)
    ensures isUuid(id) && !HasKey(s.users, UserKey, id) ==> r == Err(NotFound)
    ensures isUuid(id) && HasKey(s.users, UserKey, id) ==>
      IndexOf(s.users, UserKey, id).Some? &&
      var stored := s.users[IndexOf(s.users, UserKey, id).value];
      (r == Err(Forbidden) <==> stored.password != dto.oldPassword)
    ensures r.Ok? <==>
      && isUuid(id)
      && HasKey(s.users, UserKey, id)
      && IndexOf(s.users, UserKey, id).Some?
      && s.users[IndexOf(s.users, UserKey, id).value].password == dto.oldPassword
    ensures r.Ok? ==>
      IndexOf(s.users, UserKey, id).Some? &&
      var i := IndexOf(s.users, UserKey, id).value;
      var stored, (v, t) := s.users[i], r.value;
      && stored.password == dto.oldPassword
      && |t.users| == |s.users|
      && t == s.(users := t.users)
      && (forall j :: 0 <= j < |s.users| && j != i ==> t.users[j] == s.users[j])
      && t.users[i].id == stored.id
      && t.users[i].login == stored.login
      && t.users[i].createdAt == stored.createdAt
      && t.users[i].password == dto.newPassword
      && t.users[i].version == stored.version + 1
      && t.users[i].updatedAt == now
      && v == View(t.users[i])
  {
    if !isUuid(id) then Err(BadRequest)
    else
      match IndexOf(s.users, UserKey, id)
      case None => Err(NotFound)
      case Some(i) =>
        var u := s.users[i];
        if u.password != dto.oldPassword then Err(Forbidden)
        else
          var u' := u.(password := dto.newPassword, version := u.version + 1, updatedAt := now);
          Ok((View(u'), s.(users := s.users[i := u'])))
  }

  /** Both checks come before any change; on success exactly the users with
      that id are removed and nothing else changes. */
  function Delete(isUuid: IdCheck, s: Store, id: Id): (r: Result<Store>)
    ensures !isUuid(id) ==> r == Err(BadRequest)
    ensures isUuid(id) && !HasKey(s.users, UserKey, id) ==> r == Err(NotFound)
    ensures r.Ok? <==> isUuid(id) && HasKey(s.users, UserKey, id)
    ensures r.Ok? ==>
      && !HasKey(r.value.users, UserKey, id)
      && (forall u :: u in r.value.users <==> u in s.users && u.id != id)
      && r.value == s.(users := r.value.users)
  {
    if !isUuid(id) then Err(BadRequest)
    else if !HasKey(s.users, UserKey, id) then Err(NotFound)
    else Ok(s.(users := RemoveKey(s.users, UserKey, id)))
  }

  /** `findOne` agrees with `findAll`: what it returns is one of the listed users. */
  lemma FindOneInFindAll(isUuid: IdCheck, s: Store, id: Id)
    requires FindOne(isUuid, s, id).Ok?
    ensures FindOne(isUuid, s, id).value in FindAll(s)
  {
    var u :| u in s.users && u.id == id && FindOne(isUuid, s, id).value == View(u);
    var i :| 0 <= i < |s.users| && s.users[i] == u;
    assert FindAll(s)[i] == View(u);
  }

  /** A two-character password is rejected as a bad request:
      `{login: "a", password: "ab"}` gives BadRequest. */
  lemma ShortPasswordRejected(s: Store, freshId: Id, now: int)
    requires !HasKey(s.users, UserKey, freshId)
    ensures Create(s, CreateUserDto(Some("a"), Some("ab")), freshId, now, now) == Err(BadRequest)
  {
    assert Utf16Length("ab") == 2 by {
      assert "ab"[1..] == "b";
      assert "b"[1..] == "";
    }
  }

  /** Two characters outside the Basic Multilingual Plane make a password
      of length 4 as JavaScript counts it, so it is long enough. */
  lemma AstralPasswordAccepted(s: Store, freshId: Id, now: int)
    requires !HasKey(s.users, UserKey, freshId)
    ensures Create(s, CreateUserDto(Some("a"), Some("\U{1F3B5}\U{1F3B6}")), freshId, now, now).Ok?
  {
    var pw := "\U{1F3B5}\U{1F3B6}";
    assert pw == [pw[0]] + [pw[1]];
    Utf16LengthAppend([pw[0]], [pw[1]]);
    Utf16LengthChar(pw[0]);
    Utf16LengthChar(pw[1]);
  }

  /** A created user can be fetched back by its id, without the password. */
  lemma CreateThenFindOne(isUuid: IdCheck, s: Store, dto: CreateUserDto, freshId: Id, createdAt: int, updatedAt: int)
    requires !HasKey(s.users, UserKey, freshId)
    requires isUuid(freshId)
    requires Create(s, dto, freshId, createdAt, updatedAt).Ok?
    ensures FindOne(isUuid, Create(s, dto, freshId, createdAt, updatedAt).value.1, freshId)
            == Ok(Create(s, dto, freshId, createdAt, updatedAt).value.0)
  {
    var t := Create(s, dto, freshId, createdAt, updatedAt).value.1;
    forall j | 0 <= j < |s.users|
      ensures UserKey(t.users[j]) != freshId
    {
      assert t.users[j] == s.users[j];
    }
    IndexOfFirst(t.users, UserKey, freshId, |s.users|);
  }

  /** A password change takes effect: repeating the same request is
      Forbidden when the new password differs from the old one. */
  lemma UpdateRetiresOldPassword(isUuid: IdCheck, s: Store, id: Id, dto: UpdatePasswordDto, now: int, later: int)
    requires Update(isUuid, s, id, dto, now).Ok?
    requires dto.newPassword != dto.oldPassword
    ensures Update(isUuid, Update(isUuid, s, id, dto, now).value.1, id, dto, later) == Err(Forbidden)
  {
    var i := IndexOf(s.users, UserKey, id).value;
    var t := Update(isUuid, s, id, dto, now).value.1;
    IndexOfAfterUpdate(s.users, UserKey, id, i, t.users[i]);
    assert s.users[i := t.users[i]] == t.users;
  }

  /** Once deleted, a user is not found any more. */
  lemma DeleteThenFindOne(isUuid: IdCheck, s: Store, id: Id)
    requires Delete(isUuid, s, id).Ok?
    ensures FindOne(isUuid, Delete(isUuid, s, id).value, id) == Err(NotFound)
  {
  }

  /** When ids are unique, delete removes exactly the one user and the others
      keep their order. */
  lemma DeleteKeepsOrder(isUuid: IdCheck, s: Store, id: Id)
    requires UniqueKeys(s.users, UserKey)
    requires Delete(isUuid, s, id).Ok?
    ensures IndexOf(s.users, UserKey, id).Some?
    ensures var i := IndexOf(s.users, UserKey, id).value;
      Delete(isUuid, s, id).value.users == s.users[..i] + s.users[i + 1..]
  {
    var i := IndexOf(s.users, UserKey, id).value;
    RemoveKeyAt(s.users, UserKey, id, i);
  }
}
