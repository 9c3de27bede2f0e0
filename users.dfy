/** `UserService`: registration, login, token-based lookups, partial update,
    password reset (which logs the user out everywhere) and blocking. */
module Users {
  import opened Wrappers
  import opened Security
  import opened Tokens

  const PhoneExists: string := "Phone number already exists"
  const RoleNotFound: string := "Role not found"
  const InvalidLogin: string := "Invalid phone number or password"
  const WrongPassword: string := "Wrong phone number or password"
  const AccountLocked: string := "Your account has been locked!!"
  const TokenIsExpired: string := "Token is expired"
  const UserNotFound: string := "User not found"
  const RetypeRejected: string := "Password and retype password are different!!"
  /** Stands for the NullPointerException raised when no record holds the
      refresh value. */
  const NoRecordForRefresh: string := "existingToken is null"

  /** A user row.  Dates are day numbers. */
  datatype User = User(
    id: nat,
    fullName: string,
    phoneNumber: string,
    address: string,
    password: string,
    dateOfBirth: Option<int>,
    facebookAccountId: int,
    googleAccountId: int,
    active: bool,
    roleId: nat)

  /** The registration request. */
  datatype UserDTO = UserDTO(
    fullName: string,
    phoneNumber: string,
    address: string,
    password: string,
    retypePassword: string,
    dateOfBirth: Option<int>,
    facebookAccountId: int,
    googleAccountId: int,
    roleId: nat)

  /** The update request: `None` is a field left null. */
  datatype UpdateUserDTO = UpdateUserDTO(
    fullName: Option<string>,
    phoneNumber: Option<string>,
    address: Option<string>,
    dateOfBirth: Option<int>,
    facebookAccountId: int,
    googleAccountId: int,
    password: Option<string>,
    retypePassword: Option<string>)

  /** An account without a social login id authenticates by password. */
  predicate UsesPassword(u: User) {
    u.facebookAccountId == 0 && u.googleAccountId == 0
  }

  function IndexById(users: seq<User>, id: nat): (r: Option<nat>)
    ensures r.None? ==> forall i :: 0 <= i < |users| ==> users[i].id != id
    ensures r.Some? ==> r.value < |users| && users[r.value].id == id
  {
    if users == [] then None
    else if users[0].id == id then Some(0)
    else match IndexById(users[1..], id)
      case None => None
      case Some(k) => Some(k + 1)
  }

  /** existsByPhoneNumber / findByPhoneNumber. */
  function IndexByPhone(users: seq<User>, phone: string): (r: Option<nat>)
    ensures r.None? ==> forall i :: 0 <= i < |users| ==> users[i].phoneNumber != phone
    ensures r.Some? ==> r.value < |users| && users[r.value].phoneNumber == phone
  {
    if users == [] then None
    else if users[0].phoneNumber == phone then Some(0)
    else match IndexByPhone(users[1..], phone)
      case None => None
      case Some(k) => Some(k + 1)
  }

  predicate UniqueUserIds(users: seq<User>) {
    forall i, j :: 0 <= i < j < |users| ==> users[i].id != users[j].id
  }

  predicate UniquePhones(users: seq<User>) {
    forall i, j :: 0 <= i < j < |users| ==> users[i].phoneNumber != users[j].phoneNumber
  }

  /** The field-by-field merge of `updateUser`: text and date fields are
      overwritten only when given, social ids only when positive, the password
      (re-encoded) only when given. */
  function Patched(u: User, dto: UpdateUserDTO, encoder: PasswordEncoder): User {
    u.(fullName := dto.fullName.GetOr(u.fullName),
       phoneNumber := dto.phoneNumber.GetOr(u.phoneNumber),
       address := dto.address.GetOr(u.address),
       dateOfBirth := if dto.dateOfBirth.Some? then dto.dateOfBirth else u.dateOfBirth,
       facebookAccountId := if dto.facebookAccountId > 0 then dto.facebookAccountId else u.facebookAccountId,
       googleAccountId := if dto.googleAccountId > 0 then dto.googleAccountId else u.googleAccountId,
       password := if dto.password.Some? then encoder.encode(dto.password.value) else u.password)
  }

  /** A patch touches none of id, role and the active flag; each field takes
      the request's value when the request carries it (a positive social id,
      an encoded password) and is left alone otherwise. */
  lemma PatchedFields(u: User, dto: UpdateUserDTO, encoder: PasswordEncoder)
    ensures var p := Patched(u, dto, encoder);
      p.id == u.id && p.roleId == u.roleId && p.active == u.active
      && (dto.fullName.None? ==> p.fullName == u.fullName)
      && (dto.fullName.Some? ==> p.fullName == dto.fullName.value)
      && (dto.phoneNumber.None? ==> p.phoneNumber == u.phoneNumber)
      && (dto.phoneNumber.Some? ==> p.phoneNumber == dto.phoneNumber.value)
      && (dto.address.None? ==> p.address == u.address)
      && (dto.address.Some? ==> p.address == dto.address.value)
      && (dto.dateOfBirth.None? ==> p.dateOfBirth == u.dateOfBirth)
      && (dto.dateOfBirth.Some? ==> p.dateOfBirth == dto.dateOfBirth)
      && (dto.facebookAccountId <= 0 ==> p.facebookAccountId == u.facebookAccountId)
      && (dto.facebookAccountId > 0 ==> p.facebookAccountId == dto.facebookAccountId)
      && (dto.googleAccountId <= 0 ==> p.googleAccountId == u.googleAccountId)
      && (dto.googleAccountId > 0 ==> p.googleAccountId == dto.googleAccountId)
      && (dto.password.None? ==> p.password == u.password)
      && (dto.password.Some? ==> p.password == encoder.encode(dto.password.value))
  {
  }

  /** The token records that remain once every record of `u` is deleted. */
  function WithoutUser(rs: seq<Token>, u: nat): (r: seq<Token>)
    ensures forall t :: t in r <==> t in rs && t.user != u
  {
    if rs == [] then []
    else if rs[0].user == u then WithoutUser(rs[1..], u)
    else [rs[0]] + WithoutUser(rs[1..], u)
  }

  /** The records whose id is outside `ids`. */
  function WithoutIds(rs: seq<Token>, ids: set<nat>): (r: seq<Token>)
    ensures forall t :: t in r <==> t in rs && t.id !in ids
  {
    if rs == [] then []
    else if rs[0].id in ids then WithoutIds(rs[1..], ids)
    else [rs[0]] + WithoutIds(rs[1..], ids)
  }

  /** The ids of a list of records. */
  function IdsOf(ts: seq<Token>): (ids: set<nat>)
    ensures forall x :: x in ids <==> exists j :: 0 <= j < |ts| && ts[j].id == x
  {
    if ts == [] then {}
    else
      var init := ts[..|ts| - 1];
      assert forall j :: 0 <= j < |init| ==> init[j] == ts[j];
      IdsOf(init) + {ts[|ts| - 1].id}
  }

  lemma {:induction false} WithoutNoIds(rs: seq<Token>)
    ensures WithoutIds(rs, {}) == rs
  {
    if rs != [] {
      WithoutNoIds(rs[1..]);
    }
  }

  /** Deleting one more id extends the set of deleted ids. */
  lemma {:induction false} WithoutMore(rs: seq<Token>, ids: set<nat>, id: nat)
    ensures Without(WithoutIds(rs, ids), id) == WithoutIds(rs, ids + {id})
  {
    if rs != [] {
      WithoutMore(rs[1..], ids, id);
    }
  }

  /** One more turn of the deletion loop deletes the next id of the list. */
  lemma DeleteNext(rs: seq<Token>, ts: seq<Token>, k: nat)
    requires k < |ts|
    ensures Without(WithoutIds(rs, IdsOf(ts[..k])), ts[k].id) == WithoutIds(rs, IdsOf(ts[..k + 1]))
  {
    WithoutMore(rs, IdsOf(ts[..k]), ts[k].id);
    assert ts[..k + 1][..k] == ts[..k];
  }

  lemma {:induction false} WithoutIdsIsWithoutUser(rs: seq<Token>, ids: set<nat>, u: nat)
    requires forall t :: t in rs ==> (t.id in ids <==> t.user == u)
    ensures WithoutIds(rs, ids) == WithoutUser(rs, u)
  {
    if rs != [] {
      assert rs[0] in rs;
      WithoutIdsIsWithoutUser(rs[1..], ids, u);
    }
  }

  /** Deleting, one by one, the ids of a user's records removes exactly that
      user's records. */
  lemma DeletingOwnIds(rs: seq<Token>, u: nat)
    requires UniqueIds(rs)
    ensures WithoutIds(rs, IdsOf(OfUser(rs, u))) == WithoutUser(rs, u)
  {
    var mine := OfUser(rs, u);
    var ids := IdsOf(mine);
    OfUserMembers(rs, u);
    forall t | t in rs ensures t.id in ids <==> t.user == u {
      if t.user == u {
        var j :| 0 <= j < |mine| && mine[j] == t;
        assert t.id in ids;
      }
      if t.id in ids {
        var j :| 0 <= j < |mine| && mine[j].id == t.id;
        var a :| 0 <= a < |rs| && rs[a] == t;
        var b :| 0 <= b < |rs| && rs[b] == mine[j];
        assert a == b;
      }
    }
    WithoutIdsIsWithoutUser(rs, ids, u);
  }

  lemma {:induction false} OfUserWithoutUser(rs: seq<Token>, u: nat, v: nat)
    ensures OfUser(WithoutUser(rs, u), v) == if u == v then [] else OfUser(rs, v)
  {
    if rs != [] {
      OfUserWithoutUser(rs[1..], u, v);
    }
  }

  /** After the mass deletion the user holds nothing and no refresh value of
      theirs is found any more, while every other user keeps their list. */
  lemma LogoutEverywhere(rs: seq<Token>, u: nat)
    requires UniqueRefresh(rs)
    ensures OfUser(WithoutUser(rs, u), u) == []
    ensures forall v :: v != u ==> OfUser(WithoutUser(rs, u), v) == OfUser(rs, v)
    ensures forall t :: t in rs && t.user == u ==>
      FindByRefresh(WithoutUser(rs, u), t.refreshToken).None?
  {
    OfUserWithoutUser(rs, u, u);
    forall v | v != u ensures OfUser(WithoutUser(rs, u), v) == OfUser(rs, v) {
      OfUserWithoutUser(rs, u, v);
    }
    forall t | t in rs && t.user == u
      ensures FindByRefresh(WithoutUser(rs, u), t.refreshToken).None?
    {
    }
  }

  /** `UserService` over the user table (`users`, `nextId`), the set of
      known role ids, and the shared token table. */
  class UserService {
    var users: seq<User>
    var nextId: nat
    const roles: set<nat>
    const tokenRepository: TokenRepository

    ghost predicate Valid()
      reads this, tokenRepository
    {
      tokenRepository.Valid() && UniqueUserIds(users) && UniquePhones(users)
      && forall u :: u in users ==> u.id < nextId
    }

    constructor (roles: set<nat>, tokenRepository: TokenRepository)
      requires tokenRepository.Valid()
      ensures Valid() && users == [] && this.roles == roles
      ensures this.tokenRepository == tokenRepository
    {
      users := [];
      nextId := 0;
      this.roles := roles;
      this.tokenRepository := tokenRepository;
    }

    /** Registers a user: the phone number must be new and the role known;
        the account starts active and its password is encoded only when no
        social id is given. */
    method CreateUser(dto: UserDTO, encoder: PasswordEncoder) returns (r: Result<User>)
      requires Valid()
      modifies this
      ensures Valid()
      ensures IndexByPhone(old(users), dto.phoneNumber).Some? ==>
        r == Err(PhoneExists) && users == old(users)
      ensures IndexByPhone(old(users), dto.phoneNumber).None? && dto.roleId !in roles ==>
        r == Err(RoleNotFound) && users == old(users)
      ensures IndexByPhone(old(users), dto.phoneNumber).None? && dto.roleId in roles ==>
        r.Ok? && users == old(users) + [r.value]
        && r.value.id == old(nextId) && r.value.active && r.value.roleId == dto.roleId
        && r.value.phoneNumber == dto.phoneNumber && r.value.fullName == dto.fullName
        && r.value.address == dto.address && r.value.dateOfBirth == dto.dateOfBirth
        && r.value.facebookAccountId == dto.facebookAccountId
        && r.value.googleAccountId == dto.googleAccountId
        && r.value.password == (if dto.facebookAccountId == 0 && dto.googleAccountId == 0
                                then encoder.encode(dto.password) else dto.password)
    {
      if IndexByPhone(users, dto.phoneNumber).Some? {
        return Err(PhoneExists);
      }
      if dto.roleId !in roles {
        return Err(RoleNotFound);
      }
      var user := User(nextId, dto.fullName, dto.phoneNumber, dto.address, dto.password,
                       dto.dateOfBirth, dto.facebookAccountId, dto.googleAccountId, true, dto.roleId);
      if dto.facebookAccountId == 0 && dto.googleAccountId == 0 {
        user := user.(password := encoder.encode(dto.password));
      }
      users := users + [user];
      nextId := nextId + 1;
      r := Ok(user);
    }

    /** Login: unknown phone, then the password (password accounts only),
        then the active flag; on success a token for that phone. */
    function Login(phone: string, password: string, encoder: PasswordEncoder, jwt: JwtUtils)
      : (r: Result<string>)
      reads this
      ensures IndexByPhone(users, phone).None? ==> r == Err(InvalidLogin)
      ensures r.Ok? <==> exists i :: IndexByPhone(users, phone) == Some(i) && users[i].active
                          && (UsesPassword(users[i]) ==> encoder.matches(password, users[i].password))
      ensures r.Ok? ==> r.value == jwt.generate(phone)
      ensures forall i :: (IndexByPhone(users, phone) == Some(i) && UsesPassword(users[i])
                           && !encoder.matches(password, users[i].password)) ==> r == Err(WrongPassword)
      ensures forall i :: (IndexByPhone(users, phone) == Some(i) && !users[i].active
                           && (UsesPassword(users[i]) ==> encoder.matches(password, users[i].password)))
                          ==> r == Err(AccountLocked)
    {
      match IndexByPhone(users, phone)
      case None => Err(InvalidLogin)
      case Some(i) =>
        var user := users[i];
        if UsesPassword(user) && !encoder.matches(password, user.password) then Err(WrongPassword)
        else if !user.active then Err(AccountLocked)
        else Ok(jwt.generate(user.phoneNumber))
    }

    /** A social account's login does not depend on the password given. */
    lemma LoginIgnoresPasswordOfSocialAccount(phone: string, p1: string, p2: string,
                                              encoder: PasswordEncoder, jwt: JwtUtils)
      requires IndexByPhone(users, phone).Some? && !UsesPassword(users[IndexByPhone(users, phone).value])
      ensures Login(phone, p1, encoder, jwt) == Login(phone, p2, encoder, jwt)
    {
    }

    /** The user named by a token's subject; an expired token is refused
        before any lookup. */
    function GetUserDetailsFromToken(token: string, jwt: JwtUtils): (r: Result<User>)
      reads this
      ensures jwt.isExpired(token) ==> r == Err(TokenIsExpired)
      ensures r.Ok? <==> !jwt.isExpired(token) && IndexByPhone(users, jwt.phoneOf(token)).Some?
      ensures r.Ok? ==> r.value in users && r.value.phoneNumber == jwt.phoneOf(token)
      ensures !jwt.isExpired(token) && r.Err? ==> r.error == UserNotFound
    {
      if jwt.isExpired(token) then Err(TokenIsExpired)
      else match IndexByPhone(users, jwt.phoneOf(token))
        case Some(i) => Ok(users[i])
        case None => Err(UserNotFound)
    }

    /** The user of the access token stored beside a refresh value; it fails
        when that access token has expired, however fresh the refresh value. */
    function GetUserDetailsFromRefreshToken(refreshToken: string, jwt: JwtUtils): (r: Result<User>)
      reads this, tokenRepository
      ensures FindByRefresh(tokenRepository.records, refreshToken).None? ==> r == Err(NoRecordForRefresh)
      ensures forall i :: (FindByRefresh(tokenRepository.records, refreshToken) == Some(i)
                           && jwt.isExpired(tokenRepository.records[i].token)) ==> r == Err(TokenIsExpired)
      ensures forall i :: (FindByRefresh(tokenRepository.records, refreshToken) == Some(i)
                           && !jwt.isExpired(tokenRepository.records[i].token)
                           && IndexByPhone(users, jwt.phoneOf(tokenRepository.records[i].token)).None?) ==>
        r == Err(UserNotFound)
      ensures r.Ok? <==> exists i :: (FindByRefresh(tokenRepository.records, refreshToken) == Some(i)
                                   && !jwt.isExpired(tokenRepository.records[i].token)
                                   && IndexByPhone(users, jwt.phoneOf(tokenRepository.records[i].token)).Some?)
      ensures r.Ok? ==> r.value in users && exists i :: (FindByRefresh(tokenRepository.records, refreshToken) == Some(i)
                                  && r.value.phoneNumber == jwt.phoneOf(tokenRepository.records[i].token))
    {
      match FindByRefresh(tokenRepository.records, refreshToken)
      case None => Err(NoRecordForRefresh)
      case Some(i) => GetUserDetailsFromToken(tokenRepository.records[i].token, jwt)
    }

    /** Partial update.  The user must exist; a given phone number must not
        exist yet (not even as the user's own); a given password equal to the
        retype value is rejected, as written; otherwise `Patched`. */
    method UpdateUser(userId: nat, dto: UpdateUserDTO, encoder: PasswordEncoder)
      returns (r: Result<User>)
      requires Valid()
      modifies this
      ensures Valid() && nextId == old(nextId)
      ensures IndexById(old(users), userId).None? ==> r == Err(UserNotFound) && users == old(users)
      ensures IndexById(old(users), userId).Some? && dto.phoneNumber.Some?
                && IndexByPhone(old(users), dto.phoneNumber.value).Some? ==>
        r == Err(PhoneExists) && users == old(users)
      ensures r.Err? ==> users == old(users)
      ensures forall i :: (IndexById(old(users), userId) == Some(i)
                           && (dto.phoneNumber.Some? ==> IndexByPhone(old(users), dto.phoneNumber.value).None?)) ==>
        if dto.password.Some? && dto.retypePassword == dto.password
        then r == Err(RetypeRejected) && users == old(users)
        else r == Ok(Patched(old(users)[i], dto, encoder)) && users == old(users)[i := r.value]
    {
      var found := IndexById(users, userId);
      if found.None? {
        return Err(UserNotFound);
      }
      if dto.phoneNumber.Some? && IndexByPhone(users, dto.phoneNumber.value).Some? {
        return Err(PhoneExists);
      }
      if dto.password.Some? && dto.retypePassword == dto.password {
        return Err(RetypeRejected);
      }
      var i := found.value;
      var updated := Patched(users[i], dto, encoder);
      users := users[i := updated];
      r := Ok(updated);
    }

    /** Sets a new (encoded) password and deletes, one by one, every token
        the user owns; nobody else's tokens are touched. */
    method ResetPassword(userId: nat, newPassword: string, encoder: PasswordEncoder)
      returns (r: Result<()>)
      requires Valid()
      modifies this, tokenRepository
      ensures Valid() && nextId == old(nextId)
      ensures IndexById(old(users), userId).None? ==>
        r == Err(UserNotFound) && users == old(users)
        && tokenRepository.records == old(tokenRepository.records)
      ensures forall i :: IndexById(old(users), userId) == Some(i) ==>
        r == Ok(()) && users == old(users)[i := old(users)[i].(password := encoder.encode(newPassword))]
        && tokenRepository.records == WithoutUser(old(tokenRepository.records), userId)
    {
      var found := IndexById(users, userId);
      if found.None? {
        return Err(UserNotFound);
      }
      var i := found.value;
      users := users[i := users[i].(password := encoder.encode(newPassword))];
      var tokens := tokenRepository.FindByUser(userId);
      ghost var before := tokenRepository.records;
      WithoutNoIds(before);
      assert tokens[..0] == [];
      var k := 0;
      while k < |tokens|
        modifies tokenRepository
        invariant 0 <= k <= |tokens|
        invariant tokenRepository.Valid()
        invariant tokenRepository.records == WithoutIds(before, IdsOf(tokens[..k]))
      {
        DeleteNext(before, tokens, k);
        tokenRepository.Delete(tokens[k].id);
        k := k + 1;
      }
      assert tokens[..k] == tokens;
      DeletingOwnIds(before, userId);
      r := Ok(());
    }

    /** Sets the active flag and nothing else; tokens are left as they are. */
    method BlockOrEnable(userId: nat, active: bool) returns (r: Result<()>)
      requires Valid()
      modifies this
      ensures Valid() && nextId == old(nextId)
      ensures IndexById(old(users), userId).None? ==> r == Err(UserNotFound) && users == old(users)
      ensures forall i :: IndexById(old(users), userId) == Some(i) ==>
        r == Ok(()) && users == old(users)[i := old(users)[i].(active := active)]
      ensures tokenRepository.records == old(tokenRepository.records)
    {
      var found := IndexById(users, userId);
      if found.None? {
        return Err(UserNotFound);
      }
      users := users[found.value := users[found.value].(active := active)];
      r := Ok(());
    }
  }
}
