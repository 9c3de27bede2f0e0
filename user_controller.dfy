/** `UserController`: the HTTP layer over `UserService` and `TokenService`
    (registration retype check, device classification at login, refresh,
    bearer-header stripping, the self-only update, password reset and
    blocking). */
module UserController {
  import opened Wrappers
  import opened Security
  import opened Text
  import opened Tokens
  import opened Users
  import opened Http

  /** The login and refresh answer. */
  datatype LoginReply = LoginReply(
    token: string, tokenType: string, refreshToken: string,
    userId: nat, phoneNumber: string, roleId: nat)

  const PasswordMismatch: string := "Password does not match"
  const RegisterOk: string := "Register successfully"
  const LoginOk: string := "Login successfully"
  const RefreshOk: string := "Refresh token successfully"
  const NoPermission: string := "You have no permission"
  const EnabledMessage: string := "Successfully enabled the user."
  const BlockedMessage: string := "Successfully blocked the user."
  const ResetUserNotFound: string := "User not found"
  const BlockUserNotFound: string := "User not found."
  /** Stand for the JDK exception messages: a header shorter than seven
      characters, and a request without a User-Agent header. */
  const HeaderTooShort: string := "String index out of range"
  const NoUserAgent: string := "userAgent is null"
  const BearerPrefixLength: nat := 7
  const ResetPasswordLength: nat := 5

  /** A Java `List<String>`'s `toString`: the items between brackets, separated by ", ". */
  function ListText(items: seq<string>): (r: string)
    ensures |r| >= 2 && r[0] == '[' && r[|r| - 1] == ']'
    ensures |items| == 1 ==> r == "[" + items[0] + "]"
  {
    "[" + Items(items) + "]"
  }

  function Items(items: seq<string>): string {
    if items == [] then "" else if |items| == 1 then items[0] else items[0] + ", " + Items(items[1..])
  }

  /** `isMobileDevice`: the lower-cased User-Agent contains "mobile". */
  function IsMobileDevice(userAgent: string): bool {
    Contains(Lower(userAgent), "mobile")
  }

  /** The six characters of `userAgent` from `i` spell "mobile" in some mixture of cases. */
  predicate MobileAt(userAgent: string, i: int) {
    0 <= i <= |userAgent| - 6 && Lower(userAgent[i..i + 6]) == "mobile"
  }

  /** The classification ignores case: it holds exactly when some six
      characters of the header spell "mobile" in any mixture of cases. */
  lemma MobileInAnyCase(userAgent: string)
    ensures IsMobileDevice(userAgent) <==> exists i :: MobileAt(userAgent, i)
  {
    var lowered := Lower(userAgent);
    assert IsMobileDevice(userAgent) == Contains(lowered, "mobile");
    if IsMobileDevice(userAgent) {
      var i :| OccursAt(lowered, "mobile", i);
      LowerSlice(userAgent, i, i + 6);
      assert MobileAt(userAgent, i);
    }
    if exists i :: MobileAt(userAgent, i) {
      var i :| MobileAt(userAgent, i);
      LowerSlice(userAgent, i, i + 6);
      assert OccursAt(lowered, "mobile", i);
    }
  }

  /** Two headers equal up to case are classified alike. */
  lemma MobileIgnoresCase(a: string, b: string)
    requires Lower(a) == Lower(b)
    ensures IsMobileDevice(a) == IsMobileDevice(b)
  {
  }

  /** `authorizationHeader.substring(7)`: the header minus its first seven
      characters, whatever they are; a shorter header throws. */
  function ExtractBearer(header: string): (r: Option<string>)
    ensures r.Some? <==> |header| >= BearerPrefixLength
    ensures r.Some? ==> header == header[..BearerPrefixLength] + r.value
  {
    if |header| < BearerPrefixLength then None else Some(header[BearerPrefixLength..])
  }

  /** Any seven-character prefix is stripped, "Bearer " or not. */
  lemma ExtractAfterAnyPrefix(prefix: string, token: string)
    requires |prefix| == BearerPrefixLength
    ensures ExtractBearer(prefix + token) == Some(token)
  {
    assert (prefix + token)[BearerPrefixLength..] == token;
  }

  /** The generated reset password: the first five characters of a UUID
      string (which always has 36). */
  function ResetPasswordOf(uuid: string): (p: string)
    requires |uuid| == 36
    ensures |p| == ResetPasswordLength && StartsWith(uuid, p)
  {
    uuid[..ResetPasswordLength]
  }

  class UserController {
    const userService: UserService
    const tokenService: TokenService

    /** Both services share one token table. */
    ghost predicate Valid()
      reads this, userService, userService.tokenRepository
    {
      userService.Valid() && tokenService.repository == userService.tokenRepository
    }

    constructor (userService: UserService, tokenService: TokenService)
      requires userService.Valid() && tokenService.repository == userService.tokenRepository
      ensures Valid() && this.userService == userService && this.tokenService == tokenService
    {
      this.userService := userService;
      this.tokenService := tokenService;
    }

    /** Registration: the request's field errors (the messages its `@Valid`
        constraints produced, in order) are refused first, then a retype that
        differs, both before the service is called; a service failure becomes
        a server-error reply. */
    method CreateUser(dto: UserDTO, fieldErrors: seq<string>, encoder: PasswordEncoder)
      returns (reply: Reply<User>)
      requires Valid()
      modifies userService
      ensures Valid()
      ensures fieldErrors != [] ==>
        reply == Failure(BadRequest, ListText(fieldErrors)) && userService.users == old(userService.users)
      ensures fieldErrors == [] && dto.password != dto.retypePassword ==>
        reply == Failure(BadRequest, PasswordMismatch) && userService.users == old(userService.users)
      ensures reply.Success? ==>
        fieldErrors == [] && dto.password == dto.retypePassword && reply.message == RegisterOk
        && userService.users == old(userService.users) + [reply.value]
        && reply.value.phoneNumber == dto.phoneNumber && reply.value.active
      ensures reply.Failure? ==> userService.users == old(userService.users)
      ensures (fieldErrors == [] && dto.password == dto.retypePassword
               && IndexByPhone(old(userService.users), dto.phoneNumber).Some?) ==>
        reply == Failure(InternalServerError, PhoneExists)
      ensures (fieldErrors == [] && dto.password == dto.retypePassword
               && IndexByPhone(old(userService.users), dto.phoneNumber).None?
               && dto.roleId !in userService.roles) ==>
        reply == Failure(InternalServerError, RoleNotFound)
      ensures (fieldErrors == [] && dto.password == dto.retypePassword
               && IndexByPhone(old(userService.users), dto.phoneNumber).None?
               && dto.roleId in userService.roles) ==>
        reply.Success? && reply.value.id == old(userService.nextId)
        && reply.value.roleId == dto.roleId && reply.value.fullName == dto.fullName
        && reply.value.address == dto.address && reply.value.dateOfBirth == dto.dateOfBirth
        && reply.value.facebookAccountId == dto.facebookAccountId
        && reply.value.googleAccountId == dto.googleAccountId
        && reply.value.password == (if dto.facebookAccountId == 0 && dto.googleAccountId == 0
                                    then encoder.encode(dto.password) else dto.password)
    {
      if fieldErrors != [] {
        return Failure(BadRequest, ListText(fieldErrors));
      }
      if dto.password != dto.retypePassword {
        return Failure(BadRequest, PasswordMismatch);
      }
      var r := userService.CreateUser(dto, encoder);
      match r
      case Ok(user) => reply := Success(user, RegisterOk);
      case Err(e) => reply := Failure(InternalServerError, e);
    }

    /** Login: the service's check chain, then the user behind the new token,
        then the session record, classified by the User-Agent header. */
    method Login(phone: string, password: string, userAgent: Option<string>, now: int,
                 uuid: string, encoder: PasswordEncoder, jwt: JwtUtils)
      returns (reply: Reply<LoginReply>)
      requires Valid()
      requires forall s :: s in tokenService.repository.records ==> s.refreshToken != uuid
      modifies tokenService.repository
      ensures Valid()
      ensures reply.Failure? ==>
        reply.status == Unauthorized
        && tokenService.repository.records == old(tokenService.repository.records)
      ensures userService.Login(phone, password, encoder, jwt).Err? ==>
        reply == Failure(Unauthorized, userService.Login(phone, password, encoder, jwt).error)
      ensures userService.Login(phone, password, encoder, jwt).Ok?
              && userService.GetUserDetailsFromToken(jwt.generate(phone), jwt).Err? ==>
        reply == Failure(Unauthorized, userService.GetUserDetailsFromToken(jwt.generate(phone), jwt).error)
      ensures userService.Login(phone, password, encoder, jwt).Ok?
              && userService.GetUserDetailsFromToken(jwt.generate(phone), jwt).Ok? ==>
        (userAgent.None? <==> reply == Failure(Unauthorized, NoUserAgent))
        && (userAgent.Some? <==> reply.Success?)
      ensures reply.Success? ==>
        var token := jwt.generate(phone);
        var user := userService.GetUserDetailsFromToken(token, jwt);
        userService.Login(phone, password, encoder, jwt) == Ok(token)
        && user.Ok? && userAgent.Some? && reply.message == LoginOk
        && reply.value == LoginReply(token, BearerType, uuid, user.value.id,
                                     user.value.phoneNumber, user.value.roleId)
        && tokenService.repository.records ==
             Admit(old(tokenService.repository.records),
                   NewToken(user.value.id, token, IsMobileDevice(userAgent.value), now, uuid,
                            tokenService.expiration, tokenService.expirationRefreshToken)
                     .(id := old(tokenService.repository.nextId)))
    {
      var login := userService.Login(phone, password, encoder, jwt);
      if login.Err? {
        return Failure(Unauthorized, login.error);
      }
      var token := login.value;
      var details := userService.GetUserDetailsFromToken(token, jwt);
      if details.Err? {
        return Failure(Unauthorized, details.error);
      }
      if userAgent.None? {
        return Failure(Unauthorized, NoUserAgent);
      }
      var user := details.value;
      var record := tokenService.AddToToken(user.id, token, IsMobileDevice(userAgent.value), now, uuid);
      reply := Success(LoginReply(record.token, record.tokenType, record.refreshToken,
                                  user.id, user.phoneNumber, user.roleId), LoginOk);
    }

    /** Refresh: the user is found through the access token stored with the
        refresh value, so a record whose access token has expired is refused
        (and kept) before its refresh value is even looked at. */
    method RefreshToken(refreshToken: string, now: int, jwt: JwtUtils)
      returns (reply: Reply<LoginReply>)
      requires Valid()
      modifies tokenService.repository
      ensures Valid()
      ensures reply.Failure? ==> reply.status == Unauthorized
      ensures old(userService.GetUserDetailsFromRefreshToken(refreshToken, jwt)).Err? ==>
        reply == Failure(Unauthorized, old(userService.GetUserDetailsFromRefreshToken(refreshToken, jwt)).error)
        && tokenService.repository.records == old(tokenService.repository.records)
      ensures forall i :: (FindByRefresh(old(tokenService.repository.records), refreshToken) == Some(i)
                           && jwt.isExpired(old(tokenService.repository.records)[i].token)) ==>
        reply == Failure(Unauthorized, TokenIsExpired)
        && tokenService.repository.records == old(tokenService.repository.records)
      ensures old(userService.GetUserDetailsFromRefreshToken(refreshToken, jwt)).Ok? ==>
        var user := old(userService.GetUserDetailsFromRefreshToken(refreshToken, jwt)).value;
        var out := Refresh(old(tokenService.repository.records), refreshToken, now,
                           jwt.generate(user.phoneNumber),
                           tokenService.expiration, tokenService.expirationRefreshToken);
        tokenService.repository.records == out.records
        && (out.result.Err? ==> reply == Failure(Unauthorized, out.result.error))
        && (out.result.Ok? ==> reply == Success(
              LoginReply(out.result.value.token, out.result.value.tokenType,
                         out.result.value.refreshToken, user.id, user.phoneNumber, user.roleId),
              RefreshOk))
    {
      var details := userService.GetUserDetailsFromRefreshToken(refreshToken, jwt);
      if details.Err? {
        return Failure(Unauthorized, details.error);
      }
      var user := details.value;
      var r := tokenService.RefreshToken(refreshToken, user.phoneNumber, now, jwt);
      match r
      case Err(e) => reply := Failure(Unauthorized, e);
      case Ok(t) =>
        reply := Success(LoginReply(t.token, t.tokenType, t.refreshToken,
                                    user.id, user.phoneNumber, user.roleId), RefreshOk);
    }

    /** The caller's own record, found through the bearer header. */
    function GetUserDetails(header: string, jwt: JwtUtils): (reply: Reply<User>)
      reads this, userService
      ensures ExtractBearer(header).None? ==> reply == Failure(BadRequest, HeaderTooShort)
      ensures reply.Success? <==> ExtractBearer(header).Some?
                                  && userService.GetUserDetailsFromToken(ExtractBearer(header).value, jwt).Ok?
      ensures reply.Success? ==> reply.value in userService.users
      ensures reply.Failure? ==> reply.status == BadRequest
    {
      match ExtractBearer(header)
      case None => Failure(BadRequest, HeaderTooShort)
      case Some(token) =>
        match userService.GetUserDetailsFromToken(token, jwt)
        case Ok(user) => Success(user, "")
        case Err(e) => Failure(BadRequest, e)
    }

    /** A user may update only their own record: when the token's user is not
        `userId` the answer is Forbidden and `updateUser` is never called. */
    method UpdateUserDetails(userId: nat, dto: UpdateUserDTO, header: string,
                             jwt: JwtUtils, encoder: PasswordEncoder)
      returns (reply: Reply<User>)
      requires Valid()
      modifies userService
      ensures Valid()
      ensures (reply.Failure? && reply.status != BadRequest) ==> reply == Failure(Forbidden, NoPermission)
      ensures old(GetUserDetails(header, jwt)).Failure? ==>
        reply == old(GetUserDetails(header, jwt)) && userService.users == old(userService.users)
      ensures old(GetUserDetails(header, jwt)).Success? && old(GetUserDetails(header, jwt)).value.id != userId ==>
        reply == Failure(Forbidden, NoPermission) && userService.users == old(userService.users)
      ensures old(GetUserDetails(header, jwt)).Success? && old(GetUserDetails(header, jwt)).value.id == userId ==>
        IndexById(old(userService.users), userId).Some?
        && var i := IndexById(old(userService.users), userId).value;
        if dto.phoneNumber.Some? && IndexByPhone(old(userService.users), dto.phoneNumber.value).Some? then
          reply == Failure(BadRequest, PhoneExists)
        else if dto.password.Some? && dto.retypePassword == dto.password then
          reply == Failure(BadRequest, RetypeRejected)
        else
          reply == Success(Patched(old(userService.users)[i], dto, encoder), "")
          && userService.users == old(userService.users)[i := reply.value]
      ensures reply.Success? ==>
        old(GetUserDetails(header, jwt)).Success?
        && old(GetUserDetails(header, jwt)).value.id == userId
        && exists i :: (IndexById(old(userService.users), userId) == Some(i)
                        && reply.value == Patched(old(userService.users)[i], dto, encoder)
                        && userService.users == old(userService.users)[i := reply.value])
      ensures reply.Failure? ==> userService.users == old(userService.users)
    {
      var me := GetUserDetails(header, jwt);
      if me.Failure? {
        return me;
      }
      if me.value.id != userId {
        return Failure(Forbidden, NoPermission);
      }
      var r := userService.UpdateUser(userId, dto, encoder);
      match r
      case Ok(user) => reply := Success(user, "");
      case Err(e) => reply := Failure(BadRequest, e);
    }

    /** Reset: a five-character password cut from a UUID; the service logs
        the user out everywhere. */
    method ResetPassword(userId: nat, uuid: string, encoder: PasswordEncoder)
      returns (reply: Reply<string>)
      requires Valid() && |uuid| == 36
      modifies userService, userService.tokenRepository
      ensures Valid()
      ensures reply.Success? <==> IndexById(old(userService.users), userId).Some?
      ensures forall i :: IndexById(old(userService.users), userId) == Some(i) ==>
        userService.users == old(userService.users)[i := old(userService.users)[i].(password := encoder.encode(reply.value))]
        && userService.tokenRepository.records == WithoutUser(old(userService.tokenRepository.records), userId)
      ensures reply.Success? ==>
        |reply.value| == ResetPasswordLength
        && reply.value == uuid[..ResetPasswordLength]
        && reply.message == "New password: " + reply.value
        && OfUser(userService.tokenRepository.records, userId) == []
        && exists i :: (IndexById(old(userService.users), userId) == Some(i)
                        && i < |userService.users|
                        && userService.users[i].password == encoder.encode(reply.value))
      ensures reply.Failure? ==>
        reply == Failure(BadRequest, ResetUserNotFound)
        && userService.users == old(userService.users)
        && userService.tokenRepository.records == old(userService.tokenRepository.records)
      ensures forall v :: v != userId ==>
        OfUser(userService.tokenRepository.records, v) == OfUser(old(userService.tokenRepository.records), v)
    {
      ghost var before := userService.tokenRepository.records;
      var newPassword := ResetPasswordOf(uuid);
      var r := userService.ResetPassword(userId, newPassword, encoder);
      LogoutEverywhere(before, userId);
      if r.Err? {
        return Failure(BadRequest, ResetUserNotFound);
      }
      reply := Success(newPassword, "New password: " + newPassword);
    }

    /** `active > 0` enables, anything else blocks; only the flag changes. */
    method BlockOrEnable(userId: nat, active: int) returns (reply: Reply<()>)
      requires Valid()
      modifies userService
      ensures Valid()
      ensures reply.Success? <==> IndexById(old(userService.users), userId).Some?
      ensures reply.Success? ==>
        reply.message == (if active > 0 then EnabledMessage else BlockedMessage)
        && exists i :: (IndexById(old(userService.users), userId) == Some(i)
                        && userService.users == old(userService.users)[i := old(userService.users)[i].(active := active > 0)])
      ensures reply.Failure? ==>
        reply == Failure(BadRequest, BlockUserNotFound)
        && userService.users == old(userService.users)
      ensures userService.tokenRepository.records == old(userService.tokenRepository.records)
    {
      var r := userService.BlockOrEnable(userId, active > 0);
      if r.Err? {
        return Failure(BadRequest, BlockUserNotFound);
      }
      reply := Success((), if active > 0 then EnabledMessage else BlockedMessage);
    }
  }
}
