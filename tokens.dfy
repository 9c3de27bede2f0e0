/** The login-token store: one record per issued session, at most
    `MaxTokens` per user, with a deterministic eviction rule, and the
    refresh step that rewrites a record in place or deletes it when its
    refresh value has expired. */
module Tokens {
  import opened Wrappers
  import opened Security

  /** Per-user cap on stored tokens. */
  const MaxTokens: nat := 3
  const BearerType: string := "Bearer"
  const RefreshMissing: string := "Refresh token does not exist"
  const RefreshExpired: string := "Refresh token is expired"

  /** One stored session.  `user` is the owning user's id; the two dates
      are instants in seconds on the server clock. */
  datatype Token = Token(
    id: nat,
    user: nat,
    token: string,
    tokenType: string,
    revoked: bool,
    expired: bool,
    expirationDate: int,
    refreshToken: string,
    refreshExpirationDate: int,
    isMobile: bool)

  /** No two records share an id (the table's primary key). */
  predicate UniqueIds(rs: seq<Token>) {
    forall i, j :: 0 <= i < j < |rs| ==> rs[i].id != rs[j].id
  }

  /** No two records share a refresh value (each is a fresh UUID). */
  predicate UniqueRefresh(rs: seq<Token>) {
    forall i, j :: 0 <= i < j < |rs| ==> rs[i].refreshToken != rs[j].refreshToken
  }

  lemma HeadIsUnique(rs: seq<Token>)
    requires |rs| > 0
    ensures UniqueIds(rs) ==> forall t :: t in rs[1..] ==> t.id != rs[0].id
    ensures UniqueRefresh(rs) ==> forall t :: t in rs[1..] ==> t.refreshToken != rs[0].refreshToken
  {
    forall t | t in rs[1..] ensures UniqueIds(rs) ==> t.id != rs[0].id
      ensures UniqueRefresh(rs) ==> t.refreshToken != rs[0].refreshToken
    {
      var k :| 0 <= k < |rs[1..]| && rs[1..][k] == t;
      assert rs[k + 1] == t;
    }
  }

  lemma TailUnique(rs: seq<Token>)
    requires |rs| > 0
    ensures UniqueIds(rs) ==> UniqueIds(rs[1..])
    ensures UniqueRefresh(rs) ==> UniqueRefresh(rs[1..])
  {
    forall i, j | 0 <= i < j < |rs| - 1 ensures rs[1..][i] == rs[i + 1] && rs[1..][j] == rs[j + 1] {
    }
  }

  /** findByUser: the records of user `u`, in store order. */
  function OfUser(rs: seq<Token>, u: nat): (r: seq<Token>)
    ensures |r| <= |rs|
  {
    if rs == [] then []
    else if rs[0].user == u then [rs[0]] + OfUser(rs[1..], u)
    else OfUser(rs[1..], u)
  }

  /** findByUser returns exactly the records of `u`. */
  lemma {:induction false} OfUserMembers(rs: seq<Token>, u: nat)
    ensures forall t :: t in OfUser(rs, u) <==> t in rs && t.user == u
  {
    if rs != [] {
      OfUserMembers(rs[1..], u);
      assert rs == [rs[0]] + rs[1..];
    }
  }

  /** A user's records carry unique ids when the whole store does. */
  lemma {:induction false} OfUserUnique(rs: seq<Token>, u: nat)
    requires UniqueIds(rs)
    ensures UniqueIds(OfUser(rs, u))
  {
    if rs != [] {
      TailUnique(rs);
      OfUserUnique(rs[1..], u);
      if rs[0].user == u {
        HeadIsUnique(rs);
        OfUserMembers(rs[1..], u);
        ConsUnique(rs[0], OfUser(rs[1..], u));
      }
    }
  }

  /** Repository delete: every record except the one with this id. */
  function Without(rs: seq<Token>, id: nat): (r: seq<Token>)
    ensures |r| <= |rs|
  {
    if rs == [] then []
    else if rs[0].id == id then Without(rs[1..], id)
    else [rs[0]] + Without(rs[1..], id)
  }

  /** Delete removes the records with that id and keeps all others. */
  lemma {:induction false} WithoutMembers(rs: seq<Token>, id: nat)
    ensures forall t :: t in Without(rs, id) <==> t in rs && t.id != id
  {
    if rs != [] {
      WithoutMembers(rs[1..], id);
      assert rs == [rs[0]] + rs[1..];
    }
  }

  /** Delete keeps ids and refresh values unique. */
  lemma {:induction false} WithoutUnique(rs: seq<Token>, id: nat)
    requires UniqueIds(rs) && UniqueRefresh(rs)
    ensures UniqueIds(Without(rs, id)) && UniqueRefresh(Without(rs, id))
  {
    if rs != [] {
      TailUnique(rs);
      WithoutUnique(rs[1..], id);
      if rs[0].id != id {
        HeadIsUnique(rs);
        WithoutMembers(rs[1..], id);
        ConsUnique(rs[0], Without(rs[1..], id));
      }
    }
  }

  /** Putting a record in front of records whose ids and refresh values
      all differ from its own keeps both unique. */
  lemma ConsUnique(x: Token, rs: seq<Token>)
    ensures UniqueIds(rs) && (forall t :: t in rs ==> t.id != x.id) ==> UniqueIds([x] + rs)
    ensures UniqueRefresh(rs) && (forall t :: t in rs ==> t.refreshToken != x.refreshToken)
            ==> UniqueRefresh([x] + rs)
  {
    var s := [x] + rs;
    forall j | 0 < j < |s| ensures s[j] == rs[j - 1] && s[j] in rs {
    }
  }

  predicate AllMobile(ts: seq<Token>) {
    forall i :: 0 <= i < |ts| ==> ts[i].isMobile
  }

  /** `filter(!isMobile).findFirst()`: the position of the first non-mobile token. */
  function FirstNonMobile(ts: seq<Token>): (k: nat)
    requires !AllMobile(ts)
    ensures k < |ts| && !ts[k].isMobile
    ensures forall j :: 0 <= j < k ==> ts[j].isMobile
  {
    if !ts[0].isMobile then 0 else 1 + FirstNonMobile(ts[1..])
  }

  /** The eviction rule: the first non-mobile token if there is one,
      otherwise the first token. */
  function VictimIndex(ts: seq<Token>): (k: nat)
    requires |ts| > 0
    ensures k < |ts|
    ensures !AllMobile(ts) ==> !ts[k].isMobile && forall j :: 0 <= j < k ==> ts[j].isMobile
    ensures AllMobile(ts) ==> k == 0
  {
    if AllMobile(ts) then 0 else FirstNonMobile(ts)
  }

  /** The store after admitting `t`: when its user already holds
      `MaxTokens` or more records, the victim is deleted first; `t` is
      saved last. */
  function Admit(rs: seq<Token>, t: Token): seq<Token> {
    var mine := OfUser(rs, t.user);
    if |mine| >= MaxTokens then Without(rs, mine[VictimIndex(mine)].id) + [t] else rs + [t]
  }

  lemma {:induction false} WithoutAbsent(rs: seq<Token>, id: nat)
    requires forall t :: t in rs ==> t.id != id
    ensures Without(rs, id) == rs
  {
    if rs != [] {
      WithoutAbsent(rs[1..], id);
    }
  }

  /** With unique ids, deleting the id of the record at `k` removes exactly that record. */
  lemma {:induction false} WithoutAt(rs: seq<Token>, k: nat)
    requires UniqueIds(rs) && k < |rs|
    ensures Without(rs, rs[k].id) == rs[..k] + rs[k + 1..]
  {
    HeadIsUnique(rs);
    var id := rs[k].id;
    if k == 0 {
      WithoutAbsent(rs[1..], id);
    } else {
      assert rs[0].id != id;
      TailUnique(rs);
      var tail := rs[1..];
      assert tail[k - 1] == rs[k];
      WithoutAt(tail, k - 1);
      assert Without(rs, id) == [rs[0]] + Without(tail, id);
      assert tail[..k - 1] == rs[1..k] && tail[k..] == rs[k + 1..];
      assert [rs[0]] + rs[1..k] == rs[..k];
    }
  }

  lemma {:induction false} OfUserWithout(rs: seq<Token>, u: nat, id: nat)
    ensures OfUser(Without(rs, id), u) == Without(OfUser(rs, u), id)
  {
    if rs != [] {
      OfUserWithout(rs[1..], u, id);
    }
  }

  lemma {:induction false} OfUserAppend(rs: seq<Token>, t: Token, u: nat)
    ensures OfUser(rs + [t], u) == OfUser(rs, u) + (if t.user == u then [t] else [])
  {
    if rs == [] {
      assert rs + [t] == [t];
    } else {
      assert (rs + [t])[1..] == rs[1..] + [t];
      OfUserAppend(rs[1..], t, u);
    }
  }

  /** What the admitted user holds afterwards: their old list, minus the
      victim when they were at the cap, with `t` at the end. */
  lemma AdmitOwnTokens(rs: seq<Token>, t: Token)
    requires UniqueIds(rs)
    ensures var mine := OfUser(rs, t.user);
      OfUser(Admit(rs, t), t.user) ==
        (if |mine| >= MaxTokens
         then mine[..VictimIndex(mine)] + mine[VictimIndex(mine) + 1..]
         else mine) + [t]
  {
    var mine := OfUser(rs, t.user);
    if |mine| >= MaxTokens {
      OfUserUnique(rs, t.user);
      var k := VictimIndex(mine);
      OfUserAppend(Without(rs, mine[k].id), t, t.user);
      OfUserWithout(rs, t.user, mine[k].id);
      WithoutAt(mine, k);
    } else {
      OfUserAppend(rs, t, t.user);
    }
  }

  /** Admission deletes one record at the cap and none below it, so the count
      stays the same at or above the cap and grows by one below it. */
  lemma AdmitCount(rs: seq<Token>, t: Token)
    requires UniqueIds(rs)
    ensures var n := |OfUser(rs, t.user)|;
      |OfUser(Admit(rs, t), t.user)| == if n >= MaxTokens then n else n + 1
  {
    AdmitOwnTokens(rs, t);
  }

  /** The capacity invariant: a user holding at most `MaxTokens` records
      still holds at most `MaxTokens` after an admission. */
  lemma AdmitKeepsCap(rs: seq<Token>, t: Token)
    requires UniqueIds(rs)
    requires |OfUser(rs, t.user)| <= MaxTokens
    ensures |OfUser(Admit(rs, t), t.user)| <= MaxTokens
  {
    AdmitCount(rs, t);
  }

  /** At the cap, with some non-mobile token: the one evicted is the first
      non-mobile token (`FirstNonMobile` is the position of the first token that
      is not mobile). */
  lemma AdmitEvictsFirstNonMobile(rs: seq<Token>, t: Token)
    requires UniqueIds(rs)
    requires |OfUser(rs, t.user)| >= MaxTokens && !AllMobile(OfUser(rs, t.user))
    ensures var mine := OfUser(rs, t.user);
      var k := FirstNonMobile(mine);
      OfUser(Admit(rs, t), t.user) == mine[..k] + mine[k + 1..] + [t]
  {
    AdmitOwnTokens(rs, t);
  }

  /** At the cap, with every token mobile: the oldest token is evicted. */
  lemma AdmitEvictsOldestMobile(rs: seq<Token>, t: Token)
    requires UniqueIds(rs)
    requires |OfUser(rs, t.user)| >= MaxTokens && AllMobile(OfUser(rs, t.user))
    ensures OfUser(Admit(rs, t), t.user) == OfUser(rs, t.user)[1..] + [t]
  {
    AdmitOwnTokens(rs, t);
  }

  /** Below the cap nothing is deleted: `t` is simply saved. */
  lemma AdmitBelowCap(rs: seq<Token>, t: Token)
    requires |OfUser(rs, t.user)| < MaxTokens
    ensures Admit(rs, t) == rs + [t]
  {
  }

  /** Other users' tokens are never touched by an admission. */
  lemma AdmitOthers(rs: seq<Token>, t: Token, u: nat)
    requires UniqueIds(rs) && u != t.user
    ensures OfUser(Admit(rs, t), u) == OfUser(rs, u)
  {
    var mine := OfUser(rs, t.user);
    if |mine| >= MaxTokens {
      var victim := mine[VictimIndex(mine)];
      OfUserMembers(rs, t.user);
      OfUserMembers(rs, u);
      OfUserAppend(Without(rs, victim.id), t, u);
      OfUserWithout(rs, u, victim.id);
      forall s | s in OfUser(rs, u) ensures s.id != victim.id {
        var i :| 0 <= i < |rs| && rs[i] == s;
        var j :| 0 <= j < |rs| && rs[j] == victim;
        assert i != j;
      }
      WithoutAbsent(OfUser(rs, u), victim.id);
    } else {
      OfUserAppend(rs, t, u);
    }
  }

  /** At the cap exactly one record of the whole store is deleted: the
      victim, wherever it sits. */
  lemma AdmitDeletesOne(rs: seq<Token>, t: Token)
    requires UniqueIds(rs) && |OfUser(rs, t.user)| >= MaxTokens
    ensures var mine := OfUser(rs, t.user);
      exists j :: 0 <= j < |rs| && rs[j] == mine[VictimIndex(mine)]
        && Admit(rs, t) == rs[..j] + rs[j + 1..] + [t]
  {
    var mine := OfUser(rs, t.user);
    var victim := mine[VictimIndex(mine)];
    OfUserMembers(rs, t.user);
    var j :| 0 <= j < |rs| && rs[j] == victim;
    WithoutAt(rs, j);
  }

  /** The record `addToToken` builds before saving it (the id is assigned on save). */
  function NewToken(user: nat, token: string, isMobile: bool, now: int, uuid: string,
                    expiration: int, expirationRefreshToken: int): Token
  {
    Token(0, user, token, BearerType, false, false, now + expiration,
          uuid, now + expirationRefreshToken, isMobile)
  }

  /** findByRefreshToken: the position of the record holding refresh value `v`. */
  function FindByRefresh(rs: seq<Token>, v: string): (r: Option<nat>)
    ensures r.None? ==> forall i :: 0 <= i < |rs| ==> rs[i].refreshToken != v
    ensures r.Some? ==> r.value < |rs| && rs[r.value].refreshToken == v
    ensures r.Some? ==> forall j :: 0 <= j < r.value ==> rs[j].refreshToken != v
  {
    if rs == [] then None
    else if rs[0].refreshToken == v then Some(0)
    else match FindByRefresh(rs[1..], v)
      case None => None
      case Some(k) => Some(k + 1)
  }

  /** A record after a successful refresh: a new access token and both
      expiries recomputed from now; the refresh value is written back
      unchanged. */
  function Renewed(t: Token, jwt: string, now: int, expiration: int, expirationRefreshToken: int): Token {
    t.(token := jwt, expirationDate := now + expiration,
       refreshExpirationDate := now + expirationRefreshToken)
  }

  /** The store and the result after `refreshToken`. */
  datatype Refreshed = Refreshed(records: seq<Token>, result: Result<Token>)

  function Refresh(rs: seq<Token>, v: string, now: int, jwt: string,
                   expiration: int, expirationRefreshToken: int): Refreshed
  {
    match FindByRefresh(rs, v)
    case None => Refreshed(rs, Err(RefreshMissing))
    case Some(i) =>
      if rs[i].refreshExpirationDate < now then
        Refreshed(Without(rs, rs[i].id), Err(RefreshExpired))
      else
        var t := Renewed(rs[i], jwt, now, expiration, expirationRefreshToken);
        Refreshed(rs[i := t], Ok(t))
  }

  /** An unknown refresh value fails and changes nothing. */
  lemma RefreshUnknown(rs: seq<Token>, v: string, now: int, jwt: string, e: int, er: int)
    requires forall t :: t in rs ==> t.refreshToken != v
    ensures Refresh(rs, v, now, jwt, e, er) == Refreshed(rs, Err(RefreshMissing))
  {
  }

  /** An expired refresh value fails, its record is gone (one record fewer) and
      a later lookup by the same value finds nothing. */
  lemma RefreshExpiredForgets(rs: seq<Token>, v: string, now: int, jwt: string, e: int, er: int)
    requires UniqueIds(rs) && UniqueRefresh(rs)
    requires FindByRefresh(rs, v).Some? && rs[FindByRefresh(rs, v).value].refreshExpirationDate < now
    ensures var out := Refresh(rs, v, now, jwt, e, er);
      out.result == Err(RefreshExpired) && |out.records| == |rs| - 1
      && FindByRefresh(out.records, v).None?
  {
    var i := FindByRefresh(rs, v).value;
    WithoutAt(rs, i);
    var rest := rs[..i] + rs[i + 1..];
    forall j | 0 <= j < |rest| ensures rest[j].refreshToken != v {
      if j < i { assert rest[j] == rs[j]; } else { assert rest[j] == rs[j + 1]; }
    }
  }

  lemma {:induction false} OfUserUpdate(rs: seq<Token>, i: nat, x: Token, u: nat)
    requires i < |rs| && x.user == rs[i].user
    ensures |OfUser(rs[i := x], u)| == |OfUser(rs, u)|
  {
    if i > 0 {
      assert rs[i := x][1..] == rs[1..][i - 1 := x];
      OfUserUpdate(rs[1..], i - 1, x, u);
    } else {
      assert rs[i := x][1..] == rs[1..];
    }
  }

  /** A successful refresh rewrites one record in place: new access token,
      both expiries from now, and the same refresh value, owner, device
      class, position and record counts. */
  lemma RefreshSuccess(rs: seq<Token>, v: string, now: int, jwt: string, e: int, er: int)
    requires FindByRefresh(rs, v).Some? && now <= rs[FindByRefresh(rs, v).value].refreshExpirationDate
    ensures var i := FindByRefresh(rs, v).value;
      var out := Refresh(rs, v, now, jwt, e, er);
      out.result.Ok? && out.records == rs[i := out.result.value]
      && out.result.value.token == jwt
      && out.result.value.expirationDate == now + e
      && out.result.value.refreshExpirationDate == now + er
      && out.result.value.refreshToken == v
      && out.result.value.user == rs[i].user && out.result.value.id == rs[i].id
      && out.result.value.isMobile == rs[i].isMobile
      && |out.records| == |rs|
      && (forall u :: |OfUser(out.records, u)| == |OfUser(rs, u)|)
      && FindByRefresh(out.records, v) == Some(i)
  {
    var i := FindByRefresh(rs, v).value;
    var t := Renewed(rs[i], jwt, now, e, er);
    forall u ensures |OfUser(rs[i := t], u)| == |OfUser(rs, u)| {
      OfUserUpdate(rs, i, t, u);
    }
    assert forall j :: 0 <= j < i ==> rs[i := t][j] == rs[j];
  }

  /** The refresh window outlives the access window on every record, provided
      the configured refresh lifetime is the longer one; admission and refresh
      keep it so. */
  predicate WindowsOrdered(rs: seq<Token>) {
    forall t :: t in rs ==> t.expirationDate < t.refreshExpirationDate
  }

  lemma AdmitKeepsWindows(rs: seq<Token>, user: nat, token: string, isMobile: bool, now: int,
                          uuid: string, e: int, er: int, id: nat)
    requires e < er && WindowsOrdered(rs)
    ensures WindowsOrdered(Admit(rs, NewToken(user, token, isMobile, now, uuid, e, er).(id := id)))
  {
    var mine := OfUser(rs, user);
    if |mine| >= MaxTokens {
      WithoutMembers(rs, mine[VictimIndex(mine)].id);
    }
  }

  lemma RefreshKeepsWindows(rs: seq<Token>, v: string, now: int, jwt: string, e: int, er: int)
    requires e < er && WindowsOrdered(rs)
    ensures WindowsOrdered(Refresh(rs, v, now, jwt, e, er).records)
  {
    var out := Refresh(rs, v, now, jwt, e, er);
    match FindByRefresh(rs, v)
    case None =>
    case Some(i) =>
      WithoutMembers(rs, rs[i].id);
      forall t | t in out.records ensures t.expirationDate < t.refreshExpirationDate {
        if rs[i].refreshExpirationDate >= now {
          var j :| 0 <= j < |out.records| && out.records[j] == t;
          if j != i { assert t == rs[j]; }
        }
      }
  }

  /** The token table (`TokenRepository`): records in insertion order and the
      next id the database will assign. */
  class TokenRepository {
    var records: seq<Token>
    var nextId: nat

    ghost predicate Valid()
      reads this
    {
      UniqueIds(records) && UniqueRefresh(records) && forall t :: t in records ==> t.id < nextId
    }

    constructor ()
      ensures Valid() && records == [] && nextId == 0
    {
      records := [];
      nextId := 0;
    }

    method FindByUser(u: nat) returns (ts: seq<Token>)
      ensures ts == OfUser(records, u)
    {
      ts := OfUser(records, u);
    }

    /** The position of the managed record holding refresh value `v`, if any. */
    method FindByRefreshToken(v: string) returns (r: Option<nat>)
      ensures r == FindByRefresh(records, v)
    {
      r := FindByRefresh(records, v);
    }

    method Delete(id: nat)
      requires Valid()
      modifies this
      ensures Valid() && nextId == old(nextId)
      ensures records == Without(old(records), id)
    {
      WithoutMembers(records, id);
      WithoutUnique(records, id);
      records := Without(records, id);
    }

    /** Saves a new record under a freshly assigned id. */
    method Save(t: Token) returns (saved: Token)
      requires Valid()
      requires forall s :: s in records ==> s.refreshToken != t.refreshToken
      modifies this
      ensures Valid()
      ensures saved == t.(id := old(nextId)) && nextId == old(nextId) + 1
      ensures records == old(records) + [saved]
    {
      saved := t.(id := nextId);
      records := records + [saved];
      nextId := nextId + 1;
    }

    /** Writes back a managed record changed through its setters; id and
        refresh value stay what they were. */
    method Put(i: nat, t: Token)
      requires Valid() && i < |records|
      requires t.id == records[i].id && t.refreshToken == records[i].refreshToken
      modifies this
      ensures Valid() && nextId == old(nextId)
      ensures records == old(records)[i := t]
    {
      records := records[i := t];
    }
  }

  /** `TokenService`: admission at login and refresh. */
  class TokenService {
    const repository: TokenRepository
    const expiration: int
    const expirationRefreshToken: int

    constructor (repository: TokenRepository, expiration: int, expirationRefreshToken: int)
      ensures this.repository == repository
      ensures this.expiration == expiration && this.expirationRefreshToken == expirationRefreshToken
    {
      this.repository := repository;
      this.expiration := expiration;
      this.expirationRefreshToken := expirationRefreshToken;
    }

    /** Stores a new session for `user`; `uuid` is the freshly generated
        refresh value and `now` the clock reading. */
    method AddToToken(user: nat, token: string, isMobile: bool, now: int, uuid: string)
      returns (t: Token)
      requires repository.Valid()
      requires forall s :: s in repository.records ==> s.refreshToken != uuid
      modifies repository
      ensures repository.Valid()
      ensures t == NewToken(user, token, isMobile, now, uuid, expiration, expirationRefreshToken)
                     .(id := old(repository.nextId))
      ensures repository.records == Admit(old(repository.records), t)
    {
      var userTokens := repository.FindByUser(user);
      if |userTokens| >= MaxTokens {
        var victim := userTokens[VictimIndex(userTokens)];
        WithoutMembers(repository.records, victim.id);
        repository.Delete(victim.id);
      }
      t := repository.Save(NewToken(user, token, isMobile, now, uuid, expiration, expirationRefreshToken));
    }

    /** Refreshes the session holding `refreshToken`; `phone` is the phone
        number of the user the new access token is generated for. */
    method RefreshToken(refreshToken: string, phone: string, now: int, jwt: JwtUtils)
      returns (r: Result<Token>)
      requires repository.Valid()
      modifies repository
      ensures repository.Valid()
      ensures Refreshed(repository.records, r)
        == Refresh(old(repository.records), refreshToken, now, jwt.generate(phone),
                   expiration, expirationRefreshToken)
    {
      var found := repository.FindByRefreshToken(refreshToken);
      if found.None? {
        return Err(RefreshMissing);
      }
      var existing := repository.records[found.value];
      if existing.refreshExpirationDate < now {
        repository.Delete(existing.id);
        return Err(RefreshExpired);
      }
      var token := jwt.generate(phone);
      var updated := existing.(token := token, expirationDate := now + expiration,
                               refreshToken := refreshToken,
                               refreshExpirationDate := now + expirationRefreshToken);
      repository.Put(found.value, updated);
      r := Ok(updated);
    }
  }
}
