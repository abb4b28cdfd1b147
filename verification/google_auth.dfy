/** The Google sign-in service: links a Google login to a user, and hands
    out a usable Google access token, renewing it with the refresh token
    when the stored one has expired. */
module GoogleAuth {
  import opened Base

  type AccountId = nat

  /** A row of the Google account table. */
  datatype GoogleAccount = GoogleAccount(
    id: AccountId,
    userId: UserId,
    googleId: string,
    email: string,
    accessToken: Option<string>,
    refreshToken: Option<string>,
    expiresAt: Option<Instant>)

  /** `GoogleOAuthPayload`: what a completed Google login delivers. */
  datatype Payload = Payload(
    googleId: string, email: string, name: string, accessToken: string,
    refreshToken: Option<string>, expiresIn: Option<int>)

  /** The answer of Google's token endpoint to a refresh request: a failure
      (the call throws), or the credentials it returned, any of which may be
      missing. */
  datatype RefreshOutcome =
    | RefreshFailed
    | Refreshed(accessToken: Option<string>, refreshToken: Option<string>, expiryDate: Option<Instant>)

  /** What `getAccessToken` does with the account it found. */
  datatype TokenStep =
    | UseStored(token: string)
    | Renewed(token: string, account: GoogleAccount)
    | GiveUp

  /** The expiry of a login's access token: `expiresIn` seconds from now, or
      one hour from now when `expiresIn` is absent or zero. */
  function ExpiryFromNow(expiresIn: Option<int>, now: Instant): (r: Instant)
    ensures expiresIn.None? || expiresIn.value == 0 ==> r == now + HourMs
    ensures expiresIn.Some? && expiresIn.value != 0 ==> r == now + expiresIn.value * 1000
    ensures (expiresIn.None? || expiresIn.value >= 0) ==> r > now
  {
    if expiresIn.Some? && expiresIn.value != 0 then now + expiresIn.value * 1000 else now + HourMs
  }

  /** The refresh token a new account stores: the login's, when it is not
      blank, and otherwise the empty string. */
  function InitialRefreshToken(refreshToken: Option<string>): (r: string)
    ensures NonBlank(Some(r)) <==> NonBlank(refreshToken)
    ensures r == "" || Some(r) == refreshToken
  {
    if NonBlank(refreshToken) then refreshToken.value else ""
  }

  /** A Google account that a login creates for user `userId`. */
  function NewAccount(id: AccountId, userId: UserId, payload: Payload, now: Instant): (r: GoogleAccount)
    ensures r.userId == userId && r.googleId == payload.googleId && r.email == payload.email
    ensures r.accessToken == Some(payload.accessToken) && r.expiresAt == Some(ExpiryFromNow(payload.expiresIn, now))
    ensures NonBlank(r.refreshToken) <==> NonBlank(payload.refreshToken)
  {
    GoogleAccount(id, userId, payload.googleId, payload.email, Some(payload.accessToken),
                  Some(InitialRefreshToken(payload.refreshToken)), Some(ExpiryFromNow(payload.expiresIn, now)))
  }

  /** A known Google account after a new login: the access token and its
      expiry are replaced; the refresh token only when the login brought a
      non-blank one, so a usable refresh token is never lost. */
  function LoginUpdate(a: GoogleAccount, payload: Payload, now: Instant): (r: GoogleAccount)
    ensures r.id == a.id && r.userId == a.userId && r.googleId == a.googleId && r.email == a.email
    ensures r.accessToken == Some(payload.accessToken) && r.expiresAt == Some(ExpiryFromNow(payload.expiresIn, now))
    ensures NonBlank(payload.refreshToken) ==> r.refreshToken == payload.refreshToken
    ensures !NonBlank(payload.refreshToken) ==> r.refreshToken == a.refreshToken
    ensures NonBlank(a.refreshToken) ==> NonBlank(r.refreshToken)
  {
    a.(accessToken := Some(payload.accessToken),
       expiresAt := Some(ExpiryFromNow(payload.expiresIn, now)),
       refreshToken := if NonBlank(payload.refreshToken) then payload.refreshToken else a.refreshToken)
  }

  /** `googleAccount.updateMany({ where: { googleId } })` with a login. */
  function RefreshLogins(accounts: seq<GoogleAccount>, payload: Payload, now: Instant): (r: seq<GoogleAccount>)
    ensures |r| == |accounts|
    ensures forall i :: 0 <= i < |r| && accounts[i].googleId == payload.googleId ==> r[i] == LoginUpdate(accounts[i], payload, now)
    ensures forall i :: 0 <= i < |r| && accounts[i].googleId != payload.googleId ==> r[i] == accounts[i]
    ensures forall i :: 0 <= i < |r| ==>
      r[i].id == accounts[i].id && r[i].userId == accounts[i].userId && r[i].googleId == accounts[i].googleId
    ensures forall i :: 0 <= i < |r| && accounts[i].googleId == payload.googleId ==>
      r[i].accessToken == Some(payload.accessToken) && r[i].expiresAt == Some(ExpiryFromNow(payload.expiresIn, now))
    ensures forall i :: 0 <= i < |r| && NonBlank(accounts[i].refreshToken) ==> NonBlank(r[i].refreshToken)
  {
    seq(|accounts|, i requires 0 <= i < |accounts| =>
      if accounts[i].googleId == payload.googleId then LoginUpdate(accounts[i], payload, now) else accounts[i])
  }

  /** The stored access token may be used: it is present, not empty, and
      its expiry lies after `now`. */
  predicate StoredTokenValid(a: GoogleAccount, now: Instant) {
    Truthy(a.accessToken) && a.expiresAt.Some? && a.expiresAt.value > now
  }

  /** The decision `getAccessToken` takes for account `a` at `now`, given
      what the token endpoint would answer. */
  function AccessTokenStep(a: GoogleAccount, now: Instant, outcome: RefreshOutcome): (r: TokenStep)
    ensures r.UseStored? <==> StoredTokenValid(a, now)
    ensures r.UseStored? ==> r.token == a.accessToken.value
    ensures r.Renewed? <==>
      !StoredTokenValid(a, now) && NonBlank(a.refreshToken) && outcome.Refreshed? && Truthy(outcome.accessToken)
    ensures r.Renewed? ==>
      && r.token == outcome.accessToken.value && r.token != ""
      && r.account.id == a.id && r.account.userId == a.userId && r.account.googleId == a.googleId && r.account.email == a.email
      && r.account.accessToken == Some(r.token)
      && r.account.refreshToken == Some(OrElse(outcome.refreshToken, a.refreshToken.value))
      && Truthy(r.account.refreshToken)
      && r.account.expiresAt == Some(if outcome.expiryDate.Some? && outcome.expiryDate.value != 0
                                     then outcome.expiryDate.value else now + HourMs)
  {
    if StoredTokenValid(a, now) then UseStored(a.accessToken.value)
    else if !NonBlank(a.refreshToken) then GiveUp
    else match outcome
      case RefreshFailed => GiveUp
      case Refreshed(token, refreshToken, expiryDate) =>
        if !Truthy(token) then GiveUp
        else
          var expiresAt := if expiryDate.Some? && expiryDate.value != 0 then expiryDate.value else now + HourMs;
          Renewed(token.value, a.(accessToken := token,
                                  refreshToken := Some(OrElse(refreshToken, a.refreshToken.value)),
                                  expiresAt := Some(expiresAt)))
  }

  /** A renewed token is used as stored until the new expiry: a second
      request before then does not contact Google again. */
  lemma RenewedTokenIsReused(a: GoogleAccount, now: Instant, outcome: RefreshOutcome, later: Instant, outcome2: RefreshOutcome)
    requires AccessTokenStep(a, now, outcome).Renewed?
    requires later < AccessTokenStep(a, now, outcome).account.expiresAt.value
    ensures AccessTokenStep(AccessTokenStep(a, now, outcome).account, later, outcome2)
         == UseStored(AccessTokenStep(a, now, outcome).token)
  {
  }

  /** After a login the account's new access token is used as stored until
      it expires. */
  lemma LoginTokenIsUsed(a: GoogleAccount, payload: Payload, now: Instant, later: Instant, outcome: RefreshOutcome)
    requires payload.accessToken != ""
    requires later < ExpiryFromNow(payload.expiresIn, now)
    ensures AccessTokenStep(LoginUpdate(a, payload, now), later, outcome) == UseStored(payload.accessToken)
  {
  }

  /** An account whose refresh token is blank cannot be renewed: once its
      access token expires, every request gives up. */
  lemma BlankRefreshTokenGivesUp(a: GoogleAccount, now: Instant, outcome: RefreshOutcome)
    requires !StoredTokenValid(a, now) && !NonBlank(a.refreshToken)
    ensures AccessTokenStep(a, now, outcome) == GiveUp
  {
  }

  predicate Linked(accounts: seq<GoogleAccount>, userId: UserId, googleId: string) {
    exists a | a in accounts :: a.userId == userId && a.googleId == googleId
  }

  /** `user.findFirst` over users with a Google account of that Google id. */
  function FirstLinkedUser(users: seq<User>, accounts: seq<GoogleAccount>, googleId: string): (r: Option<User>)
    ensures r.Some? ==> r.value in users && Linked(accounts, r.value.id, googleId)
    ensures r.None? ==> forall u :: u in users ==> !Linked(accounts, u.id, googleId)
    ensures r.Some? ==> exists i :: 0 <= i < |users| && users[i] == r.value &&
                                    (forall j :: 0 <= j < i ==> !Linked(accounts, users[j].id, googleId))
  {
    if users == [] then None
    else if Linked(accounts, users[0].id, googleId) then Some(users[0])
    else
      var r := FirstLinkedUser(users[1..], accounts, googleId);
      if r.Some? then
        var i :| 0 <= i < |users[1..]| && users[1..][i] == r.value &&
                 (forall j :: 0 <= j < i ==> !Linked(accounts, users[1..][j].id, googleId));
        assert users[i + 1] == r.value;
        assert forall j :: 0 <= j < i + 1 ==> !Linked(accounts, users[j].id, googleId) by {
          forall j | 0 <= j < i + 1 ensures !Linked(accounts, users[j].id, googleId) {
            if j > 0 { assert users[j] == users[1..][j - 1]; }
          }
        }
        r
      else r
  }

  /** `user.findUnique({ where: { email } })`. */
  function UserWithEmail(users: seq<User>, email: string): (r: Option<User>)
    ensures r.Some? ==> r.value in users && r.value.email == email
    ensures r.None? ==> forall u :: u in users ==> u.email != email
  {
    if users == [] then None
    else if users[0].email == email then Some(users[0])
    else UserWithEmail(users[1..], email)
  }

  /** `googleAccount.findFirst({ where: { userId } })`: the position of the
      user's first account. */
  function FirstAccountOf(accounts: seq<GoogleAccount>, userId: UserId): (r: Option<nat>)
    ensures r.Some? ==> r.value < |accounts| && accounts[r.value].userId == userId
    ensures r.Some? ==> forall j :: 0 <= j < r.value ==> accounts[j].userId != userId
    ensures r.None? ==> forall j :: 0 <= j < |accounts| ==> accounts[j].userId != userId
  {
    if accounts == [] then None
    else if accounts[0].userId == userId then Some(0)
    else match FirstAccountOf(accounts[1..], userId)
      case None => None
      case Some(k) => Some(k + 1)
  }

  /** When every account belongs to a known user, no user is linked to a
      Google id exactly when no account carries it. */
  lemma {:induction false} NoLinkedUserIffNoAccount(users: seq<User>, accounts: seq<GoogleAccount>, googleId: string)
    requires forall a :: a in accounts ==> FindUser(users, a.userId).Some?
    ensures FirstLinkedUser(users, accounts, googleId).None? <==> forall a :: a in accounts ==> a.googleId != googleId
  {
    if FirstLinkedUser(users, accounts, googleId).None? {
      forall a | a in accounts ensures a.googleId != googleId {
        var u := FindUser(users, a.userId).value;
        assert !Linked(accounts, u.id, googleId);
      }
    } else {
      var u := FirstLinkedUser(users, accounts, googleId).value;
      assert Linked(accounts, u.id, googleId);
    }
  }

  /** The account table keeps valid accounts over the same users as long as
      rows are only updated in place keeping id and user. */
  predicate SameOwners(a: seq<GoogleAccount>, b: seq<GoogleAccount>) {
    |a| == |b| && forall i :: 0 <= i < |a| ==> a[i].id == b[i].id && a[i].userId == b[i].userId && a[i].googleId == b[i].googleId
  }

  ghost predicate UsersValid(users: seq<User>, nextUserId: int) {
    && (forall i :: 0 <= i < |users| ==> users[i].id < nextUserId)
    && (forall i, j :: 0 <= i < j < |users| ==> users[i].id != users[j].id && users[i].email != users[j].email)
  }

  ghost predicate AccountsValid(accounts: seq<GoogleAccount>, users: seq<User>, nextAccountId: nat) {
    && (forall i :: 0 <= i < |accounts| ==> accounts[i].id < nextAccountId)
    && (forall i, j :: 0 <= i < j < |accounts| ==> accounts[i].id != accounts[j].id)
    && (forall a :: a in accounts ==> FindUser(users, a.userId).Some?)
  }

  lemma SameOwnersKeepValid(a: seq<GoogleAccount>, b: seq<GoogleAccount>, users: seq<User>, nextAccountId: nat)
    requires AccountsValid(a, users, nextAccountId) && SameOwners(a, b)
    ensures AccountsValid(b, users, nextAccountId)
  {
    forall x | x in b ensures FindUser(users, x.userId).Some? {
      var i :| 0 <= i < |b| && b[i] == x;
      assert a[i] in a;
    }
  }

  lemma FindUserAfterAppend(users: seq<User>, u: User, id: UserId)
    requires FindUser(users, id).Some?
    ensures FindUser(users + [u], id).Some?
  {
    var v := FindUser(users, id).value;
    assert v in users + [u];
  }

  lemma AccountsValidAppend(accounts: seq<GoogleAccount>, users: seq<User>, nextAccountId: nat, x: GoogleAccount)
    requires AccountsValid(accounts, users, nextAccountId)
    requires x.id == nextAccountId && FindUser(users, x.userId).Some?
    ensures AccountsValid(accounts + [x], users, nextAccountId + 1)
  {
    forall y | y in accounts + [x] ensures FindUser(users, y.userId).Some? {
      if y != x { assert y in accounts; }
    }
  }

  lemma AccountsValidNewUser(accounts: seq<GoogleAccount>, users: seq<User>, nextAccountId: nat, u: User)
    requires AccountsValid(accounts, users, nextAccountId)
    ensures AccountsValid(accounts, users + [u], nextAccountId)
  {
    forall y | y in accounts ensures FindUser(users + [u], y.userId).Some? {
      FindUserAfterAppend(users, u, y.userId);
    }
  }

  lemma UsersValidAppend(users: seq<User>, nextUserId: int, u: User)
    requires UsersValid(users, nextUserId)
    requires u.id == nextUserId && forall v :: v in users ==> v.email != u.email
    ensures UsersValid(users + [u], nextUserId + 1)
  {
    var r := users + [u];
    forall i, j | 0 <= i < j < |r| ensures r[i].id != r[j].id && r[i].email != r[j].email {
      if j == |users| { assert r[i] == users[i] && users[i] in users; }
      else { assert r[i] == users[i] && r[j] == users[j]; }
    }
  }

  lemma LinkedAfterRefresh(accounts: seq<GoogleAccount>, payload: Payload, now: Instant, userId: UserId)
    requires Linked(accounts, userId, payload.googleId)
    ensures Linked(RefreshLogins(accounts, payload, now), userId, payload.googleId)
  {
    var a :| a in accounts && a.userId == userId && a.googleId == payload.googleId;
    var i :| 0 <= i < |accounts| && accounts[i] == a;
    assert RefreshLogins(accounts, payload, now)[i] in RefreshLogins(accounts, payload, now);
  }

  class GoogleAuthStore {
    /** The user table. */
    var users: seq<User>
    /** The Google account table. */
    var accounts: seq<GoogleAccount>
    var nextUserId: int
    var nextAccountId: nat

    /** User ids and emails are unique, ids of both tables are below the
        next id, and every Google account belongs to an existing user. */
    ghost predicate Valid()
      reads this
    {
      UsersValid(users, nextUserId) && AccountsValid(accounts, users, nextAccountId)
    }

    constructor ()
      ensures Valid() && users == [] && accounts == []
    {
      users := [];
      accounts := [];
      nextUserId := 1;
      nextAccountId := 1;
    }

    /** `validateOrCreateUser`: the user already linked to this Google id
        (whose accounts then take the login's tokens), else the user with
        this email (who gets a new Google account), else a new user with a
        new Google account. Either way the user returned owns an account
        with this Google id. */
    method ValidateOrCreateUser(payload: Payload, now: Instant) returns (user: User)
      requires Valid()
      modifies this
      ensures Valid()
      ensures user in users && Linked(accounts, user.id, payload.googleId)
      ensures FirstLinkedUser(old(users), old(accounts), payload.googleId).Some? ==>
        && user == FirstLinkedUser(old(users), old(accounts), payload.googleId).value
        && users == old(users) && nextAccountId == old(nextAccountId)
        && accounts == RefreshLogins(old(accounts), payload, now)
      ensures (FirstLinkedUser(old(users), old(accounts), payload.googleId).None? &&
               UserWithEmail(old(users), payload.email).Some?) ==>
        && user == UserWithEmail(old(users), payload.email).value
        && users == old(users)
        && accounts == old(accounts) + [NewAccount(old(nextAccountId), user.id, payload, now)]
      ensures (FirstLinkedUser(old(users), old(accounts), payload.googleId).None? &&
               UserWithEmail(old(users), payload.email).None?) ==>
        && user == User(old(nextUserId), payload.email, Some(payload.name), None)
        && users == old(users) + [user]
        && accounts == old(accounts) + [NewAccount(old(nextAccountId), user.id, payload, now)]
    {
      var linked := FirstLinkedUser(users, accounts, payload.googleId);
      if linked.Some? {
        user := linked.value;
        var updated := RefreshLogins(accounts, payload, now);
        SameOwnersKeepValid(accounts, updated, users, nextAccountId);
        LinkedAfterRefresh(accounts, payload, now, user.id);
        accounts := updated;
        return;
      }
      var byEmail := UserWithEmail(users, payload.email);
      if byEmail.Some? {
        user := byEmail.value;
      } else {
        user := User(nextUserId, payload.email, Some(payload.name), None);
        AccountsValidNewUser(accounts, users, nextAccountId, user);
        UsersValidAppend(users, nextUserId, user);
        users := users + [user];
        nextUserId := nextUserId + 1;
      }
      AddAccount(user, payload, now);
    }

    /** Stores a new Google account of `user` for a login. */
    method AddAccount(user: User, payload: Payload, now: Instant)
      requires Valid() && user in users
      modifies this
      ensures Valid() && users == old(users) && nextUserId == old(nextUserId)
      ensures accounts == old(accounts) + [NewAccount(old(nextAccountId), user.id, payload, now)]
      ensures Linked(accounts, user.id, payload.googleId)
    {
      var account := NewAccount(nextAccountId, user.id, payload, now);
      var i :| 0 <= i < |users| && users[i] == user;
      AccountsValidAppend(accounts, users, nextAccountId, account);
      assert account in accounts + [account];
      accounts := accounts + [account];
      nextAccountId := nextAccountId + 1;
    }

    /** `getAccessToken`: for the user's first Google account, the stored
        token while it is valid, else a token renewed with the refresh token,
        else nothing. `outcome` is what Google's token endpoint answers to
        the refresh request, should one be made. */
    method GetAccessToken(userId: UserId, now: Instant, outcome: RefreshOutcome) returns (token: Option<string>)
      requires Valid()
      modifies this
      ensures Valid() && users == old(users) && nextUserId == old(nextUserId) && nextAccountId == old(nextAccountId)
      ensures FirstAccountOf(old(accounts), userId).None? ==> token.None? && accounts == old(accounts)
      ensures FirstAccountOf(old(accounts), userId).Some? ==>
        var i := FirstAccountOf(old(accounts), userId).value;
        match AccessTokenStep(old(accounts)[i], now, outcome)
        case UseStored(t) => token == Some(t) && accounts == old(accounts)
        case GiveUp => token.None? && accounts == old(accounts)
        case Renewed(t, a) => token == Some(t) && accounts == old(accounts)[i := a]
    {
      var found := FirstAccountOf(accounts, userId);
      if found.None? {
        return None;
      }
      var i := found.value;
      match AccessTokenStep(accounts[i], now, outcome)
      case UseStored(t) =>
        token := Some(t);
      case GiveUp =>
        token := None;
      case Renewed(t, renewed) =>
        SameOwnersKeepValid(accounts, accounts[i := renewed], users, nextAccountId);
        accounts := accounts[i := renewed];
        token := Some(t);
    }
  }
}
