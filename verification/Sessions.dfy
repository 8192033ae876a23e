/**
 Access and refresh tokens as one sequential state machine: login, refresh-token rotation, logout,
 the two cleanup tasks, and what `get_current_user` accepts.  Times are microseconds.  A signature
 is taken to be unforgeable (only minted tokens decode) and SHA-256 to be injective, so a stored
 hash is the refresh token itself.  An operation that mints tokens reads the clock twice: at `start`,
 for its tests and the expiries, and at `now`, for the stamp of the refresh token and its row.
 */
module Sessions {
  import opened Basics

  const SECOND: int := 1_000_000
  const ACCESS_TTL: int := 30 * 60 * SECOND
  const REFRESH_TTL: int := 7 * 24 * 60 * 60 * SECOND

  /** The claims of an access token; `exp` is cut to whole seconds when the token is encoded. */
  datatype Access = Access(user: string, exp: int)

  /**
   A refresh token carries no unique id: its claims are the user and two timestamps cut to whole
   seconds, taken from two readings of the clock (`iat` in seconds, `exp` in microseconds).
   */
  datatype RefreshToken = RefreshToken(user: string, iat: int, exp: int)

  /** A row of refresh_tokens; the table is keyed by the unique `token_hash`. */
  datatype Row = Row(expires: int, revoked: bool)

  datatype State = State(
    clock: int,
    users: set<string>,
    minted: map<string, Access>,
    rows: map<RefreshToken, Row>,
    blacklist: map<string, int>)

  datatype Event =
    | Login(user: string, jti: string, start: int, now: int)
    | Refresh(token: RefreshToken, access: Option<string>, jti: string, start: int, now: int)
    | Logout(token: RefreshToken, accessId: string, now: int)
    | CleanBlacklist(now: int)
    | CleanRefresh(now: int)

  datatype AuthError = BadCredentials | InvalidToken | NotFound | Revoked | Expired | UniqueViolation

  // ------------------------------------------------------------- the operations

  function WholeSeconds(t: int): int { t / SECOND * SECOND }

  /** An expiry is cut to the last whole second up to it. */
  lemma WholeSecondsExactly(t: int)
    ensures WholeSeconds(t) <= t < WholeSeconds(t) + SECOND && WholeSeconds(t) % SECOND == 0
  {
  }

  /** The decoder accepts a token up to `slack` past its expiry. */
  predicate Decodes(slack: nat, exp: int, now: int) {
    now <= exp + slack
  }

  /** A decoder that compares whole seconds accepts up to the end of the expiry second. */
  lemma WholeSecondSlack(exp: int, now: int)
    requires WholeSeconds(exp) == exp
    ensures now / SECOND <= exp / SECOND <==> Decodes(SECOND - 1, exp, now)
  {
  }

  predicate DecodesAccess(slack: nat, s: State, jti: string, now: int) {
    jti in s.minted && Decodes(slack, s.minted[jti].exp, now)
  }

  /** `get_current_user` on a token that carries a jti. */
  function CurrentUser(slack: nat, s: State, jti: string, now: int): Result<string, AuthError> {
    if !DecodesAccess(slack, s, jti, now) then Failure(InvalidToken)
    else if jti in s.blacklist then Failure(Revoked)
    else if s.minted[jti].user !in s.users then Failure(NotFound)
    else Success(s.minted[jti].user)
  }

  function NewRefreshToken(user: string, start: int, now: int): RefreshToken {
    RefreshToken(user, now / SECOND, WholeSeconds(start + REFRESH_TTL))
  }

  /** Minting a token pair and storing the refresh token; the insert fails when the hash is taken. */
  function Mint(s: State, user: string, jti: string, start: int, now: int): Result<State, AuthError> {
    var token := NewRefreshToken(user, start, now);
    if token in s.rows then Failure(UniqueViolation)
    else Success(s.(minted := s.minted[jti := Access(user, WholeSeconds(start + ACCESS_TTL))],
               rows := s.rows[token := Row(now + REFRESH_TTL, false)],
               clock := now))
  }

  function Apply(slack: nat, s: State, e: Event): Result<State, AuthError> {
    match e
    case Login(user, jti, start, now) =>
      if user !in s.users then Failure(BadCredentials) else Mint(s, user, jti, start, now)
    case Refresh(token, access, jti, start, now) =>
      if !Decodes(slack, token.exp, start) then Failure(InvalidToken)
      else if token !in s.rows then Failure(NotFound)
      else if s.rows[token].revoked then Failure(Revoked)
      else if start > s.rows[token].expires then Failure(Expired)
      else
        var s1 := s.(rows := s.rows[token := s.rows[token].(revoked := true)]);
        if access.Some? && DecodesAccess(slack, s, access.value, start) then
          if access.value in s.blacklist then Failure(UniqueViolation)
          else Mint(s1.(blacklist := s.blacklist[access.value := s.minted[access.value].exp]), token.user, jti, start, now)
        else Mint(s1, token.user, jti, start, now)
    case Logout(token, access, now) =>
      if !DecodesAccess(slack, s, access, now) then Failure(InvalidToken)
      else if token !in s.rows then Failure(NotFound)
      else
        var row := s.rows[token];
        Success(s.(rows := s.rows[token := if row.expires >= now then row.(revoked := true) else row],
              blacklist := if access in s.blacklist then s.blacklist else s.blacklist[access := s.minted[access].exp],
              clock := now))
    case CleanBlacklist(now) =>
      Success(s.(blacklist := map jti | jti in s.blacklist && s.blacklist[jti] >= now :: s.blacklist[jti], clock := now))
    case CleanRefresh(now) =>
      Success(s.(rows := map token | token in s.rows && s.rows[token].expires >= now :: s.rows[token], clock := now))
  }

  // ------------------------------------------------------------- when an operation succeeds

  /**
   A login succeeds exactly for a known user whose new refresh token is not stored yet, whatever else the
   tables hold, and all it changes is to store the pair.
   */
  lemma LoginExactly(slack: nat, s: State, user: string, jti: string, start: int, now: int)
    ensures var token := RefreshToken(user, now / SECOND, WholeSeconds(start + REFRESH_TTL));
            var r := Apply(slack, s, Login(user, jti, start, now));
            && (r.Success? <==> user in s.users && token !in s.rows)
            && (r.Success? ==>
                  && r.value.rows == s.rows[token := Row(now + REFRESH_TTL, false)]
                  && r.value.minted == s.minted[jti := Access(user, WholeSeconds(start + ACCESS_TTL))]
                  && r.value.blacklist == s.blacklist && r.value.users == s.users && r.value.clock == now)
            && (r.Failure? ==> r.error == if user in s.users then UniqueViolation else BadCredentials)
  {
  }

  /** The row of a refresh token still entitles to an exchange. */
  predicate Exchangeable(slack: nat, s: State, token: RefreshToken, at: int) {
    token in s.rows && !s.rows[token].revoked && at <= s.rows[token].expires && at <= token.exp + slack
  }

  /** The access token is one the decoder accepts and the blacklist does not hold yet, or it does not matter. */
  predicate Listable(slack: nat, s: State, access: Option<string>, at: int) {
    access.Some? && access.value in s.minted && at <= s.minted[access.value].exp + slack ==> access.value !in s.blacklist
  }

  /**
   A rotation succeeds exactly when the token's row is live, the access token sent along is not on the
   blacklist already, and the new token is not stored yet.  It revokes the one row, stores the other, and lists
   the access token with its own expiry if the decoder accepts it.
   */
  lemma RefreshExactly(slack: nat, s: State, token: RefreshToken, access: Option<string>, jti: string, start: int, now: int)
    ensures var fresh_ := RefreshToken(token.user, now / SECOND, WholeSeconds(start + REFRESH_TTL));
            var r := Apply(slack, s, Refresh(token, access, jti, start, now));
            && (r.Success? <==>
                  Exchangeable(slack, s, token, start) && Listable(slack, s, access, start) && fresh_ !in s.rows)
            && (r.Success? ==>
                  && r.value.rows == s.rows[token := Row(s.rows[token].expires, true)][fresh_ := Row(now + REFRESH_TTL, false)]
                  && r.value.minted == s.minted[jti := Access(token.user, WholeSeconds(start + ACCESS_TTL))]
                  && (forall j :: j in r.value.blacklist <==> j in s.blacklist || (access == Some(j) && DecodesAccess(slack, s, j, start)))
                  && (forall j :: j in s.blacklist ==> r.value.blacklist[j] == s.blacklist[j])
                  && (forall j :: j in r.value.blacklist && j !in s.blacklist ==> r.value.blacklist[j] == s.minted[j].exp)
                  && r.value.users == s.users && r.value.clock == now)
  {
  }

  /** What each refusal of a rotation or a logout means. */
  lemma RefusalsExplained(slack: nat, s: State, token: RefreshToken, access: Option<string>, id: string, jti: string, start: int, now: int)
    ensures var r := Apply(slack, s, Refresh(token, access, jti, start, now));
            r.Failure? ==>
              && (r.error == InvalidToken <==> start > token.exp + slack)
              && (r.error == NotFound <==> start <= token.exp + slack && token !in s.rows)
              && (r.error == Revoked <==> start <= token.exp + slack && token in s.rows && s.rows[token].revoked)
              && (r.error == Expired <==>
                    start <= token.exp + slack && token in s.rows && !s.rows[token].revoked && start > s.rows[token].expires)
              && (r.error == UniqueViolation <==> Exchangeable(slack, s, token, start))
    ensures var r := Apply(slack, s, Logout(token, id, now));
            r.Failure? ==> r.error == if id in s.minted && now <= s.minted[id].exp + slack then NotFound else InvalidToken
  {
  }

  /**
   A logout succeeds exactly when the access token decodes and the refresh token is stored, live or not.  It
   revokes that row unless it has expired, and lists the access token unless it is listed.
   */
  lemma LogoutExactly(slack: nat, s: State, token: RefreshToken, jti: string, now: int)
    ensures var r := Apply(slack, s, Logout(token, jti, now));
            && (r.Success? <==> jti in s.minted && now <= s.minted[jti].exp + slack && token in s.rows)
            && (r.Success? ==>
                  && r.value.rows.Keys == s.rows.Keys && (forall t :: t in s.rows && t != token ==> r.value.rows[t] == s.rows[t])
                  && r.value.rows[token].expires == s.rows[token].expires
                  && (r.value.rows[token].revoked <==> s.rows[token].revoked || now <= s.rows[token].expires)
                  && r.value.blacklist.Keys == s.blacklist.Keys + {jti}
                  && (forall j :: j in s.blacklist ==> r.value.blacklist[j] == s.blacklist[j])
                  && (jti !in s.blacklist ==> r.value.blacklist[jti] == s.minted[jti].exp)
                  && r.value.minted == s.minted && r.value.users == s.users && r.value.clock == now)
  {
  }

  /** A cleanup deletes exactly the entries whose expiry has passed, and nothing else changes. */
  lemma CleanupsExactly(slack: nat, s: State, now: int)
    ensures var b, r := After(slack, s, CleanBlacklist(now)), After(slack, s, CleanRefresh(now));
            && (forall j :: j in b.blacklist <==> j in s.blacklist && s.blacklist[j] >= now)
            && (forall j :: j in b.blacklist ==> b.blacklist[j] == s.blacklist[j])
            && b == s.(blacklist := b.blacklist, clock := now)
            && (forall t :: t in r.rows <==> t in s.rows && s.rows[t].expires >= now)
            && (forall t :: t in r.rows ==> r.rows[t] == s.rows[t])
            && r == s.(rows := r.rows, clock := now)
  {
  }

  /** After any run a known user can log in in any later second, logged out or not. */
  lemma LoginAgain(slack: nat, s: State, es: seq<Event>, user: string, jti: string, start: int, now: int)
    requires Inv(s) && PossibleRun(slack, s, es) && user in s.users
    requires Possible(Run(slack, s, es), Login(user, jti, start, now)) && now / SECOND > Run(slack, s, es).clock / SECOND
    ensures Apply(slack, Run(slack, s, es), Login(user, jti, start, now)).Success?
  {
    RunKeepsInv(slack, s, es);
    LoginExactly(slack, Run(slack, s, es), user, jti, start, now);
  }

  /** A failed operation is rolled back. */
  function After(slack: nat, s: State, e: Event): State {
    match Apply(slack, s, e)
    case Success(s') => s'
    case Failure(_) => s.(clock := e.now)
  }

  /** The clock does not go back and a new access token gets an id never used before. */
  predicate Possible(s: State, e: Event) {
    && e.now >= s.clock
    && (e.Login? || e.Refresh? ==> e.jti !in s.minted && s.clock <= e.start <= e.now)
  }

  function Run(slack: nat, s: State, es: seq<Event>): State {
    if es == [] then s else After(slack, Run(slack, s, es[..|es| - 1]), es[|es| - 1])
  }

  predicate PossibleRun(slack: nat, s: State, es: seq<Event>) {
    es == [] || (PossibleRun(slack, s, es[..|es| - 1]) && Possible(Run(slack, s, es[..|es| - 1]), es[|es| - 1]))
  }

  // ------------------------------------------------------------- what every step keeps

  /**
   Rows outlive the second they were minted in and their tokens; a blacklist entry holds its token's
   own expiry; tokens belong to known users.
   */
  ghost predicate Inv(s: State) {
    && (forall token :: token in s.rows ==>
          && token.iat * SECOND <= s.clock && token.user in s.users
          && token.iat * SECOND + REFRESH_TTL <= s.rows[token].expires && token.exp <= s.rows[token].expires)
    && (forall jti :: jti in s.minted ==> s.minted[jti].user in s.users)
    && (forall jti :: jti in s.blacklist ==> jti in s.minted && s.blacklist[jti] == s.minted[jti].exp)
  }

  lemma MintKeepsInv(s: State, user: string, jti: string, start: int, now: int)
    requires Inv(s) && s.clock <= start <= now && jti !in s.minted && user in s.users
    ensures Mint(s, user, jti, start, now).Success? ==> Inv(Mint(s, user, jti, start, now).value)
  {
  }

  /** Revoking a row and listing an access token for its own life. */
  lemma RevokingKeepsInv(s: State, token: RefreshToken, access: string)
    requires Inv(s) && token in s.rows
    ensures token.user in s.users
    ensures var s1 := s.(rows := s.rows[token := s.rows[token].(revoked := true)]);
            && Inv(s1)
            && (access in s.minted ==> Inv(s1.(blacklist := s.blacklist[access := s.minted[access].exp])))
  {
  }

  lemma RefreshKeepsInv(slack: nat, s: State, e: Event)
    requires Inv(s) && Possible(s, e) && e.Refresh?
    ensures Inv(After(slack, s, e))
  {
    if Apply(slack, s, e).Success? {
      hide Mint, Inv;
      var s1 := s.(rows := s.rows[e.token := s.rows[e.token].(revoked := true)]);
      RevokingKeepsInv(s, e.token, if e.access.Some? then e.access.value else "");
      if e.access.Some? && DecodesAccess(slack, s, e.access.value, e.start) {
        MintKeepsInv(s1.(blacklist := s.blacklist[e.access.value := s.minted[e.access.value].exp]),
                     e.token.user, e.jti, e.start, e.now);
      } else {
        MintKeepsInv(s1, e.token.user, e.jti, e.start, e.now);
      }
    }
  }

  lemma StepKeepsInv(slack: nat, s: State, e: Event)
    requires Inv(s) && Possible(s, e)
    ensures Inv(After(slack, s, e))
  {
    hide Mint;
    if e.Refresh? {
      hide Inv, Apply;
      RefreshKeepsInv(slack, s, e);
    } else if e.Login? && e.user in s.users {
      MintKeepsInv(s, e.user, e.jti, e.start, e.now);
    }
  }

  lemma ClockAndUsers(slack: nat, s: State, e: Event)
    ensures After(slack, s, e).clock == e.now && After(slack, s, e).users == s.users
  {
  }

  lemma {:induction false} RunKeepsInv(slack: nat, s: State, es: seq<Event>)
    requires Inv(s) && PossibleRun(slack, s, es)
    ensures Inv(Run(slack, s, es)) && Run(slack, s, es).clock >= s.clock
    ensures Run(slack, s, es).users == s.users
  {
    if es != [] {
      hide Apply, Inv;
      RunKeepsInv(slack, s, es[..|es| - 1]);
      StepKeepsInv(slack, Run(slack, s, es[..|es| - 1]), es[|es| - 1]);
      ClockAndUsers(slack, Run(slack, s, es[..|es| - 1]), es[|es| - 1]);
    }
  }

  // ------------------------------------------------------------- revocation across cleanup

  predicate Cleans(e: Event, exp: int) {
    e.CleanBlacklist? && e.now > exp
  }

  /** The event puts the token on the blacklist. */
  predicate Lists(slack: nat, s: State, e: Event, jti: string) {
    && Apply(slack, s, e).Success?
    && ((e.Logout? && e.accessId == jti) || (e.Refresh? && e.access == Some(jti) && DecodesAccess(slack, s, jti, e.start)))
  }

  /** After the k-th event of a run nothing lists the token. */
  ghost predicate UnlistedAfter(slack: nat, s: State, es: seq<Event>, jti: string, k: nat) {
    forall j :: k < j < |es| ==> !Lists(slack, Run(slack, s, es[..j]), es[j], jti)
  }

  /** Some cleanup of the run came after the expiry, and nothing listed the token after it. */
  ghost predicate Cleared(slack: nat, s: State, es: seq<Event>, jti: string, exp: int) {
    exists k :: 0 <= k < |es| && Cleans(es[k], exp) && UnlistedAfter(slack, s, es, jti, k)
  }

  lemma StepOnBlacklist(slack: nat, s: State, e: Event, jti: string)
    requires Inv(s) && Possible(s, e) && jti in s.minted
    ensures jti in After(slack, s, e).minted && After(slack, s, e).minted[jti] == s.minted[jti]
    ensures jti in After(slack, s, e).blacklist <==>
            !Cleans(e, s.minted[jti].exp) && (jti in s.blacklist || Lists(slack, s, e, jti))
  {
  }

  lemma ClearedGrows(slack: nat, s: State, es: seq<Event>, e: Event, jti: string, exp: int)
    ensures Cleared(slack, s, es + [e], jti, exp) <==>
            Cleans(e, exp) || (Cleared(slack, s, es, jti, exp) && !Lists(slack, Run(slack, s, es), e, jti))
  {
    hide Lists, Run, Cleans;
    var all := es + [e];
    assert all[|es|] == e && all[..|es|] == es;
    assert forall j :: 0 <= j < |es| ==> all[j] == es[j] && all[..j] == es[..j];
    if Cleans(e, exp) {
      assert UnlistedAfter(slack, s, all, jti, |es|);
    }
    forall k | 0 <= k < |es|
      ensures UnlistedAfter(slack, s, all, jti, k) <==>
              UnlistedAfter(slack, s, es, jti, k) && !Lists(slack, Run(slack, s, es), e, jti)
    {
    }
  }

  /** A listed token is off the blacklist exactly after a cleanup later than its expiry and no listing since. */
  lemma {:induction false} ListedUntilCleared(slack: nat, s: State, es: seq<Event>, jti: string)
    requires Inv(s) && PossibleRun(slack, s, es) && jti in s.blacklist
    ensures var t := Run(slack, s, es);
            && jti in t.minted && t.minted[jti] == s.minted[jti]
            && (jti in t.blacklist <==> !Cleared(slack, s, es, jti, s.minted[jti].exp))
  {
    if es != [] {
      var before, e := es[..|es| - 1], es[|es| - 1];
      assert es == before + [e];
      assert jti in s.minted;
      hide Lists, Cleans, Cleared, After, Inv;
      ListedUntilCleared(slack, s, before, jti);
      RunKeepsInv(slack, s, before);
      StepOnBlacklist(slack, Run(slack, s, before), e, jti);
      ClearedGrows(slack, s, before, e, jti, s.minted[jti].exp);
    }
  }

  lemma {:induction false} CleanupIsPast(slack: nat, s: State, es: seq<Event>, jti: string, exp: int)
    requires Inv(s) && PossibleRun(slack, s, es) && Cleared(slack, s, es, jti, exp)
    ensures Run(slack, s, es).clock > exp
  {
    var before, e := es[..|es| - 1], es[|es| - 1];
    assert es == before + [e];
    hide Apply, Inv, Cleared, Lists;
    ClearedGrows(slack, s, before, e, jti, exp);
    if !Cleans(e, exp) {
      CleanupIsPast(slack, s, before, jti, exp);
    }
    ClockAndUsers(slack, Run(slack, s, before), e);
  }

  /** With a decoder that is exact about expiry, a revoked token is never accepted again. */
  lemma RevokedForever(s: State, es: seq<Event>, jti: string, now: int)
    requires Inv(s) && PossibleRun(0, s, es) && jti in s.blacklist && now >= Run(0, s, es).clock
    ensures CurrentUser(0, Run(0, s, es), jti, now).Failure?
  {
    ListedUntilCleared(0, s, es, jti);
    if Cleared(0, s, es, jti, s.minted[jti].exp) {
      CleanupIsPast(0, s, es, jti, s.minted[jti].exp);
    }
  }

  /**
   Exactly when a revoked token comes back: a cleanup ran after its expiry, nothing has listed it since,
   and the decoder still accepts it; so cleanup and request both fall in the decoder's slack.
   */
  lemma AcceptedAgainExactly(slack: nat, s: State, es: seq<Event>, jti: string, now: int)
    requires Inv(s) && PossibleRun(slack, s, es) && jti in s.blacklist && now >= Run(slack, s, es).clock
    ensures CurrentUser(slack, Run(slack, s, es), jti, now).Success? <==>
            Cleared(slack, s, es, jti, s.minted[jti].exp) && now <= s.minted[jti].exp + slack
  {
    hide Cleared, Apply;
    ListedUntilCleared(slack, s, es, jti);
    RunKeepsInv(slack, s, es);
  }

  /** One cleanup in the second after the expiry is enough for a decoder that compares whole seconds. */
  lemma WholeSecondWindow(s: State, jti: string)
    requires Inv(s) && jti in s.blacklist && s.clock <= s.minted[jti].exp
    ensures var cleanup := CleanBlacklist(s.minted[jti].exp + 1);
            && PossibleRun(SECOND - 1, s, [cleanup])
            && CurrentUser(SECOND - 1, Run(SECOND - 1, s, [cleanup]), jti, cleanup.now).Success?
  {
    var cleanup := CleanBlacklist(s.minted[jti].exp + 1);
    assert [cleanup][..0] == [];
    assert Cleans([cleanup][0], s.minted[jti].exp) && UnlistedAfter(SECOND - 1, s, [cleanup], jti, 0);
    AcceptedAgainExactly(SECOND - 1, s, [cleanup], jti, cleanup.now);
  }

  /**
   After a logout the access token it was called with is accepted again exactly when a cleanup ran after
   its expiry, nothing has listed it since, and the decoder's slack is still open.
   */
  lemma LogoutRevokes(slack: nat, s: State, logout: Event, es: seq<Event>, now: int)
    requires Inv(s) && Possible(s, logout) && logout.Logout? && Apply(slack, s, logout).Success?
    requires PossibleRun(slack, After(slack, s, logout), es) && now >= Run(slack, After(slack, s, logout), es).clock
    ensures var s', jti, exp := After(slack, s, logout), logout.accessId, s.minted[logout.accessId].exp;
            CurrentUser(slack, Run(slack, s', es), jti, now).Success? <==>
            Cleared(slack, s', es, jti, exp) && now <= exp + slack
  {
    var s', jti := After(slack, s, logout), logout.accessId;
    StepKeepsInv(slack, s, logout);
    assert jti in s'.blacklist && s'.minted == s.minted;
    hide Inv, Apply, After;
    AcceptedAgainExactly(slack, s', es, jti, now);
  }

  /** With an exact decoder that is never. */
  lemma LogoutRevokesForever(s: State, logout: Event, es: seq<Event>, now: int)
    requires Inv(s) && Possible(s, logout) && logout.Logout? && Apply(0, s, logout).Success?
    requires PossibleRun(0, After(0, s, logout), es) && now >= Run(0, After(0, s, logout), es).clock
    ensures CurrentUser(0, Run(0, After(0, s, logout), es), logout.accessId, now).Failure?
  {
    StepKeepsInv(0, s, logout);
    RevokedForever(After(0, s, logout), es, logout.accessId, now);
  }

  // ------------------------------------------------------------- rotation

  /** `token` can no longer be used: its row is revoked or expired, or gone with its second past. */
  ghost predicate Spent(s: State, token: RefreshToken) {
    if token in s.rows then s.rows[token].revoked || s.clock > s.rows[token].expires
    else token.iat < s.clock / SECOND
  }

  lemma SpentStays(slack: nat, s: State, e: Event, token: RefreshToken)
    requires Inv(s) && Possible(s, e) && Spent(s, token)
    ensures Spent(After(slack, s, e), token)
    ensures e.Refresh? && e.token == token ==> Apply(slack, s, e).Failure?
  {
  }

  lemma {:induction false} SpentForever(slack: nat, s: State, es: seq<Event>, token: RefreshToken)
    requires Inv(s) && PossibleRun(slack, s, es) && Spent(s, token)
    ensures Spent(Run(slack, s, es), token)
  {
    if es != [] {
      hide After, Inv, Spent, Possible;
      SpentForever(slack, s, es[..|es| - 1], token);
      RunKeepsInv(slack, s, es[..|es| - 1]);
      SpentStays(slack, Run(slack, s, es[..|es| - 1]), es[|es| - 1], token);
    }
  }

  /**
   A refresh token works at most once: after a successful rotation no later use of it succeeds,
   whatever logins, rotations, logouts and cleanups come between.
   */
  lemma RefreshTokenIsSingleUse(slack: nat, s: State, first: Event, es: seq<Event>, second: Event)
    requires Inv(s) && Possible(s, first) && first.Refresh? && Apply(slack, s, first).Success?
    requires PossibleRun(slack, After(slack, s, first), es)
    requires Possible(Run(slack, After(slack, s, first), es), second)
    requires second.Refresh? && second.token == first.token
    ensures Apply(slack, Run(slack, After(slack, s, first), es), second).Failure?
  {
    var t := After(slack, s, first);
    StepKeepsInv(slack, s, first);
    SpentForever(slack, t, es, first.token);
    RunKeepsInv(slack, t, es);
    SpentStays(slack, Run(slack, t, es), second, first.token);
  }

  /** After a logout its refresh token is never exchanged again, whatever happens in between. */
  lemma LogoutEndsRotation(slack: nat, s: State, logout: Event, es: seq<Event>, later: Event)
    requires Inv(s) && Possible(s, logout) && logout.Logout? && Apply(slack, s, logout).Success?
    requires PossibleRun(slack, After(slack, s, logout), es)
    requires Possible(Run(slack, After(slack, s, logout), es), later)
    requires later.Refresh? && later.token == logout.token
    ensures Apply(slack, Run(slack, After(slack, s, logout), es), later).Failure?
  {
    var t := After(slack, s, logout);
    assert Spent(t, logout.token);
    StepKeepsInv(slack, s, logout);
    SpentForever(slack, t, es, logout.token);
    RunKeepsInv(slack, t, es);
    SpentStays(slack, Run(slack, t, es), later, logout.token);
  }

  /** Whose token pair an event mints. */
  function Minter(e: Event): Option<string> {
    match e
    case Login(user, _, _, _) => Some(user)
    case Refresh(token, _, _, _, _) => Some(token.user)
    case _ => None
  }

  /** The refresh token of the pair. */
  function Minted(e: Event): RefreshToken
    requires Minter(e).Some?
  {
    NewRefreshToken(Minter(e).value, e.start, e.now)
  }

  /** `get_current_user` on a token without a jti, as refresh tokens are: expiry and user are all it looks at. */
  function CurrentUserByRefresh(slack: nat, s: State, token: RefreshToken, now: int): Result<string, AuthError> {
    if !Decodes(slack, token.exp, now) then Failure(InvalidToken)
    else if token.user !in s.users then Failure(NotFound)
    else Success(token.user)
  }

  lemma MintedIsStored(slack: nat, s: State, e: Event)
    requires Inv(s) && Possible(s, e) && Minter(e).Some? && Apply(slack, s, e).Success?
    ensures Minted(e) in After(slack, s, e).rows
  {
  }

  /**
   Rotation and logout concern the exchange of a refresh token only: as an identity `get_current_user`
   accepts the refresh token of every pair minted, until its own expiry plus the decoder's slack, whatever
   runs after it, its own rotation and logout included.
   */
  lemma RefreshTokenIdentifiesUntilExpiry(slack: nat, s: State, minting: Event, es: seq<Event>, now: int)
    requires Inv(s) && Possible(s, minting) && Minter(minting).Some? && Apply(slack, s, minting).Success?
    requires PossibleRun(slack, After(slack, s, minting), es)
    ensures CurrentUserByRefresh(slack, Run(slack, After(slack, s, minting), es), Minted(minting), now)
            == (if now <= WholeSeconds(minting.start + REFRESH_TTL) + slack then Success(Minter(minting).value)
                else Failure(InvalidToken))
  {
    MintedIsStored(slack, s, minting);
    StepKeepsInv(slack, s, minting);
    RunKeepsInv(slack, After(slack, s, minting), es);
  }

  /** Nothing in the run lists the token. */
  ghost predicate NeverListed(slack: nat, s: State, es: seq<Event>, jti: string) {
    forall j :: 0 <= j < |es| ==> !Lists(slack, Run(slack, s, es[..j]), es[j], jti)
  }

  lemma {:induction false} StaysUnlisted(slack: nat, s: State, es: seq<Event>, jti: string)
    requires Inv(s) && PossibleRun(slack, s, es) && jti in s.minted && jti !in s.blacklist && NeverListed(slack, s, es, jti)
    ensures var t := Run(slack, s, es); jti in t.minted && t.minted[jti] == s.minted[jti] && jti !in t.blacklist
  {
    if es != [] {
      var before, e := es[..|es| - 1], es[|es| - 1];
      hide Lists, After, Inv;
      assert forall j :: 0 <= j < |before| ==> before[j] == es[j] && before[..j] == es[..j];
      StaysUnlisted(slack, s, before, jti);
      RunKeepsInv(slack, s, before);
      StepOnBlacklist(slack, Run(slack, s, before), e, jti);
    }
  }

  /** A minted access token that nothing lists is accepted exactly until its expiry plus slack, whatever runs. */
  lemma SessionLasts(slack: nat, s: State, minting: Event, es: seq<Event>, now: int)
    requires Inv(s) && Possible(s, minting) && Minter(minting).Some? && Apply(slack, s, minting).Success?
    requires PossibleRun(slack, After(slack, s, minting), es) && NeverListed(slack, After(slack, s, minting), es, minting.jti)
    ensures CurrentUser(slack, Run(slack, After(slack, s, minting), es), minting.jti, now)
            == (if now <= WholeSeconds(minting.start + ACCESS_TTL) + slack then Success(Minter(minting).value)
                else Failure(InvalidToken))
  {
    var t := After(slack, s, minting);
    StepKeepsInv(slack, s, minting);
    MintedAccess(slack, s, minting);
    hide After, Apply, NeverListed;
    StaysUnlisted(slack, t, es, minting.jti);
    RunKeepsInv(slack, t, es);
  }

  lemma MintedAccess(slack: nat, s: State, e: Event)
    requires Inv(s) && Possible(s, e) && Minter(e).Some? && Apply(slack, s, e).Success?
    ensures var t := After(slack, s, e);
            && e.jti in t.minted && t.minted[e.jti] == Access(Minter(e).value, WholeSeconds(e.start + ACCESS_TTL))
            && e.jti !in t.blacklist
  {
  }

  /** A login opens a session: its access token is accepted while it lasts, and its refresh token can be exchanged. */
  lemma LoginOpensSession(slack: nat, s: State, login: Event, rotation: Event)
    requires Inv(s) && Possible(s, login) && login.Login? && Apply(slack, s, login).Success?
    requires Possible(After(slack, s, login), rotation) && rotation.Refresh?
    requires rotation.token == Minted(login)
    ensures var t := After(slack, s, login);
            && (forall now :: now >= login.now ==>
                  (CurrentUser(slack, t, login.jti, now) == Success(login.user) <==>
                   now <= WholeSeconds(login.start + ACCESS_TTL) + slack))
            && (Apply(slack, t, rotation).Success? <==>
                  && rotation.start <= login.now + REFRESH_TTL && rotation.start <= Minted(login).exp + slack
                  && Minted(rotation) != Minted(login) && Minted(rotation) !in s.rows
                  && (rotation.access.Some? && DecodesAccess(slack, t, rotation.access.value, rotation.start) ==>
                        rotation.access.value !in s.blacklist))
  {
  }

  // ------------------------------------------------------------- what cleanup changes

  /** For a decoder exact about expiry, the blacklist cleanup changes no answer to any later request. */
  lemma BlacklistCleanupInvisible(s: State, cleanup: int, jti: string, now: int)
    requires Inv(s) && cleanup >= s.clock && now >= cleanup
    ensures CurrentUser(0, After(0, s, CleanBlacklist(cleanup)), jti, now) == CurrentUser(0, s, jti, now)
  {
  }

  /** The refresh cleanup changes the success of no later login or rotation. */
  lemma RefreshCleanupInvisible(slack: nat, s: State, cleanup: int, e: Event)
    requires Inv(s) && cleanup >= s.clock && (e.Login? || e.Refresh?) && cleanup <= e.start <= e.now
    ensures Apply(slack, After(slack, s, CleanRefresh(cleanup)), e).Success? <==> Apply(slack, s, e).Success?
  {
    var t := After(slack, s, CleanRefresh(cleanup));
    forall token | token in s.rows && token !in t.rows ensures e.start > s.rows[token].expires && token.iat < e.now / SECOND {
      assert token.iat * SECOND + REFRESH_TTL <= s.rows[token].expires;
    }
  }

  /** `token` is stored, or its second is past. */
  ghost predicate Taken(s: State, token: RefreshToken) {
    token in s.rows || token.iat < s.clock / SECOND
  }

  lemma TakenStays(slack: nat, s: State, e: Event, token: RefreshToken)
    requires Inv(s) && Possible(s, e) && Taken(s, token)
    ensures Taken(After(slack, s, e), token)
  {
  }

  lemma {:induction false} TakenForever(slack: nat, s: State, es: seq<Event>, token: RefreshToken)
    requires Inv(s) && PossibleRun(slack, s, es) && Taken(s, token)
    ensures Taken(Run(slack, s, es), token)
  {
    if es != [] {
      hide After, Inv, Taken, Possible;
      TakenForever(slack, s, es[..|es| - 1], token);
      RunKeepsInv(slack, s, es[..|es| - 1]);
      TakenStays(slack, Run(slack, s, es[..|es| - 1]), es[|es| - 1], token);
    }
  }

  /** One second on both readings of a pair. */
  predicate WithinSecond(e: Event)
    requires Minter(e).Some?
  {
    e.start / SECOND == e.now / SECOND
  }

  /**
   A user gets at most one token pair a second from operations that begin in it: once one was minted,
   every other login or rotation of that user in the same second fails on the unique hash.
   */
  lemma OnePairPerSecond(slack: nat, s: State, first: Event, es: seq<Event>, second: Event)
    requires Inv(s) && Possible(s, first) && Minter(first).Some? && Apply(slack, s, first).Success? && WithinSecond(first)
    requires PossibleRun(slack, After(slack, s, first), es)
    requires Possible(Run(slack, After(slack, s, first), es), second)
    requires Minter(second) == Minter(first) && second.now / SECOND == first.now / SECOND
    ensures Apply(slack, Run(slack, After(slack, s, first), es), second).Failure?
  {
    var t := After(slack, s, first);
    MintedIsStored(slack, s, first);
    StepKeepsInv(slack, s, first);
    RunKeepsInv(slack, t, es);
    TakenForever(slack, t, es, Minted(first));
    ClockAndUsers(slack, s, first);
    SameSecondSameToken(first, second);
    hide Apply, After, Inv, Run, PossibleRun, Taken, Minted;
    TakenBlocks(slack, Run(slack, t, es), second);
  }

  lemma SameSecondSameToken(first: Event, second: Event)
    requires Minter(first).Some? && Minter(second) == Minter(first) && WithinSecond(first)
    requires first.now <= second.start <= second.now && second.now / SECOND == first.now / SECOND
    ensures Minted(second) == Minted(first)
  {
    SecondsApart(first.start);
    SecondsApart(second.start);
  }

  lemma SecondsApart(t: int)
    ensures WholeSeconds(t + REFRESH_TTL) == t / SECOND * SECOND + REFRESH_TTL
  {
    assert REFRESH_TTL == 604800 * SECOND;
    assert (t + 604800 * SECOND) / SECOND == t / SECOND + 604800;
  }

  lemma TakenBlocks(slack: nat, s: State, e: Event)
    requires Inv(s) && Possible(s, e) && Minter(e).Some? && Taken(s, Minted(e))
    ensures Apply(slack, s, e).Failure?
  {
  }

  /** Of two logins of one user stamped with the same second, the second succeeds exactly when the first began before it. */
  lemma SecondPairExactly(slack: nat, s: State, first: Event, second: Event)
    requires Inv(s) && Possible(s, first) && first.Login? && Apply(slack, s, first).Success?
    requires Possible(After(slack, s, first), second) && second.Login? && second.user == first.user
    requires second.now / SECOND == first.now / SECOND
    ensures Apply(slack, After(slack, s, first), second).Success? <==> !WithinSecond(first)
  {
    assert second.start / SECOND == second.now / SECOND;
    if !WithinSecond(first) {
      assert Minted(second).iat > s.clock / SECOND;
    }
  }
}
