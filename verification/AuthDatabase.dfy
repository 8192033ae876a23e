/**
 The auth services as they run: methods that read and write the token tables, each proved to take
 exactly the step of the state machine in Sessions.  An exception leaves the tables as they were,
 because the request's transaction is rolled back.
 */
module AuthDatabase {
  import opened Basics
  import opened Sessions

  class AuthDatabase {
    const slack: nat
    const users: set<string>
    var clock: int
    /** Every access token ever signed, by jti. */
    var minted: map<string, Access>
    var refreshTokens: map<RefreshToken, Row>
    var tokenBlacklist: map<string, int>

    constructor (slack: nat, users: set<string>, now: int)
      ensures this.slack == slack && View() == State(now, users, map[], map[], map[])
      ensures Inv(View())
    {
      this.slack, this.users, clock := slack, users, now;
      minted, refreshTokens, tokenBlacklist := map[], map[], map[];
    }

    ghost function View(): State
      reads this
    {
      State(clock, users, minted, refreshTokens, tokenBlacklist)
    }

    /** The outcome an operation owes its caller, and the tables it owes the next one. */
    ghost predicate Took(before: State, e: Event, error: Option<AuthError>)
      reads this
    {
      && View() == After(slack, before, e)
      && match Apply(slack, before, e)
         case Success(_) => error == None
         case Failure(err) => error == Some(err)
    }

    method Store(user: string, jti: string, start: int, now: int) returns (error: Option<AuthError>)
      modifies this
      ensures Mint(old(View()), user, jti, start, now).Success? <==> error == None
      ensures error == None ==> View() == Mint(old(View()), user, jti, start, now).value
      ensures error != None ==> error == Some(UniqueViolation) && View() == old(View())
    {
      var token := RefreshToken(user, now / SECOND, WholeSeconds(start + REFRESH_TTL));
      if token in refreshTokens {
        return Some(UniqueViolation);
      }
      minted := minted[jti := Access(user, WholeSeconds(start + ACCESS_TTL))];
      refreshTokens := refreshTokens[token := Row(now + REFRESH_TTL, false)];
      clock := now;
      error := None;
    }

    method LoginUser(user: string, jti: string, start: int, now: int) returns (error: Option<AuthError>)
      requires Inv(View()) && Possible(View(), Login(user, jti, start, now))
      modifies this
      ensures Inv(View()) && Took(old(View()), Login(user, jti, start, now), error)
    {
      StepKeepsInv(slack, View(), Login(user, jti, start, now));
      if user !in users {
        clock := now;
        return Some(BadCredentials);
      }
      error := Store(user, jti, start, now);
      clock := now;
    }

    method RefreshPair(token: RefreshToken, access: Option<string>, jti: string, start: int, now: int) returns (error: Option<AuthError>)
      requires Inv(View()) && Possible(View(), Refresh(token, access, jti, start, now))
      modifies this
      ensures Inv(View()) && Took(old(View()), Refresh(token, access, jti, start, now), error)
    {
      StepKeepsInv(slack, View(), Refresh(token, access, jti, start, now));
      clock := now;
      if !Decodes(slack, token.exp, start) {
        return Some(InvalidToken);
      }
      if token !in refreshTokens {
        return Some(NotFound);
      }
      var stored := refreshTokens[token];
      if stored.revoked {
        return Some(Revoked);
      }
      if start > stored.expires {
        return Some(Expired);
      }
      var savedTokens, savedBlacklist := refreshTokens, tokenBlacklist;
      refreshTokens := refreshTokens[token := stored.(revoked := true)];
      if access.Some? && access.value in minted && Decodes(slack, minted[access.value].exp, start) {
        if access.value in tokenBlacklist {
          refreshTokens := savedTokens;
          return Some(UniqueViolation);
        }
        tokenBlacklist := tokenBlacklist[access.value := minted[access.value].exp];
      }
      error := Store(token.user, jti, start, now);
      if error.Some? {
        refreshTokens, tokenBlacklist := savedTokens, savedBlacklist;
      }
    }

    method LogoutUser(token: RefreshToken, accessId: string, now: int) returns (error: Option<AuthError>)
      requires Inv(View()) && Possible(View(), Logout(token, accessId, now))
      modifies this
      ensures Inv(View()) && Took(old(View()), Logout(token, accessId, now), error)
    {
      StepKeepsInv(slack, View(), Logout(token, accessId, now));
      clock := now;
      if accessId !in minted || !Decodes(slack, minted[accessId].exp, now) {
        return Some(InvalidToken);
      }
      if token !in refreshTokens {
        return Some(NotFound);
      }
      if refreshTokens[token].expires >= now {
        refreshTokens := refreshTokens[token := refreshTokens[token].(revoked := true)];
      }
      if accessId !in tokenBlacklist {
        tokenBlacklist := tokenBlacklist[accessId := minted[accessId].exp];
      }
      error := None;
    }

    method CleanupBlacklist(now: int) returns (deleted: nat)
      requires Inv(View()) && Possible(View(), CleanBlacklist(now))
      modifies this
      ensures Inv(View()) && View() == After(slack, old(View()), CleanBlacklist(now))
      ensures deleted == |old(tokenBlacklist)| - |tokenBlacklist|
    {
      StepKeepsInv(slack, View(), CleanBlacklist(now));
      var kept := map jti | jti in tokenBlacklist && tokenBlacklist[jti] >= now :: tokenBlacklist[jti];
      KeptIsSmaller(kept, tokenBlacklist);
      deleted := |tokenBlacklist| - |kept|;
      tokenBlacklist, clock := kept, now;
    }

    method CleanupRefresh(now: int) returns (deleted: nat)
      requires Inv(View()) && Possible(View(), CleanRefresh(now))
      modifies this
      ensures Inv(View()) && View() == After(slack, old(View()), CleanRefresh(now))
      ensures deleted == |old(refreshTokens)| - |refreshTokens|
    {
      StepKeepsInv(slack, View(), CleanRefresh(now));
      var kept := map token | token in refreshTokens && refreshTokens[token].expires >= now :: refreshTokens[token];
      KeptIsSmaller(kept, refreshTokens);
      deleted := |refreshTokens| - |kept|;
      refreshTokens, clock := kept, now;
    }
  }

  lemma KeptIsSmaller<K, V>(kept: map<K, V>, all: map<K, V>)
    requires kept.Keys <= all.Keys
    ensures |kept| <= |all|
  {
    assert |kept| == |kept.Keys| && |all| == |all.Keys|;
    SubsetSize(kept.Keys, all.Keys);
  }
}
