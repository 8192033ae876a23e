/**
 The one-time-password life cycle: a FORGOT code is issued, verified into a RESET permission and
 consumed by a password change.  Registration codes share the table.  Users are keyed by their
 e-mail; a password hash matches exactly the password it was made from.
 */
module PasswordReset {
  import opened Basics

  datatype Kind = RegisterOtp | ForgotOtp | ResetOtp

  datatype Otp = Otp(user: string, code: string, kind: Kind, expires: int)

  datatype User = User(password: string, verified: bool)

  /** The otps table is in order of `created_at`. */
  datatype State = State(users: map<string, User>, otps: seq<Otp>)

  const OTP_TTL: int := 10 * 60 * 1_000_000

  datatype Event =
    | Register(user: string, password: string, code: string, now: int)
    | VerifyRegistration(user: string, code: string, now: int)
    | Forgot(user: string, code: string, now: int)
    | VerifyReset(user: string, code: string, now: int)
    | Reset(user: string, password: string, now: int)
    | Cleanup(now: int)

  datatype OtpError = Conflict | UserNotFound | NoOtp | Expired | WrongCode | SamePassword

  // ------------------------------------------------------------- the operations

  function Filter(otps: seq<Otp>, keep: Otp -> bool): seq<Otp> {
    if otps == [] then []
    else Filter(otps[..|otps| - 1], keep) + if keep(otps[|otps| - 1]) then [otps[|otps| - 1]] else []
  }

  /** The latest row of the user of one of the kinds, or -1. */
  function Latest(otps: seq<Otp>, user: string, kinds: set<Kind>): (i: int)
    ensures -1 <= i < |otps|
    ensures i >= 0 ==> otps[i].user == user && otps[i].kind in kinds
  {
    if otps == [] then -1
    else if otps[|otps| - 1].user == user && otps[|otps| - 1].kind in kinds then |otps| - 1
    else Latest(otps[..|otps| - 1], user, kinds)
  }

  function Delete(otps: seq<Otp>, i: nat): seq<Otp>
    requires i < |otps|
  {
    otps[..i] + otps[i + 1..]
  }

  function NotForgotOf(user: string): Otp -> bool {
    (o: Otp) => !(o.user == user && o.kind == ForgotOtp)
  }

  /** What the expiry cleanup keeps. */
  function Unexpired(now: int): Otp -> bool {
    (o: Otp) => o.expires >= now
  }

  function Apply(s: State, e: Event): Result<State, OtpError> {
    match e
    case Register(user, password, code, now) =>
      if user in s.users then Failure(Conflict)
      else Success(State(s.users[user := User(password, false)], s.otps + [Otp(user, code, RegisterOtp, now + OTP_TTL)]))
    case VerifyRegistration(user, code, now) =>
      var i := Latest(s.otps, user, {RegisterOtp, ForgotOtp, ResetOtp});
      if user !in s.users then Failure(UserNotFound)
      else if i < 0 then Failure(NoOtp)
      else if now > s.otps[i].expires then Failure(Expired)
      else if s.otps[i].code != code then Failure(WrongCode)
      else Success(State(s.users[user := s.users[user].(verified := true)], Delete(s.otps, i)))
    case Forgot(user, code, now) =>
      if user !in s.users then Success(s)
      else Success(s.(otps := Filter(s.otps, NotForgotOf(user)) + [Otp(user, code, ForgotOtp, now + OTP_TTL)]))
    case VerifyReset(user, code, now) =>
      var i := Latest(s.otps, user, {ForgotOtp});
      if user !in s.users then Failure(UserNotFound)
      else if i < 0 then Failure(NoOtp)
      else if now > s.otps[i].expires then Failure(Expired)
      else if s.otps[i].code != code then Failure(WrongCode)
      else Success(s.(otps := s.otps[i := s.otps[i].(kind := ResetOtp)]))
    case Reset(user, password, now) =>
      var i := Latest(s.otps, user, {ResetOtp});
      if user !in s.users then Failure(UserNotFound)
      else if i < 0 then Failure(NoOtp)
      else if now > s.otps[i].expires then Failure(Expired)
      else if s.users[user].password == password then Failure(SamePassword)
      else Success(State(s.users[user := s.users[user].(password := password)], Delete(s.otps, i)))
    case Cleanup(now) =>
      Success(s.(otps := Filter(s.otps, Unexpired(now))))
  }

  function After(s: State, e: Event): State {
    match Apply(s, e)
    case Success(s') => s'
    case Failure(_) => s
  }

  /** The state after a run that begins with empty tables. */
  function Run(es: seq<Event>): State {
    if es == [] then State(map[], []) else After(Run(es[..|es| - 1]), es[|es| - 1])
  }

  // ------------------------------------------------------------- counting

  predicate Is(o: Otp, user: string, kind: Kind) { o.user == user && o.kind == kind }

  function Rows(otps: seq<Otp>, user: string, kind: Kind): nat {
    if otps == [] then 0
    else Rows(otps[..|otps| - 1], user, kind) + if Is(otps[|otps| - 1], user, kind) then 1 else 0
  }

  lemma {:induction false} RowsOfSplit(a: seq<Otp>, b: seq<Otp>, user: string, kind: Kind)
    ensures Rows(a + b, user, kind) == Rows(a, user, kind) + Rows(b, user, kind)
  {
    if b == [] {
      assert a + b == a;
    } else {
      assert (a + b)[..|a + b| - 1] == a + b[..|b| - 1];
      RowsOfSplit(a, b[..|b| - 1], user, kind);
    }
  }

  lemma RowsOfOne(o: Otp, user: string, kind: Kind)
    ensures Rows([o], user, kind) == if Is(o, user, kind) then 1 else 0
  {
    assert [o][..0] == [];
  }

  lemma RowsAround(otps: seq<Otp>, i: nat, o: Otp, user: string, kind: Kind)
    requires i < |otps|
    ensures Rows(otps[i := o], user, kind) ==
            Rows(Delete(otps, i), user, kind) + if Is(o, user, kind) then 1 else 0
  {
    var front, back := otps[..i], otps[i + 1..];
    assert otps[i := o] == front + [o] + back;
    RowsOfSplit(front + [o], back, user, kind);
    RowsOfSplit(front, [o], user, kind);
    RowsOfSplit(front, back, user, kind);
    RowsOfOne(o, user, kind);
  }

  /** Deleting a row lowers its own count by one. */
  lemma RowsOfDelete(otps: seq<Otp>, i: nat, user: string, kind: Kind)
    requires i < |otps|
    ensures Rows(otps, user, kind) == Rows(Delete(otps, i), user, kind) + if Is(otps[i], user, kind) then 1 else 0
  {
    RowsAround(otps, i, otps[i], user, kind);
    assert otps[i := otps[i]] == otps;
  }

  lemma FilterGrows(otps: seq<Otp>, o: Otp, keep: Otp -> bool, user: string, kind: Kind)
    ensures Filter(otps + [o], keep) == Filter(otps, keep) + if keep(o) then [o] else []
    ensures Rows(Filter(otps + [o], keep), user, kind) ==
            Rows(Filter(otps, keep), user, kind) + if keep(o) && Is(o, user, kind) then 1 else 0
  {
    assert (otps + [o])[..|otps|] == otps;
    RowsOfSplit(Filter(otps, keep), if keep(o) then [o] else [], user, kind);
    RowsOfOne(o, user, kind);
  }

  lemma {:induction false} RowsOfFilter(otps: seq<Otp>, keep: Otp -> bool, user: string, kind: Kind)
    ensures Rows(Filter(otps, keep), user, kind) <= Rows(otps, user, kind)
    ensures (forall o :: o in otps && Is(o, user, kind) ==> !keep(o)) ==> Rows(Filter(otps, keep), user, kind) == 0
    ensures (forall o :: o in otps && Is(o, user, kind) ==> keep(o)) ==>
              Rows(Filter(otps, keep), user, kind) == Rows(otps, user, kind)
    ensures forall o :: o in Filter(otps, keep) ==> o in otps && keep(o)
  {
    if otps != [] {
      var before, last := otps[..|otps| - 1], otps[|otps| - 1];
      assert otps == before + [last];
      RowsOfFilter(before, keep, user, kind);
      FilterGrows(before, last, keep, user, kind);
      AppendRow(before, last, user, kind);
      hide Filter, Rows, Is;
      assert forall o :: o in otps <==> o in before || o == last;
    }
  }

  lemma AppendRow(otps: seq<Otp>, o: Otp, user: string, kind: Kind)
    ensures Rows(otps + [o], user, kind) == Rows(otps, user, kind) + if Is(o, user, kind) then 1 else 0
  {
    RowsOfSplit(otps, [o], user, kind);
    RowsOfOne(o, user, kind);
  }

  // ------------------------------------------------------------- one step

  /** How a step changes the number of FORGOT rows of a user. */
  lemma StepOnForgotRows(s: State, e: Event, user: string)
    ensures e.Forgot? && e.user == user && user in s.users ==> Rows(After(s, e).otps, user, ForgotOtp) == 1
    ensures e.VerifyReset? && e.user == user && Apply(s, e).Success? ==>
              Rows(After(s, e).otps, user, ForgotOtp) == Rows(s.otps, user, ForgotOtp) - 1
    ensures !(e.Forgot? && e.user == user) ==> Rows(After(s, e).otps, user, ForgotOtp) <= Rows(s.otps, user, ForgotOtp)
  {
    match e {
      case Register(u, password, code, now) =>
        AppendRow(s.otps, Otp(u, code, RegisterOtp, now + OTP_TTL), user, ForgotOtp);
      case VerifyRegistration(u, code, now) =>
        DeleteOnRows(s, Latest(s.otps, u, {RegisterOtp, ForgotOtp, ResetOtp}), user, ForgotOtp);
      case Forgot(u, code, now) =>
        ForgotOnRows(s.otps, u, Otp(u, code, ForgotOtp, now + OTP_TTL), user);
      case VerifyReset(u, code, now) =>
        var i := Latest(s.otps, u, {ForgotOtp});
        if i >= 0 {
          RetypeOnRows(s.otps, i, user);
        }
      case Reset(u, password, now) =>
        DeleteOnRows(s, Latest(s.otps, u, {ResetOtp}), user, ForgotOtp);
      case Cleanup(now) =>
        RowsOfFilter(s.otps, Unexpired(now), user, ForgotOtp);
    }
  }

  /** How a step changes the number of RESET rows of a user. */
  lemma StepOnResetRows(s: State, e: Event, user: string)
    ensures e.VerifyReset? && e.user == user && Apply(s, e).Success? ==>
              Rows(After(s, e).otps, user, ResetOtp) == Rows(s.otps, user, ResetOtp) + 1
    ensures !(e.VerifyReset? && e.user == user) ==> Rows(After(s, e).otps, user, ResetOtp) <= Rows(s.otps, user, ResetOtp)
    ensures e.Reset? && e.user == user && Apply(s, e).Success? ==>
              Rows(After(s, e).otps, user, ResetOtp) == Rows(s.otps, user, ResetOtp) - 1
  {
    match e {
      case Register(u, password, code, now) =>
        AppendRow(s.otps, Otp(u, code, RegisterOtp, now + OTP_TTL), user, ResetOtp);
      case VerifyRegistration(u, code, now) =>
        DeleteOnRows(s, Latest(s.otps, u, {RegisterOtp, ForgotOtp, ResetOtp}), user, ResetOtp);
      case Forgot(u, code, now) =>
        ForgotOnRows(s.otps, u, Otp(u, code, ForgotOtp, now + OTP_TTL), user);
      case VerifyReset(u, code, now) =>
        var i := Latest(s.otps, u, {ForgotOtp});
        if i >= 0 {
          RetypeOnRows(s.otps, i, user);
        }
      case Reset(u, password, now) =>
        DeleteOnRows(s, Latest(s.otps, u, {ResetOtp}), user, ResetOtp);
      case Cleanup(now) =>
        RowsOfFilter(s.otps, Unexpired(now), user, ResetOtp);
    }
  }

  lemma DeleteOnRows(s: State, i: int, user: string, kind: Kind)
    requires i < |s.otps|
    ensures i >= 0 ==>
              Rows(Delete(s.otps, i), user, kind) == Rows(s.otps, user, kind) - if Is(s.otps[i], user, kind) then 1 else 0
  {
    if i >= 0 {
      RowsOfDelete(s.otps, i, user, kind);
    }
  }

  lemma RetypeOnRows(otps: seq<Otp>, i: nat, user: string)
    requires i < |otps| && otps[i].kind == ForgotOtp
    ensures var after := otps[i := otps[i].(kind := ResetOtp)];
            var one := if otps[i].user == user then 1 else 0;
            && Rows(after, user, ForgotOtp) == Rows(otps, user, ForgotOtp) - one
            && Rows(after, user, ResetOtp) == Rows(otps, user, ResetOtp) + one
  {
    RowsOfDelete(otps, i, user, ForgotOtp);
    RowsOfDelete(otps, i, user, ResetOtp);
    RowsAround(otps, i, otps[i].(kind := ResetOtp), user, ForgotOtp);
    RowsAround(otps, i, otps[i].(kind := ResetOtp), user, ResetOtp);
  }

  lemma ForgotOnRows(otps: seq<Otp>, u: string, o: Otp, user: string)
    requires o.user == u && o.kind == ForgotOtp
    ensures var after := Filter(otps, NotForgotOf(u)) + [o];
            && Rows(after, user, ResetOtp) == Rows(otps, user, ResetOtp)
            && Rows(after, user, ForgotOtp) == if user == u then 1 else Rows(otps, user, ForgotOtp)
  {
    var keep := NotForgotOf(u);
    RowsOfFilter(otps, keep, user, ResetOtp);
    RowsOfFilter(otps, keep, user, ForgotOtp);
    AppendRow(Filter(otps, keep), o, user, ResetOtp);
    AppendRow(Filter(otps, keep), o, user, ForgotOtp);
  }

  // ------------------------------------------------------------- over whole runs

  /** After any run a user has at most one FORGOT code. */
  lemma {:induction false} OneForgotCode(es: seq<Event>, user: string)
    ensures Rows(Run(es).otps, user, ForgotOtp) <= 1
  {
    if es != [] {
      OneForgotCode(es[..|es| - 1], user);
      StepOnForgotRows(Run(es[..|es| - 1]), es[|es| - 1], user);
    }
  }

  function ForgotsOf(user: string): Event -> bool { (e: Event) => e.Forgot? && e.user == user }
  function VerifiesOf(user: string): Event -> bool { (e: Event) => e.VerifyReset? && e.user == user }
  function ResetsOf(user: string): Event -> bool { (e: Event) => e.Reset? && e.user == user }

  /** The successful events of a run that satisfy `p`. */
  function Successes(es: seq<Event>, p: Event -> bool): nat {
    if es == [] then 0
    else
      var before, e := es[..|es| - 1], es[|es| - 1];
      Successes(before, p) + if p(e) && Apply(Run(before), e).Success? then 1 else 0
  }

  /**
   Permissions are conserved: password changes plus unused RESET rows never exceed verifications,
   and verifications plus the unverified FORGOT row never exceed requests.
   */
  lemma {:induction false} PermissionsConserved(es: seq<Event>, user: string)
    ensures Successes(es, ResetsOf(user)) + Rows(Run(es).otps, user, ResetOtp) <= Successes(es, VerifiesOf(user))
    ensures Successes(es, VerifiesOf(user)) + Rows(Run(es).otps, user, ForgotOtp) <= Successes(es, ForgotsOf(user))
  {
    if es != [] {
      var before, e := es[..|es| - 1], es[|es| - 1];
      PermissionsConserved(before, user);
      StepOnForgotRows(Run(before), e, user);
      StepOnResetRows(Run(before), e, user);
      UnfoldSuccesses(es, ResetsOf(user));
      UnfoldSuccesses(es, VerifiesOf(user));
      UnfoldSuccesses(es, ForgotsOf(user));
    }
  }

  lemma UnfoldSuccesses(es: seq<Event>, p: Event -> bool)
    requires es != []
    ensures Successes(es, p) == Successes(es[..|es| - 1], p) +
                                if p(es[|es| - 1]) && Apply(Run(es[..|es| - 1]), es[|es| - 1]).Success? then 1 else 0
  {
  }

  // ------------------------------------------------------------- where a permission comes from

  /** The run issued this code to this user, to expire when the row says. */
  predicate IssuedBy(e: Event, o: Otp) {
    e.Forgot? && e.user == o.user && e.code == o.code && e.now + OTP_TTL == o.expires
  }

  /** The user presented this code in time. */
  predicate ProvedBy(e: Event, o: Otp) {
    e.VerifyReset? && e.user == o.user && e.code == o.code && e.now <= o.expires
  }

  ghost predicate Issued(es: seq<Event>, o: Otp) {
    exists i :: 0 <= i < |es| && IssuedBy(es[i], o)
  }

  ghost predicate Proved(es: seq<Event>, o: Otp) {
    exists i, j :: 0 <= i < j < |es| && IssuedBy(es[i], o) && ProvedBy(es[j], o)
  }

  ghost predicate Grounded(es: seq<Event>, o: Otp) {
    && (o.kind == ForgotOtp ==> Issued(es, o))
    && (o.kind == ResetOtp ==> Proved(es, o))
  }

  lemma GroundedGrows(es: seq<Event>, e: Event, o: Otp)
    requires Grounded(es, o)
    ensures Grounded(es + [e], o)
  {
    var all := es + [e];
    assert forall i :: 0 <= i < |es| ==> all[i] == es[i];
    if o.kind == ForgotOtp {
      var i :| 0 <= i < |es| && IssuedBy(es[i], o);
      assert IssuedBy(all[i], o);
    } else if o.kind == ResetOtp {
      var i, j :| 0 <= i < j < |es| && IssuedBy(es[i], o) && ProvedBy(es[j], o);
      assert IssuedBy(all[i], o) && ProvedBy(all[j], o);
    }
  }

  /** A row after a step is a row from before, the row just issued, or the row just verified. */
  lemma RowOrigin(s: State, e: Event, o: Otp)
    requires o in After(s, e).otps
    ensures o in s.otps || o.kind == RegisterOtp || (o.kind == ForgotOtp && IssuedBy(e, o))
            || (o.kind == ResetOtp && ProvedBy(e, o) && o.(kind := ForgotOtp) in s.otps)
  {
    match e {
      case Forgot(user, code, now) =>
        RowsOfFilter(s.otps, NotForgotOf(user), user, ForgotOtp);
      case Cleanup(now) =>
        RowsOfFilter(s.otps, Unexpired(now), "", ForgotOtp);
      case VerifyReset(user, code, now) =>
        var i := Latest(s.otps, user, {ForgotOtp});
        if Apply(s, e).Success? && o !in s.otps {
          assert o == s.otps[i].(kind := ResetOtp);
          assert o.(kind := ForgotOtp) == s.otps[i];
        }
      case _ =>
    }
  }

  lemma {:induction false} RowsAreGrounded(es: seq<Event>, o: Otp)
    requires o in Run(es).otps
    ensures Grounded(es, o)
    decreases |es|
  {
    if es != [] {
      var before, e := es[..|es| - 1], es[|es| - 1];
      assert es == before + [e];
      RowOrigin(Run(before), e, o);
      if o in Run(before).otps {
        RowsAreGrounded(before, o);
        GroundedGrows(before, e, o);
      } else if o.kind == ForgotOtp {
        assert IssuedBy(es[|before|], o);
      } else if o.kind == ResetOtp {
        var forgot := o.(kind := ForgotOtp);
        RowsAreGrounded(before, forgot);
        var i :| 0 <= i < |before| && IssuedBy(before[i], forgot);
        assert IssuedBy(es[i], o) && ProvedBy(es[|before|], o);
      }
    }
  }

  /** The pair of events that entitles `reset`: a code issued to the user and presented before it ran out. */
  ghost predicate Entitled(es: seq<Event>, i: int, j: int, reset: Event)
    requires reset.Reset?
  {
    && 0 <= i < j < |es| && es[i].Forgot? && es[j].VerifyReset?
    && es[i].user == es[j].user == reset.user && es[i].code == es[j].code
    && es[j].now <= es[i].now + OTP_TTL && reset.now <= es[i].now + OTP_TTL
  }

  /**
   Whenever a password is changed, the run holds an earlier request and, after it, a verification
   with that very code; both the verification and the change fall within the code's life.
   */
  lemma ChangeNeedsVerifiedCode(es: seq<Event>, reset: Event)
    requires reset.Reset? && Apply(Run(es), reset).Success?
    ensures exists i, j :: Entitled(es, i, j, reset)
  {
    var otps := Run(es).otps;
    var o := otps[Latest(otps, reset.user, {ResetOtp})];
    assert o in otps;
    RowsAreGrounded(es, o);
    var i, j :| 0 <= i < j < |es| && IssuedBy(es[i], o) && ProvedBy(es[j], o);
    assert Entitled(es, i, j, reset);
  }

  /** Only a reset changes a password, and never to the one already set. */
  lemma PasswordChangesOnlyByReset(s: State, e: Event, user: string)
    requires user in s.users
    ensures user in After(s, e).users
    ensures After(s, e).users[user].password != s.users[user].password <==>
            e.Reset? && e.user == user && Apply(s, e).Success?
  {
  }

  lemma {:induction false} LatestLast(otps: seq<Otp>, o: Otp, kinds: set<Kind>)
    requires o.kind in kinds
    ensures Latest(otps + [o], o.user, kinds) == |otps|
  {
  }

  /** The flow works: a known user who presents the code in time can set any other password. */
  lemma ResetFlowSucceeds(s: State, user: string, code: string, password: string, asked: int, verified: int, reset: int)
    requires user in s.users && s.users[user].password != password
    requires verified <= asked + OTP_TTL && reset <= asked + OTP_TTL
    ensures var s1 := After(s, Forgot(user, code, asked));
            var s2 := After(s1, VerifyReset(user, code, verified));
            && Apply(s1, VerifyReset(user, code, verified)).Success?
            && Apply(s2, Reset(user, password, reset)).Success?
            && After(s2, Reset(user, password, reset)).users[user].password == password
  {
    var kept, o := Filter(s.otps, NotForgotOf(user)), Otp(user, code, ForgotOtp, asked + OTP_TTL);
    LatestLast(kept, o, {ForgotOtp});
    assert (kept + [o])[|kept| := o.(kind := ResetOtp)] == kept + [o.(kind := ResetOtp)];
    LatestLast(kept, o.(kind := ResetOtp), {ResetOtp});
  }

  // ------------------------------------------------------------- when an operation succeeds

  /** `Latest` is the last row of the user of one of the kinds, and -1 only if there is none. */
  lemma {:induction false} LatestExactly(otps: seq<Otp>, user: string, kinds: set<Kind>)
    ensures forall j :: Latest(otps, user, kinds) < j < |otps| ==> !(otps[j].user == user && otps[j].kind in kinds)
  {
    if otps != [] {
      LatestExactly(otps[..|otps| - 1], user, kinds);
    }
  }

  lemma {:induction false} FilterSplit(a: seq<Otp>, b: seq<Otp>, keep: Otp -> bool)
    ensures Filter(a + b, keep) == Filter(a, keep) + Filter(b, keep)
  {
    if b == [] {
      assert a + b == a;
    } else {
      assert (a + b)[..|a + b| - 1] == a + b[..|b| - 1];
      FilterSplit(a, b[..|b| - 1], keep);
    }
  }

  lemma FilterAround(before: seq<Otp>, o: Otp, after: seq<Otp>, keep: Otp -> bool)
    ensures Filter(before + [o] + after, keep) == Filter(before, keep) + (if keep(o) then [o] else []) + Filter(after, keep)
  {
    assert [o][..0] == [];
    assert Filter([o], keep) == if keep(o) then [o] else [];
    hide Filter;
    FilterSplit(before + [o], after, keep);
    FilterSplit(before, [o], keep);
  }

  /** The cleanup deletes a row exactly when its expiry has passed, wherever it stands, and touches nothing else. */
  lemma CleanupExactly(users: map<string, User>, before: seq<Otp>, o: Otp, after: seq<Otp>, now: int)
    ensures After(State(users, before + [o] + after), Cleanup(now)) ==
            State(users, After(State(users, before), Cleanup(now)).otps + (if now <= o.expires then [o] else [])
                         + After(State(users, after), Cleanup(now)).otps)
  {
    FilterAround(before, o, after, Unexpired(now));
    hide Filter;
  }

  /** A request replaces the FORGOT codes of a known user by the new one, the last row; other rows stay, in order. */
  lemma ForgotExactly(users: map<string, User>, before: seq<Otp>, o: Otp, after: seq<Otp>, user: string, code: string, now: int)
    ensures var s, e := State(users, before + [o] + after), Forgot(user, code, now);
            && Apply(s, e).Success?
            && (user !in users ==> After(s, e) == s)
            && (user in users ==>
                  var kept := Filter(before, NotForgotOf(user)) + (if o.user == user && o.kind == ForgotOtp then [] else [o])
                              + Filter(after, NotForgotOf(user));
                  After(s, e) == State(users, kept + [Otp(user, code, ForgotOtp, now + OTP_TTL)]))
  {
    FilterAround(before, o, after, NotForgotOf(user));
    hide Filter;
  }

  lemma {:induction false} RowCounts(otps: seq<Otp>, i: nat, user: string, kind: Kind)
    requires i < |otps| && Is(otps[i], user, kind)
    ensures Rows(otps, user, kind) >= 1
  {
    if i < |otps| - 1 {
      RowCounts(otps[..|otps| - 1], i, user, kind);
    }
  }

  lemma {:induction false} OnlyRow(otps: seq<Otp>, user: string, kind: Kind, i: nat, j: nat)
    requires Rows(otps, user, kind) <= 1 && i < |otps| && j < |otps| && Is(otps[i], user, kind) && Is(otps[j], user, kind)
    ensures i == j
  {
    var n := |otps| - 1;
    if i < n && j < n {
      OnlyRow(otps[..n], user, kind, i, j);
    } else if i < n {
      RowCounts(otps[..n], i, user, kind);
    } else if j < n {
      RowCounts(otps[..n], j, user, kind);
    }
  }

  /** A row of a FORGOT code the user may still present. */
  predicate Presentable(o: Otp, user: string, code: string, now: int) {
    o.user == user && o.kind == ForgotOtp && o.code == code && now <= o.expires
  }

  /**
   After any run, a code is verified exactly when the user is known and holds it, unexpired, as a FORGOT code;
   it becomes a RESET row in its place.
   */
  lemma VerifyExactly(es: seq<Event>, user: string, code: string, now: int)
    ensures var s, e := Run(es), VerifyReset(user, code, now);
            && (Apply(s, e).Success? <==> user in s.users && exists o :: o in s.otps && Presentable(o, user, code, now))
            && forall i :: 0 <= i < |s.otps| && user in s.users && Presentable(s.otps[i], user, code, now) ==>
                 After(s, e) == s.(otps := s.otps[i := s.otps[i].(kind := ResetOtp)])
  {
    var s, e := Run(es), VerifyReset(user, code, now);
    var last := Latest(s.otps, user, {ForgotOtp});
    OneForgotCode(es, user);
    LatestExactly(s.otps, user, {ForgotOtp});
    hide Run;
    forall i | 0 <= i < |s.otps| && Presentable(s.otps[i], user, code, now) ensures i == last {
      assert last >= i;
      OnlyRow(s.otps, user, ForgotOtp, i, last);
    }
    if Apply(s, e).Success? {
      assert s.otps[last] in s.otps && Presentable(s.otps[last], user, code, now);
    }
    if exists o :: o in s.otps && Presentable(o, user, code, now) {
      var i :| 0 <= i < |s.otps| && Presentable(s.otps[i], user, code, now);
      assert i == last;
    }
  }

  /** Why a verification is refused: no such user, no FORGOT code, or the one there is has expired or is another. */
  lemma VerifyRefused(s: State, user: string, code: string, now: int)
    ensures var r := Apply(s, VerifyReset(user, code, now));
            && (user !in s.users <==> r == Failure(UserNotFound))
            && (r == Failure(NoOtp) <==> user in s.users && forall o :: o in s.otps ==> !(o.user == user && o.kind == ForgotOtp))
            && (r == Failure(Expired) ==> exists o :: o in s.otps && o.user == user && o.kind == ForgotOtp && o.expires < now)
            && (r == Failure(WrongCode) ==>
                  exists o :: o in s.otps && o.user == user && o.kind == ForgotOtp && now <= o.expires && o.code != code)
            && r != Failure(Conflict) && r != Failure(SamePassword)
  {
    LatestExactly(s.otps, user, {ForgotOtp});
    var i := Latest(s.otps, user, {ForgotOtp});
    if i >= 0 {
      assert s.otps[i] in s.otps;
    }
  }

  /** Row `i` is the user's last of that kind. */
  ghost predicate IsLast(otps: seq<Otp>, i: int, user: string, kind: Kind) {
    0 <= i < |otps| && Is(otps[i], user, kind) && forall j :: i < j < |otps| ==> !Is(otps[j], user, kind)
  }

  /**
   A known user sets a password exactly when it is another than before and the last RESET row has not expired;
   that row is deleted, and nothing else changes.
   */
  lemma ResetExactly(s: State, user: string, password: string, now: int)
    ensures var e := Reset(user, password, now);
            && (Apply(s, e).Success? <==>
                  && user in s.users && s.users[user].password != password
                  && exists i :: IsLast(s.otps, i, user, ResetOtp) && now <= s.otps[i].expires)
            && forall i :: Apply(s, e).Success? && IsLast(s.otps, i, user, ResetOtp) ==>
                 After(s, e) == State(s.users[user := User(password, s.users[user].verified)], s.otps[..i] + s.otps[i + 1..])
  {
    LatestExactly(s.otps, user, {ResetOtp});
    var last := Latest(s.otps, user, {ResetOtp});
    forall i | IsLast(s.otps, i, user, ResetOtp) ensures i == last {
    }
    if last >= 0 {
      assert IsLast(s.otps, last, user, ResetOtp);
    }
  }

  /** Why a change is refused. */
  lemma ResetRefused(s: State, user: string, password: string, now: int)
    ensures var r := Apply(s, Reset(user, password, now));
            && (user !in s.users <==> r == Failure(UserNotFound))
            && (r == Failure(NoOtp) <==> user in s.users && forall i :: !IsLast(s.otps, i, user, ResetOtp))
            && (r == Failure(Expired) <==> user in s.users && exists i :: IsLast(s.otps, i, user, ResetOtp) && s.otps[i].expires < now)
            && (r == Failure(SamePassword) ==> s.users[user].password == password)
            && r != Failure(Conflict) && r != Failure(WrongCode)
  {
    LatestExactly(s.otps, user, {ResetOtp});
    var last := Latest(s.otps, user, {ResetOtp});
    forall i | IsLast(s.otps, i, user, ResetOtp) ensures i == last {
    }
    if last >= 0 {
      assert IsLast(s.otps, last, user, ResetOtp);
    }
  }

  /** Row `i` is the user's last of any kind. */
  ghost predicate IsNewest(otps: seq<Otp>, i: int, user: string) {
    0 <= i < |otps| && otps[i].user == user && forall j :: i < j < |otps| ==> otps[j].user != user
  }

  /** A registration is verified exactly by the code of the user's newest row, of whatever kind, in time; that row goes. */
  lemma VerifyRegistrationExactly(s: State, user: string, code: string, now: int)
    ensures var e := VerifyRegistration(user, code, now);
            && (Apply(s, e).Success? <==>
                  user in s.users && exists i :: IsNewest(s.otps, i, user) && s.otps[i].code == code && now <= s.otps[i].expires)
            && forall i :: Apply(s, e).Success? && IsNewest(s.otps, i, user) ==>
                 After(s, e) == State(s.users[user := User(s.users[user].password, true)], s.otps[..i] + s.otps[i + 1..])
  {
    LatestExactly(s.otps, user, {RegisterOtp, ForgotOtp, ResetOtp});
    var last := Latest(s.otps, user, {RegisterOtp, ForgotOtp, ResetOtp});
    forall o: Otp ensures o.kind in {RegisterOtp, ForgotOtp, ResetOtp} {
      assert o.kind.RegisterOtp? || o.kind.ForgotOtp? || o.kind.ResetOtp?;
    }
    forall i | IsNewest(s.otps, i, user) ensures i == last {
    }
    if last >= 0 {
      assert IsNewest(s.otps, last, user);
    }
  }

  /** Registering takes a new user, not verified yet; the code sent, presented in time, verifies them and is used up. */
  lemma RegistrationFlow(s: State, user: string, password: string, code: string, asked: int, presented: int)
    ensures Apply(s, Register(user, password, code, asked)).Success? <==> user !in s.users
    ensures user !in s.users ==>
              var s1, e := After(s, Register(user, password, code, asked)), VerifyRegistration(user, code, presented);
              && s1 == State(s.users[user := User(password, false)], s.otps + [Otp(user, code, RegisterOtp, asked + OTP_TTL)])
              && (Apply(s1, e).Success? <==> presented <= asked + OTP_TTL)
              && (Apply(s1, e).Success? ==> After(s1, e) == State(s.users[user := User(password, true)], s.otps))
  {
    var o := Otp(user, code, RegisterOtp, asked + OTP_TTL);
    LatestLast(s.otps, o, {RegisterOtp, ForgotOtp, ResetOtp});
    assert Delete(s.otps + [o], |s.otps|) == s.otps;
  }

  // ------------------------------------------------------------- the services

  class OtpStore {
    var users: map<string, User>
    var otps: seq<Otp>

    constructor ()
      ensures View() == Run([])
    {
      users, otps := map[], [];
    }

    ghost function View(): State
      reads this
    {
      State(users, otps)
    }

    ghost predicate Took(before: State, e: Event, error: Option<OtpError>)
      reads this
    {
      && View() == After(before, e)
      && error == match Apply(before, e) { case Success(_) => None case Failure(err) => Some(err) }
    }

    /** The loop over the user's FORGOT rows, each deleted in turn. */
    method DeleteForgotCodes(user: string)
      modifies this`otps
      ensures otps == Filter(old(otps), NotForgotOf(user))
    {
      var kept: seq<Otp> := [];
      for i := 0 to |otps|
        invariant otps == old(otps)
        invariant kept == Filter(otps[..i], NotForgotOf(user))
      {
        assert otps[..i + 1][..i] == otps[..i];
        if NotForgotOf(user)(otps[i]) {
          kept := kept + [otps[i]];
        }
      }
      assert otps[..|otps|] == otps;
      otps := kept;
    }

    method ForgotPassword(user: string, code: string, now: int) returns (error: Option<OtpError>)
      modifies this
      ensures Took(old(View()), Forgot(user, code, now), error)
    {
      error := None;
      if user !in users {
        return;
      }
      DeleteForgotCodes(user);
      otps := otps + [Otp(user, code, ForgotOtp, now + OTP_TTL)];
    }

    method VerifyResetOtp(user: string, code: string, now: int) returns (error: Option<OtpError>)
      modifies this
      ensures Took(old(View()), VerifyReset(user, code, now), error)
    {
      if user !in users {
        return Some(UserNotFound);
      }
      var i := Latest(otps, user, {ForgotOtp});
      if i < 0 {
        return Some(NoOtp);
      }
      if now > otps[i].expires {
        return Some(Expired);
      }
      if otps[i].code != code {
        return Some(WrongCode);
      }
      otps := otps[i := otps[i].(kind := ResetOtp)];
      error := None;
    }

    method ResetPassword(user: string, password: string, now: int) returns (error: Option<OtpError>)
      modifies this
      ensures Took(old(View()), Reset(user, password, now), error)
    {
      if user !in users {
        return Some(UserNotFound);
      }
      var i := Latest(otps, user, {ResetOtp});
      if i < 0 {
        return Some(NoOtp);
      }
      if now > otps[i].expires {
        return Some(Expired);
      }
      if users[user].password == password {
        return Some(SamePassword);
      }
      users := users[user := users[user].(password := password)];
      otps := Delete(otps, i);
      error := None;
    }
  }
}
