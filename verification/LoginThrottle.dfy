/** Blocking of repeated failed logins (internal/api/auth_handler.go), in sequential runs.
    Instants are nanoseconds. */
module LoginThrottle {

  const BLOCK_TIME: int := 900_000_000_000
  const MAX_ATTEMPTS: int := 5

  /** How a login that was not blocked ends: only a wrong password counts as a failure, and only
      a login that passes every check clears the count. */
  datatype Outcome = WrongPassword | Disabled | SecondFactorMissing | SecondFactorWrong | Accepted | StoreUnavailable

  /** The handler's two maps. */
  datatype Throttle = Throttle(attempts: map<string, int>, blockedUntil: map<string, int>)

  function Forget(s: Throttle, user: string): Throttle {
    Throttle(s.attempts - {user}, s.blockedUntil - {user})
  }

  predicate Blocked(s: Throttle, user: string, now: int) {
    user in s.blockedUntil && now < s.blockedUntil[user]
  }

  /** Asking also forgets a block that has run out. */
  function Asked(s: Throttle, user: string, now: int): Throttle {
    if user in s.blockedUntil && !Blocked(s, user, now) then Forget(s, user) else s
  }

  function Count(s: Throttle, user: string): int {
    if user in s.attempts then s.attempts[user] else 0
  }

  function Failed(s: Throttle, user: string, now: int): Throttle {
    var n := Count(s, user) + 1;
    Throttle(s.attempts[user := n],
             if n >= MAX_ATTEMPTS then s.blockedUntil[user := now + BLOCK_TIME] else s.blockedUntil)
  }

  function Cleaned(s: Throttle, now: int): Throttle {
    var expired := set user | user in s.blockedUntil && now > s.blockedUntil[user];
    Throttle(s.attempts - expired, s.blockedUntil - expired)
  }

  /** A login asked for at `at`; a wrong password is recorded at `later`. */
  function LoggedIn(s: Throttle, user: string, at: int, later: int, outcome: Outcome): Throttle {
    if Blocked(s, user, at) then s
    else
      var asked := Asked(s, user, at);
      match outcome
      case WrongPassword => Failed(asked, user, later)
      case Accepted => Forget(asked, user)
      case _ => asked
  }

  class AuthHandler {
    var loginAttempts: map<string, int>
    var loginBlockedUntil: map<string, int>

    ghost function State(): Throttle
      reads this
    {
      Throttle(loginAttempts, loginBlockedUntil)
    }

    constructor ()
      ensures State() == Throttle(map[], map[])
    {
      loginAttempts, loginBlockedUntil := map[], map[];
    }

    method IsLoginBlocked(username: string, now: int) returns (blocked: bool)
      modifies this
      ensures blocked == Blocked(old(State()), username, now)
      ensures State() == Asked(old(State()), username, now)
    {
      if username !in loginBlockedUntil {
        return false;
      }
      if now < loginBlockedUntil[username] {
        return true;
      }
      loginBlockedUntil := loginBlockedUntil - {username};
      loginAttempts := loginAttempts - {username};
      return false;
    }

    method RecordFailedLogin(username: string, now: int)
      modifies this
      ensures State() == Failed(old(State()), username, now)
    {
      var n := if username in loginAttempts then loginAttempts[username] else 0;
      loginAttempts := loginAttempts[username := n + 1];
      if loginAttempts[username] >= MAX_ATTEMPTS {
        loginBlockedUntil := loginBlockedUntil[username := now + BLOCK_TIME];
      }
    }

    method ClearFailedLogins(username: string)
      modifies this
      ensures State() == Forget(old(State()), username)
    {
      loginAttempts := loginAttempts - {username};
      loginBlockedUntil := loginBlockedUntil - {username};
    }

    /** One tick of the cleanup loop: the map is ranged over in any order, deleting as it goes. */
    method CleanupTick(now: int)
      modifies this
      ensures State() == Cleaned(old(State()), now)
      ensures forall u :: u in loginBlockedUntil <==> u in old(loginBlockedUntil) && now <= old(loginBlockedUntil)[u]
      ensures forall u :: u in loginAttempts <==>
                u in old(loginAttempts) && (u in old(loginBlockedUntil) ==> u in loginBlockedUntil)
      ensures forall u :: u in loginBlockedUntil ==> loginBlockedUntil[u] == old(loginBlockedUntil)[u]
      ensures forall u :: u in loginAttempts ==> loginAttempts[u] == old(loginAttempts)[u]
    {
      ghost var before := State();
      var remaining := loginBlockedUntil.Keys;
      while remaining != {}
        invariant remaining <= before.blockedUntil.Keys
        invariant var seen := set u | u in before.blockedUntil && u !in remaining && now > before.blockedUntil[u];
                  State() == Throttle(before.attempts - seen, before.blockedUntil - seen)
        decreases remaining
      {
        var username :| username in remaining;
        remaining := remaining - {username};
        ghost var seen := set u | u in before.blockedUntil && u !in remaining && now > before.blockedUntil[u];
        if now > loginBlockedUntil[username] {
          loginBlockedUntil := loginBlockedUntil - {username};
          loginAttempts := loginAttempts - {username};
        }
        assert loginBlockedUntil == before.blockedUntil - seen;
        assert loginAttempts == before.attempts - seen;
      }
      assert (set u | u in before.blockedUntil && u !in remaining && now > before.blockedUntil[u])
          == (set u | u in before.blockedUntil && now > before.blockedUntil[u]);
    }

    method Login(username: string, at: int, later: int, outcome: Outcome) returns (blocked: bool)
      modifies this
      ensures blocked == Blocked(old(State()), username, at)
      ensures State() == LoggedIn(old(State()), username, at, later, outcome)
    {
      blocked := IsLoginBlocked(username, at);
      if blocked {
        return;
      }
      match outcome {
        case WrongPassword => RecordFailedLogin(username, later);
        case Accepted => ClearFailedLogins(username);
        case _ =>
      }
    }
  }

  // ---------------------------------------------------------------- runs

  datatype Event =
    | Login(user: string, at: int, later: int, outcome: Outcome)
    | Cleanup(at: int)

  function Step(s: Throttle, e: Event): Throttle {
    match e
    case Login(user, at, later, outcome) => LoggedIn(s, user, at, later, outcome)
    case Cleanup(at) => Cleaned(s, at)
  }

  function After(events: seq<Event>): Throttle {
    if events == [] then Throttle(map[], map[])
    else Step(After(events[..|events| - 1]), events[|events| - 1])
  }

  /** The answers to the logins, in order: blocked or not. */
  function Decisions(events: seq<Event>): seq<bool> {
    if events == [] then []
    else
      var front, e := events[..|events| - 1], events[|events| - 1];
      Decisions(front) + if e.Login? then [Blocked(After(front), e.user, e.at)] else []
  }

  function Logins(events: seq<Event>): seq<Event> {
    if events == [] then []
    else
      var e := events[|events| - 1];
      Logins(events[..|events| - 1]) + if e.Login? then [e] else []
  }

  function EndOf(e: Event): int {
    if e.Login? then e.later else e.at
  }

  /** The clock does not run backwards. */
  ghost predicate Monotone(events: seq<Event>) {
    && (forall i :: 0 <= i < |events| ==> events[i].at <= EndOf(events[i]))
    && (forall i, j :: 0 <= i < j < |events| ==> EndOf(events[i]) <= events[j].at)
  }

  /** t is s with some blocks forgotten that had run out before `now`. */
  ghost predicate Tidier(s: Throttle, t: Throttle, now: int) {
    forall u {:trigger u in s.blockedUntil} {:trigger u in t.blockedUntil}
             {:trigger u in s.attempts} {:trigger u in t.attempts} ::
      || ((u in s.blockedUntil <==> u in t.blockedUntil) && (u in s.attempts <==> u in t.attempts)
          && (u in s.blockedUntil ==> s.blockedUntil[u] == t.blockedUntil[u])
          && (u in s.attempts ==> s.attempts[u] == t.attempts[u]))
      || (u in s.blockedUntil && s.blockedUntil[u] < now && u !in t.blockedUntil && u !in t.attempts)
  }

  lemma TidierLogin(s: Throttle, t: Throttle, now: int, user: string, at: int, later: int, outcome: Outcome)
    requires Tidier(s, t, now) && now <= at <= later
    ensures Blocked(s, user, at) == Blocked(t, user, at)
    ensures Tidier(LoggedIn(s, user, at, later, outcome), LoggedIn(t, user, at, later, outcome), later)
  {}

  lemma TidierCleanup(s: Throttle, t: Throttle, now: int, at: int)
    requires Tidier(s, t, now) && now <= at
    ensures Tidier(s, Cleaned(t, at), at)
  {}

  lemma LastEvent(events: seq<Event>)
    requires events != [] && Monotone(events)
    ensures Monotone(events[..|events| - 1])
    ensures |events| > 1 ==> EndOf(events[|events| - 2]) <= events[|events| - 1].at
  {}

  lemma {:induction false} RunsStayTidier(events: seq<Event>, start: int)
    requires Monotone(events) && (events != [] ==> start <= events[0].at)
    ensures Decisions(Logins(events)) == Decisions(events)
    ensures Tidier(After(Logins(events)), After(events), if events == [] then start else EndOf(events[|events| - 1]))
  {
    if events != [] {
      var front, e := events[..|events| - 1], events[|events| - 1];
      LastEvent(events);
      RunsStayTidier(front, start);
      var now := if front == [] then start else EndOf(front[|front| - 1]);
      var s, t := After(Logins(front)), After(front);
      if e.Login? {
        TidierLogin(s, t, now, e.user, e.at, e.later, e.outcome);
        assert (Logins(front) + [e])[..|Logins(front)|] == Logins(front);
      } else {
        TidierCleanup(s, t, now, e.at);
        assert Logins(front) + [] == Logins(front);
        assert Decisions(front) + [] == Decisions(front);
      }
    }
  }

  /** Cleanup ticks inserted anywhere into a run change no login decision. */
  lemma CleanupIsInvisible(events: seq<Event>)
    requires Monotone(events)
    ensures Decisions(events) == Decisions(Logins(events))
  {
    RunsStayTidier(events, if events == [] then 0 else events[0].at);
  }

  // ---------------------------------------------------------------- when a login is rejected

  /** The user's password failures that no success and no expired block has cleared since. */
  ghost function OpenFailures(events: seq<Event>, user: string): set<int>
    decreases |events|, 2
  {
    set j | 0 <= j < |events| && Fails(events, user, j) && forall k :: j < k < |events| ==> !Clears(events, user, k)
  }

  /** There are five of them, and less than 15 minutes have passed since the last. */
  ghost predicate LockedOut(events: seq<Event>, user: string, at: int)
    decreases |events|, 3
  {
    && |OpenFailures(events, user)| >= 5
    && exists j :: IsLatest(OpenFailures(events, user), j) && 0 <= j < |events|
                   && at < EndOf(events[j]) + 900_000_000_000
  }

  ghost predicate IsLatest(indices: set<int>, j: int) {
    j in indices && forall i :: i in indices ==> i <= j
  }

  /** Event j is a wrong password of the user that was looked at. */
  ghost predicate Fails(events: seq<Event>, user: string, j: int)
    requires 0 <= j < |events|
    decreases |events|, 1
  {
    var e := events[j];
    e.Login? && e.user == user && e.outcome == WrongPassword && !LockedOut(events[..j], user, e.at)
  }

  /** Event k clears the user's failures: a success, or the first look at a block that has run out,
      by a login of the user at its end or later, by a cleanup tick only later. */
  ghost predicate Clears(events: seq<Event>, user: string, k: int)
    requires 0 <= k < |events|
    decreases |events|, 1
  {
    var e := events[k];
    var five := |OpenFailures(events[..k], user)| >= 5;
    if e.Cleanup? then five && !LockedOut(events[..k], user, e.at - 1)
    else e.user == user && !LockedOut(events[..k], user, e.at) && (five || e.outcome == Accepted)
  }

  /** The maps count these failures, and hold a block once there are five. */
  ghost predicate Mirrors(s: Throttle, user: string, events: seq<Event>, failures: set<int>) {
    && Count(s, user) == |failures| <= 5
    && (user in s.blockedUntil <==> |failures| == 5)
    && (forall j :: j in failures ==> 0 <= j < |events|)
    && (|failures| == 5 ==>
          exists j :: IsLatest(failures, j) && s.blockedUntil[user] == EndOf(events[j]) + BLOCK_TIME)
  }

  lemma LockedIsBlocked(s: Throttle, user: string, events: seq<Event>, at: int)
    requires Mirrors(s, user, events, OpenFailures(events, user))
    ensures LockedOut(events, user, at) <==> Blocked(s, user, at)
  {}

  /** One more event clears all failures or none, and may add its own. */
  lemma OpenFailuresStep(front: seq<Event>, e: Event, user: string)
    ensures var events, n := front + [e], |front|;
            OpenFailures(events, user)
            == (if Clears(events, user, n) then {} else OpenFailures(front, user))
               + (if Fails(events, user, n) then {n} else {})
  {
    var events := front + [e];
    assert events[..|front|] == front;
    forall j | 0 <= j < |front|
      ensures Fails(events, user, j) == Fails(front, user, j)
      ensures Clears(events, user, j) == Clears(front, user, j)
    {
      assert events[..j] == front[..j];
    }
  }

  /** What one event does to the user's entries. */
  lemma StepForUser(s: Throttle, e: Event, user: string, clears: bool, fails: bool)
    requires clears == if e.Cleanup? then user in s.blockedUntil && !Blocked(s, user, e.at - 1)
                       else (e.user == user && !Blocked(s, user, e.at)
                             && (user in s.blockedUntil || e.outcome == Accepted))
    requires fails == (e.Login? && e.user == user && e.outcome == WrongPassword && !Blocked(s, user, e.at))
    ensures var t := Step(s, e);
            var n := (if clears then 0 else Count(s, user)) + (if fails then 1 else 0);
            && Count(t, user) == n
            && (user in t.blockedUntil <==> (!clears && user in s.blockedUntil) || (fails && n >= MAX_ATTEMPTS))
            && (user in t.blockedUntil ==>
                  t.blockedUntil[user] == if fails then EndOf(e) + BLOCK_TIME else s.blockedUntil[user])
  {}

  lemma MirrorsStep(s: Throttle, user: string, front: seq<Event>, e: Event)
    requires Mirrors(s, user, front, OpenFailures(front, user))
    ensures Mirrors(Step(s, e), user, front + [e], OpenFailures(front + [e], user))
  {
    var events, n := front + [e], |front|;
    var before := OpenFailures(front, user);
    assert events[..n] == front && events[n] == e;
    OpenFailuresStep(front, e, user);
    LockedIsBlocked(s, user, front, e.at);
    LockedIsBlocked(s, user, front, e.at - 1);
    var clears, fails := Clears(events, user, n), Fails(events, user, n);
    StepForUser(s, e, user, clears, fails);
    hide OpenFailures, LockedOut, Clears, Fails, Step, Blocked;
    MirrorsAfter(s, Step(s, e), user, front, e, before, clears, fails);
  }

  lemma MirrorsAfter(s: Throttle, t: Throttle, user: string, front: seq<Event>, e: Event,
                     before: set<int>, clears: bool, fails: bool)
    requires Mirrors(s, user, front, before)
    requires fails && !clears ==> |before| < 5
    requires var n := (if clears then 0 else Count(s, user)) + (if fails then 1 else 0);
             && Count(t, user) == n
             && (user in t.blockedUntil <==> (!clears && user in s.blockedUntil) || (fails && n >= MAX_ATTEMPTS))
             && (user in t.blockedUntil ==>
                   t.blockedUntil[user] == if fails then EndOf(e) + BLOCK_TIME else s.blockedUntil[user])
    ensures Mirrors(t, user, front + [e], (if clears then {} else before) + (if fails then {|front|} else {}))
  {
    hide Count;
    var events, n := front + [e], |front|;
    var after := (if clears then {} else before) + (if fails then {n} else {});
    assert events[n] == e && forall j :: 0 <= j < n ==> events[j] == front[j];
    assert n !in before;
    if fails {
      assert IsLatest(after, n);
    } else if !clears {
      assert after == before;
    }
  }

  lemma {:induction false} RunMirrors(events: seq<Event>, user: string)
    ensures Mirrors(After(events), user, events, OpenFailures(events, user))
  {
    if events == [] {
      assert OpenFailures(events, user) == {};
    } else {
      var front, e := events[..|events| - 1], events[|events| - 1];
      RunMirrors(front, user);
      MirrorsStep(After(front), user, front, e);
      assert front + [e] == events;
    }
  }

  /** In every sequential run, cleanup ticks included, a login is rejected as blocked exactly when
      five password failures have accumulated since the last success or expiry and less than 15
      minutes have passed since the fifth. */
  lemma RejectedExactly(events: seq<Event>, user: string, at: int)
    ensures Blocked(After(events), user, at) <==> LockedOut(events, user, at)
    ensures LockedOut(events, user, at) ==> |OpenFailures(events, user)| == 5
  {
    RunMirrors(events, user);
    LockedIsBlocked(After(events), user, events, at);
  }
}
