/** The limiter on failed administrator logins.

The table of attempts is a mutable field of the server. One login attempt is one
allow-then-record (or allow-then-clear) step, under the single clock reading that the
login handler takes.
*/
module LoginLimiter {

  // Nanoseconds since Go's zero time, so that 0 is the instant `IsZero` recognises.
  type Instant = nat

  const WINDOW: nat := 15 * 60 * 1_000_000_000
  const MAX_FAILURES: nat := 5
  const MAX_ENTRIES: nat := 4096

  datatype LoginAttempt = LoginAttempt(failures: nat, windowStart: Instant, lockedUntil: Instant)

  type Address = string
  type Table = map<Address, LoginAttempt>

  const NO_ATTEMPT := LoginAttempt(0, 0, 0)

  // ----- The steps, on values

  function Lookup(t: Table, ip: Address): LoginAttempt {
    if ip in t then t[ip] else NO_ATTEMPT
  }

  predicate Locked(a: LoginAttempt, now: Instant) {
    now < a.lockedUntil
  }

  predicate WindowOver(a: LoginAttempt, now: Instant) {
    a.windowStart == 0 || now - a.windowStart > WINDOW
  }

  /** What the sweep removes. */
  predicate Stale(a: LoginAttempt, now: Instant) {
    now - a.windowStart > WINDOW && now > a.lockedUntil
  }

  function Sweep(t: Table, now: Instant): Table {
    map ip | ip in t && !Stale(t[ip], now) :: t[ip]
  }

  /** The table after `loginAllowed`. */
  function Admit(t: Table, ip: Address, now: Instant): Table {
    if !Locked(Lookup(t, ip), now) && WindowOver(Lookup(t, ip), now) then t - {ip} else t
  }

  /** The entry that a recorded failure writes over `a`. */
  function Bump(a: LoginAttempt, now: Instant): LoginAttempt {
    var b := if WindowOver(a, now) then LoginAttempt(0, now, 0) else a;
    var c := b.(failures := b.failures + 1);
    if c.failures >= MAX_FAILURES then c.(lockedUntil := now + WINDOW) else c
  }

  /** The table in which `recordLoginFailure` looks for room. */
  function MakeRoom(t: Table, ip: Address, now: Instant): Table {
    if ip !in t && |t| >= MAX_ENTRIES then Sweep(t, now) else t
  }

  predicate HasRoom(t: Table, ip: Address) {
    ip in t || |t| < MAX_ENTRIES
  }

  /** The table after `recordLoginFailure`. */
  function Record(t: Table, ip: Address, now: Instant): Table {
    var r := MakeRoom(t, ip, now);
    if HasRoom(r, ip) then r[ip := Bump(Lookup(r, ip), now)] else r
  }

  datatype Attempt = Attempt(ip: Address, now: Instant, correct: bool)

  datatype Outcome = Denied | Rejected(recorded: bool) | LoggedIn

  function Answer(t: Table, e: Attempt): Outcome {
    if Locked(Lookup(t, e.ip), e.now) then Denied
    else if e.correct then LoggedIn
    else Rejected(HasRoom(MakeRoom(Admit(t, e.ip, e.now), e.ip, e.now), e.ip))
  }

  function Step(t: Table, e: Attempt): Table {
    match Answer(t, e)
    case Denied => t
    case LoggedIn => Admit(t, e.ip, e.now) - {e.ip}
    case Rejected(_) => Record(Admit(t, e.ip, e.now), e.ip, e.now)
  }

  const SECOND: nat := 1_000_000_000

  /** The seconds of the `Retry-After` header: Go's conversion truncates toward zero. */
  function RetryAfter(wait: int): int {
    (if wait >= 0 then wait / SECOND else -(-wait / SECOND)) + 1
  }

  /** Whoever waits as long as told is no longer locked, and is not told to wait a second more
      than that; a number that is not positive is only told once the lock has ended. */
  lemma RetryAfterSuffices(a: LoginAttempt, later: Instant)
    ensures var r := RetryAfter(a.lockedUntil - later);
            && (r > 0 ==> !Locked(a, later + r * SECOND))
            && (Locked(a, later) ==> 0 < r * SECOND <= a.lockedUntil - later + SECOND)
            && (r <= 0 ==> !Locked(a, later))
  {
  }

  // ----- The server's methods

  class Server {
    var loginAttempts: Table

    /** `later` is the second reading of the clock, from which the wait is told. */
    method LoginAllowed(ip: Address, now: Instant, later: Instant) returns (ok: bool, wait: int)
      modifies this`loginAttempts
      ensures ok == !Locked(Lookup(old(loginAttempts), ip), now)
      ensures wait == if ok then 0 else Lookup(old(loginAttempts), ip).lockedUntil - later
      ensures loginAttempts == Admit(old(loginAttempts), ip, now)
      ensures var a := Lookup(old(loginAttempts), ip);
              loginAttempts == if ok && (a.windowStart == 0 || now - a.windowStart > WINDOW)
                               then old(loginAttempts) - {ip} else old(loginAttempts)
    {
      var a := Lookup(loginAttempts, ip);
      if now < a.lockedUntil {
        return false, a.lockedUntil - later;
      }
      if a.windowStart == 0 || now - a.windowStart > WINDOW {
        loginAttempts := loginAttempts - {ip};
      }
      return true, 0;
    }

    method RecordLoginFailure(ip: Address, now: Instant) returns (ghost recorded: bool)
      modifies this`loginAttempts
      ensures loginAttempts == Record(old(loginAttempts), ip, now)
      ensures recorded == HasRoom(MakeRoom(old(loginAttempts), ip, now), ip)
    {
      if ip !in loginAttempts && |loginAttempts| >= MAX_ENTRIES {
        // The iteration order of the map is arbitrary, and so is the choice of the next key.
        var todo := loginAttempts.Keys;
        while todo != {}
          invariant todo <= old(loginAttempts).Keys
          invariant loginAttempts ==
                    map k | k in old(loginAttempts) && (k in todo || !Stale(old(loginAttempts)[k], now)) ::
                      old(loginAttempts)[k]
        {
          var key :| key in todo;
          var attempt := loginAttempts[key];
          if now - attempt.windowStart > WINDOW && now > attempt.lockedUntil {
            loginAttempts := loginAttempts - {key};
          }
          todo := todo - {key};
        }
        assert loginAttempts == Sweep(old(loginAttempts), now);
        if |loginAttempts| >= MAX_ENTRIES {
          return false;
        }
      }
      var a := Lookup(loginAttempts, ip);
      if a.windowStart == 0 || now - a.windowStart > WINDOW {
        a := LoginAttempt(0, now, 0);
      }
      a := a.(failures := a.failures + 1);
      if a.failures >= MAX_FAILURES {
        a := a.(lockedUntil := now + WINDOW);
      }
      loginAttempts := loginAttempts[ip := a];
      recorded := true;
    }

    method ClearLoginFailures(ip: Address)
      modifies this`loginAttempts
      ensures loginAttempts == old(loginAttempts) - {ip}
    {
      loginAttempts := loginAttempts - {ip};
    }

    /** The part of the login handler between reading the clock and opening a session. */
    method AdminLogin(ip: Address, now: Instant, later: Instant, correct: bool)
      returns (ghost outcome: Outcome, retryAfter: int)
      modifies this`loginAttempts
      ensures outcome == Answer(old(loginAttempts), Attempt(ip, now, correct))
      ensures loginAttempts == Step(old(loginAttempts), Attempt(ip, now, correct))
      ensures outcome == LoggedIn <==> correct && Lookup(old(loginAttempts), ip).lockedUntil <= now
      ensures outcome == LoggedIn ==> loginAttempts == old(loginAttempts) - {ip}
      ensures outcome == Denied ==> loginAttempts == old(loginAttempts)
      ensures outcome == Denied ==> retryAfter == RetryAfter(Lookup(old(loginAttempts), ip).lockedUntil - later)
    {
      retryAfter := 0;
      var ok, wait := LoginAllowed(ip, now, later);
      if !ok {
        return Denied, RetryAfter(wait);
      }
      if !correct {
        ghost var recorded := RecordLoginFailure(ip, now);
        return Rejected(recorded), 0;
      }
      ClearLoginFailures(ip);
      return LoggedIn, 0;
    }
  }

  // ----- Runs

  /** The clock of a run is set, and never goes back. */
  predicate Clocked(run: seq<Attempt>) {
    && (forall i :: 0 <= i < |run| ==> run[i].now > 0)
    && (forall i, j :: 0 <= i < j < |run| ==> run[i].now <= run[j].now)
  }

  ghost function After(t: Table, run: seq<Attempt>): Table {
    if run == [] then t else Step(After(t, run[..|run| - 1]), run[|run| - 1])
  }

  ghost function Answers(t: Table, run: seq<Attempt>): seq<Outcome> {
    if run == [] then []
    else Answers(t, run[..|run| - 1]) + [Answer(After(t, run[..|run| - 1]), run[|run| - 1])]
  }

  /** A recorded failure: when it happened, and the entry it wrote. */
  datatype Failure = Failure(at: Instant, entry: LoginAttempt)

  /** The failures of `ip` that a run records, in order. */
  ghost function Failures(t: Table, run: seq<Attempt>, ip: Address): seq<Failure> {
    if run == [] then []
    else
      var before := run[..|run| - 1];
      var e := run[|run| - 1];
      Failures(t, before, ip)
      + if e.ip == ip && Answer(After(t, before), e) == Rejected(true)
        then [Failure(e.now, Bump(Lookup(After(t, before), ip), e.now))] else []
  }

  ghost predicate NeverLoggedIn(t: Table, run: seq<Attempt>, ip: Address) {
    run != [] ==>
      var before := run[..|run| - 1];
      && NeverLoggedIn(t, before, ip)
      && (run[|run| - 1].ip == ip ==> Answer(After(t, before), run[|run| - 1]) != LoggedIn)
  }

  ghost function CountIn(h: seq<Failure>, lo: Instant, hi: Instant): nat {
    if h == [] then 0
    else CountIn(h[..|h| - 1], lo, hi) + if lo <= h[|h| - 1].at < hi then 1 else 0
  }

  // ----- At most eight failures in any window

  /** What holds of one recorded failure of an address. */
  predicate Sound(f: Failure) {
    && 0 < f.entry.windowStart <= f.at
    && f.entry.failures >= 1
    && (f.entry.failures == 1 ==> f.entry.windowStart == f.at)
    && f.entry.lockedUntil == (if f.entry.failures >= MAX_FAILURES then f.at + WINDOW else 0)
  }

  /** What holds of two consecutive recorded failures: the second waits for the lock of
      the first, and either counts on in its window or opens a later one. */
  predicate Linked(f: Failure, g: Failure) {
    && f.at <= g.at
    && f.entry.lockedUntil <= g.at
    && if g.at - f.entry.windowStart > WINDOW
       then g.entry.failures == 1
       else g.entry.windowStart == f.entry.windowStart && g.entry.failures == f.entry.failures + 1
  }

  predicate Chained(h: seq<Failure>) {
    && (forall i :: 0 <= i < |h| ==> Sound(h[i]))
    && (forall i :: 0 < i < |h| ==> Linked(h[i - 1], h[i]))
  }

  /** The table holds the last recorded entry of `ip`, unless it is spent. */
  predicate Remembers(t: Table, h: seq<Failure>, ip: Address, now: Instant) {
    && (h != [] ==> h[|h| - 1].at <= now)
    && if ip in t then h != [] && t[ip] == h[|h| - 1].entry
       else h != [] ==> var a := h[|h| - 1].entry; now - a.windowStart > WINDOW && a.lockedUntil <= now
  }

  /** What one attempt does to the entry of another address: at most sweep it away. */
  lemma OtherEntry(t: Table, ip: Address, e: Attempt)
    requires e.ip != ip
    ensures ip in Step(t, e) ==> ip in t && Step(t, e)[ip] == t[ip]
    ensures ip in t && ip !in Step(t, e) ==> Stale(t[ip], e.now)
  {
  }

  /** What a recorded failure writes. */
  lemma OwnEntry(t: Table, e: Attempt)
    requires Answer(t, e) == Rejected(true)
    ensures !Locked(Lookup(t, e.ip), e.now)
    ensures e.ip in Step(t, e) && Step(t, e)[e.ip] == Bump(Lookup(t, e.ip), e.now)
  {
  }

  /** What an attempt that neither logs in nor is recorded does to its own entry. */
  lemma OwnEntryKept(t: Table, e: Attempt)
    requires Answer(t, e) == Denied || Answer(t, e) == Rejected(false)
    ensures Answer(t, e) == Rejected(false) ==> e.ip !in Step(t, e)
    ensures e.ip in t && e.ip !in Step(t, e) ==> WindowOver(t[e.ip], e.now) && !Locked(t[e.ip], e.now)
    ensures e.ip in Step(t, e) ==> e.ip in t && Step(t, e)[e.ip] == t[e.ip]
  {
  }

  function Extend(t: Table, h: seq<Failure>, ip: Address, e: Attempt): seq<Failure> {
    h + if e.ip == ip && Answer(t, e) == Rejected(true)
        then [Failure(e.now, Bump(Lookup(t, ip), e.now))] else []
  }

  lemma RemembersStep(t: Table, h: seq<Failure>, ip: Address, clock: Instant, e: Attempt)
    requires Chained(h) && Remembers(t, h, ip, clock)
    requires clock <= e.now && 0 < e.now
    requires e.ip == ip ==> Answer(t, e) != LoggedIn
    ensures Chained(Extend(t, h, ip, e)) && Remembers(Step(t, e), Extend(t, h, ip, e), ip, e.now)
  {
    hide Step, Answer;
    assert h != [] ==> Sound(h[|h| - 1]);
    if e.ip != ip {
      OtherEntry(t, ip, e);
      assert Extend(t, h, ip, e) == h;
    } else if Answer(t, e) == Rejected(true) {
      OwnEntry(t, e);
    } else {
      OwnEntryKept(t, e);
      assert Extend(t, h, ip, e) == h;
    }
  }

  lemma {:induction false} FailuresChained(t: Table, run: seq<Attempt>, ip: Address)
    requires ip !in t && Clocked(run) && NeverLoggedIn(t, run, ip)
    ensures Chained(Failures(t, run, ip))
    ensures Remembers(After(t, run), Failures(t, run, ip), ip, if run == [] then 0 else run[|run| - 1].now)
  {
    if run != [] {
      var before := run[..|run| - 1];
      FailuresChained(t, before, ip);
      RemembersStep(After(t, before), Failures(t, before, ip), ip,
                    if before == [] then 0 else before[|before| - 1].now, run[|run| - 1]);
    }
  }

  lemma {:induction false} AtIncreases(h: seq<Failure>, i: nat, j: nat)
    requires Chained(h) && i <= j < |h|
    ensures h[i].at <= h[j].at
    decreases j
  {
    if i < j {
      AtIncreases(h, i, j - 1);
      assert Linked(h[j - 1], h[j]);
    }
  }

  /** A window that starts at `p` and is neither left nor locked before `q` has counted `q - p` on. */
  lemma {:induction false} CountsOn(h: seq<Failure>, p: nat, q: nat)
    requires Chained(h) && p <= q < |h|
    requires forall m :: p < m <= q ==> h[m].entry.failures != 1
    ensures h[q].entry.failures == h[p].entry.failures + (q - p)
    decreases q
  {
    if p < q {
      CountsOn(h, p, q - 1);
      assert Linked(h[q - 1], h[q]);
    }
  }

  /** Within any five consecutive failures, a lock is set or a window is opened. */
  lemma LockOrReset(h: seq<Failure>, p: nat) returns (m: nat)
    requires Chained(h) && p + 4 < |h|
    ensures p < m <= p + 4
    ensures h[m].entry.failures >= MAX_FAILURES || h[m].entry.failures == 1
    ensures h[m].entry.failures != 1 ==> m == p + 4
  {
    if k :| p < k <= p + 4 && h[k].entry.failures == 1 {
      m := k;
    } else {
      CountsOn(h, p, p + 4);
      m := p + 4;
    }
  }

  lemma {:induction false} WindowKept(h: seq<Failure>, p: nat, q: nat)
    requires Chained(h) && p <= q < |h|
    requires forall m :: p < m <= q ==> h[m].entry.failures != 1
    ensures h[q].entry.windowStart == h[p].entry.windowStart
    decreases q
  {
    if p < q {
      WindowKept(h, p, q - 1);
      assert Linked(h[q - 1], h[q]);
    }
  }

  /** The first window opened after `p` opens more than a window after that of `p`. */
  lemma FirstReset(h: seq<Failure>, p: nat, q: nat) returns (r: nat)
    requires Chained(h) && p < q < |h| && h[q].entry.failures == 1
    ensures p < r <= q && h[r].entry.failures == 1
    ensures forall m :: p < m < r ==> h[m].entry.failures != 1
    ensures h[r].at > h[p].entry.windowStart + WINDOW
  {
    r := p + 1;
    while h[r].entry.failures != 1
      invariant p < r <= q
      invariant forall m :: p < m < r ==> h[m].entry.failures != 1
      decreases q - r
    {
      r := r + 1;
    }
    WindowKept(h, p, r - 1);
    assert Linked(h[r - 1], h[r]);
    assert Sound(h[r]) && Sound(h[r - 1]);
  }

  /** Eight failures on, at least a whole window has passed. */
  lemma EightLater(h: seq<Failure>, k: nat)
    requires Chained(h) && k + 8 < |h|
    ensures h[k].at + WINDOW <= h[k + 8].at
  {
    if m :| k <= m < k + 8 && h[m].entry.failures >= MAX_FAILURES {
      assert Linked(h[m], h[m + 1]);
      AtIncreases(h, k, m);
      AtIncreases(h, m + 1, k + 8);
    } else {
      var p := LockOrReset(h, k);
      var r := FirstReset(h, k, p);
      if h[k].entry.failures == 1 {
        AtIncreases(h, r, k + 8);
      } else {
        CountsOn(h, k, r - 1);
        var q := LockOrReset(h, r);
        var r' := FirstReset(h, r, q);
        AtIncreases(h, k, r);
        AtIncreases(h, r', k + 8);
      }
    }
  }

  lemma {:induction false} NoneIn(h: seq<Failure>, lo: Instant, hi: Instant)
    requires forall i :: 0 <= i < |h| ==> h[i].at < lo
    ensures CountIn(h, lo, hi) == 0
  {
    if h != [] {
      NoneIn(h[..|h| - 1], lo, hi);
    }
  }

  lemma {:induction false} CountAtMostLength(h: seq<Failure>, lo: Instant, hi: Instant)
    ensures CountIn(h, lo, hi) <= |h|
  {
    if h != [] {
      CountAtMostLength(h[..|h| - 1], lo, hi);
    }
  }

  lemma {:induction false} CountSplit(h: seq<Failure>, n: nat, lo: Instant, hi: Instant)
    requires n <= |h|
    ensures CountIn(h, lo, hi) == CountIn(h[..n], lo, hi) + CountIn(h[n..], lo, hi)
    decreases |h|
  {
    if n == |h| {
      assert h[..n] == h;
    } else {
      CountSplit(h[..|h| - 1], n, lo, hi);
      assert h[..|h| - 1][..n] == h[..n];
      assert h[n..][..|h[n..]| - 1] == h[..|h| - 1][n..];
    }
  }

  lemma {:induction false} ChainedAtMostEight(h: seq<Failure>, lo: Instant)
    requires Chained(h)
    ensures CountIn(h, lo, lo + WINDOW) <= 8
  {
    var n := |h|;
    if n <= 8 {
      CountAtMostLength(h, lo, lo + WINDOW);
    } else if h[n - 1].at >= lo + WINDOW {
      ChainedAtMostEight(h[..n - 1], lo);
    } else {
      EightLater(h, n - 9);
      var early := h[..n - 8];
      forall i | 0 <= i < n - 8 ensures early[i].at < lo { AtIncreases(h, i, n - 9); }
      CountSplit(h, n - 8, lo, lo + WINDOW);
      NoneIn(h[..n - 8], lo, lo + WINDOW);
      CountAtMostLength(h[n - 8..], lo, lo + WINDOW);
    }
  }

  /** However an address guesses, and whatever the other addresses do, no half-open
      interval of fifteen minutes holds more than eight recorded failures of it. */
  lemma AtMostEightFailures(t: Table, run: seq<Attempt>, ip: Address, lo: Instant)
    requires ip !in t && Clocked(run) && NeverLoggedIn(t, run, ip)
    ensures CountIn(Failures(t, run, ip), lo, lo + WINDOW) <= 8
  {
    FailuresChained(t, run, ip);
    ChainedAtMostEight(Failures(t, run, ip), lo);
  }

  /** Eight can be reached: three late failures of a window that never locks, and a full five. */
  lemma EightFailuresReached(ip: Address) returns (run: seq<Attempt>, lo: Instant)
    ensures Clocked(run) && NeverLoggedIn(map[], run, ip)
    ensures CountIn(Failures(map[], run, ip), lo, lo + WINDOW) == 8
  {
    lo := 1 + WINDOW;
    var was, a := LoginAttempt(4, 1, 0), LoginAttempt(0, lo + 1, 0);
    assert !Locked(was, lo + 1) && !WindowOver(a, lo + 1) && Bump(was, lo + 1) == Bump(a, lo + 1);
    hide After, Failures, CountIn, NeverLoggedIn, Clocked, Alone, Bump, Locked, WindowOver;
    run := FourFailures(ip, lo);
    run := Burst(run, ip, was, a, lo + 1, lo, 3, 5);
  }

  lemma FourFailures(ip: Address, lo: Instant) returns (run: seq<Attempt>)
    requires lo == 1 + WINDOW
    ensures Clocked(run) && NeverLoggedIn(map[], run, ip) && run != [] && run[|run| - 1].now == lo
    ensures Alone(After(map[], run), ip, LoginAttempt(4, 1, 0))
    ensures CountIn(Failures(map[], run, ip), lo, lo + WINDOW) == 3
  {
    EmptyRun(ip, lo);
    hide After, Failures, CountIn, NeverLoggedIn, Clocked, Alone, Lookup;
    run := Burst([], ip, NO_ATTEMPT, LoginAttempt(0, 1, 0), 1, lo, 0, 1);
    run := Burst(run, ip, LoginAttempt(1, 1, 0), LoginAttempt(1, 1, 0), lo, lo, 0, 3);
  }

  predicate Alone(t: Table, ip: Address, a: LoginAttempt) {
    t.Keys <= {ip} && Lookup(t, ip) == a
  }

  lemma EmptyRun(ip: Address, lo: Instant)
    ensures Clocked([]) && NeverLoggedIn(map[], [], ip) && Alone(After(map[], []), ip, NO_ATTEMPT)
    ensures CountIn(Failures(map[], [], ip), lo, lo + WINDOW) == 0
  {
  }

  /** Some wrong passwords at one instant, counting on from `a`. */
  lemma {:induction false} Burst(run: seq<Attempt>, ip: Address, was: LoginAttempt, a: LoginAttempt, now: Instant,
                                 lo: Instant, n: nat, k: nat)
    returns (run': seq<Attempt>)
    requires Clocked(run) && NeverLoggedIn(map[], run, ip) && Alone(After(map[], run), ip, was)
    requires !Locked(was, now) && 0 < now && (run != [] ==> run[|run| - 1].now <= now)
    requires CountIn(Failures(map[], run, ip), lo, lo + WINDOW) == n
    requires Bump(was, now) == Bump(a, now)
    requires !WindowOver(a, now) && a.lockedUntil == 0 && 1 <= k && k + a.failures <= MAX_FAILURES
    ensures Clocked(run') && NeverLoggedIn(map[], run', ip)
    ensures run' != [] && run'[|run'| - 1].now == now
    ensures k + a.failures < MAX_FAILURES ==> Alone(After(map[], run'), ip, a.(failures := a.failures + k))
    ensures CountIn(Failures(map[], run', ip), lo, lo + WINDOW) == n + if lo <= now < lo + WINDOW then k else 0
    decreases k
  {
    hide After, Failures, CountIn, NeverLoggedIn, Clocked;
    run' := Guess(run, After(map[], run), Attempt(ip, now, false), lo, n);
    if k > 1 {
      run' := Burst(run', ip, Bump(was, now), a.(failures := a.failures + 1), now, lo,
                    n + if lo <= now < lo + WINDOW then 1 else 0, k - 1);
    }
  }

  lemma OwnStepAlone(t: Table, e: Attempt)
    requires t.Keys <= {e.ip} && |t| <= 1 && !e.correct && !Locked(Lookup(t, e.ip), e.now)
    ensures Answer(t, e) == Rejected(true)
    ensures Alone(Step(t, e), e.ip, Bump(Lookup(t, e.ip), e.now))
  {
    var a := Admit(t, e.ip, e.now);
    SubsetSize(a.Keys, t.Keys);
  }

  /** One more wrong password at the end of a run from the empty table. */
  lemma Guess(run: seq<Attempt>, t: Table, e: Attempt, lo: Instant, n: nat) returns (run': seq<Attempt>)
    requires Clocked(run) && NeverLoggedIn(map[], run, e.ip) && t == After(map[], run)
    requires t.Keys <= {e.ip} && !e.correct && !Locked(Lookup(t, e.ip), e.now)
    requires 0 < e.now && (run != [] ==> run[|run| - 1].now <= e.now)
    requires CountIn(Failures(map[], run, e.ip), lo, lo + WINDOW) == n
    ensures run' != [] && run'[|run'| - 1] == e
    ensures Alone(After(map[], run'), e.ip, Bump(Lookup(t, e.ip), e.now))
    ensures Clocked(run') && NeverLoggedIn(map[], run', e.ip)
    ensures CountIn(Failures(map[], run', e.ip), lo, lo + WINDOW)
            == n + if lo <= e.now < lo + WINDOW then 1 else 0
  {
    hide After, Failures, CountIn, NeverLoggedIn, Clocked, Step, Answer, Bump, Alone, Lookup, Locked;
    run' := run + [e];
    RunStep(map[], run, e, e.ip, lo, lo + WINDOW);
    SubsetSize(t.Keys, {e.ip});
    OwnStepAlone(t, e);
  }

  /** How one more attempt extends a run. */
  lemma RunStep(t: Table, run: seq<Attempt>, e: Attempt, ip: Address, lo: Instant, hi: Instant)
    requires Clocked(run) && 0 < e.now && (run != [] ==> run[|run| - 1].now <= e.now)
    ensures Clocked(run + [e])
    ensures After(t, run + [e]) == Step(After(t, run), e)
    ensures NeverLoggedIn(t, run + [e], ip)
            <==> NeverLoggedIn(t, run, ip) && (e.ip == ip ==> Answer(After(t, run), e) != LoggedIn)
    ensures CountIn(Failures(t, run + [e], ip), lo, hi)
            == CountIn(Failures(t, run, ip), lo, hi)
               + if e.ip == ip && Answer(After(t, run), e) == Rejected(true) && lo <= e.now < hi then 1 else 0
  {
    hide Step, Answer, Bump, Lookup, Failures, CountIn, NeverLoggedIn, After, Clocked;
    ClockedStep(run, e);
    StateStep(t, run, e, ip);
    FailuresStep(t, run, e, ip);
    CountStep(Failures(t, run, ip), Failure(e.now, Bump(Lookup(After(t, run), ip), e.now)), lo, hi);
  }

  lemma StateStep(t: Table, run: seq<Attempt>, e: Attempt, ip: Address)
    ensures After(t, run + [e]) == Step(After(t, run), e)
    ensures NeverLoggedIn(t, run + [e], ip)
            <==> NeverLoggedIn(t, run, ip) && (e.ip == ip ==> Answer(After(t, run), e) != LoggedIn)
  {
    hide Step, Answer;
    assert (run + [e])[..|run|] == run;
  }

  lemma ClockedStep(run: seq<Attempt>, e: Attempt)
    requires Clocked(run) && 0 < e.now && (run != [] ==> run[|run| - 1].now <= e.now)
    ensures Clocked(run + [e])
  {
    forall i | 0 <= i < |run| ensures run[i].now <= e.now {
      assert run[i].now <= run[|run| - 1].now;
    }
  }

  lemma FailuresStep(t: Table, run: seq<Attempt>, e: Attempt, ip: Address)
    ensures Failures(t, run + [e], ip)
            == if e.ip == ip && Answer(After(t, run), e) == Rejected(true)
               then Failures(t, run, ip) + [Failure(e.now, Bump(Lookup(After(t, run), ip), e.now))]
               else Failures(t, run, ip)
  {
    hide Step, Answer, Bump, After, Lookup;
    assert (run + [e])[..|run|] == run;
  }

  lemma CountStep(h: seq<Failure>, f: Failure, lo: Instant, hi: Instant)
    ensures CountIn(h + [f], lo, hi) == CountIn(h, lo, hi) + if lo <= f.at < hi then 1 else 0
  {
    assert (h + [f])[..|h|] == h;
  }

  lemma {:induction false} SubsetSize<T>(a: set<T>, b: set<T>)
    requires a <= b
    ensures |a| <= |b|
  {
    if a != {} {
      var x :| x in a;
      SubsetSize(a - {x}, b - {x});
    }
  }

  // ----- The lock

  /** Once locked, an address is denied until the lock ends, whatever the passwords, and
      whatever the other addresses do. */
  lemma {:induction false} LockHolds(t: Table, run: seq<Attempt>, ip: Address)
    requires ip in t && forall i :: 0 <= i < |run| ==> run[i].now < t[ip].lockedUntil
    ensures ip in After(t, run) && After(t, run)[ip] == t[ip]
    ensures |Answers(t, run)| == |run|
    ensures forall i :: 0 <= i < |run| && run[i].ip == ip ==> Answers(t, run)[i] == Denied
  {
    if run != [] {
      var before, e := run[..|run| - 1], run[|run| - 1];
      LockHolds(t, before, ip);
      if e.ip != ip {
        OtherEntry(After(t, before), ip, e);
      }
    }
  }

  lemma {:induction false} AnswersAt(t: Table, run: seq<Attempt>, i: nat)
    requires i < |run|
    ensures |Answers(t, run)| == |run|
    ensures Answers(t, run)[i] == Answer(After(t, run[..i]), run[i])
    decreases |run|
  {
    hide Answer, Step;
    var n := |run| - 1;
    assert |Answers(t, run)| == |Answers(t, run[..n])| + 1;
    if i < n {
      AnswersAt(t, run[..n], i);
      assert run[..n][..i] == run[..i];
    } else if n > 0 {
      AnswersAt(t, run[..n], 0);
    }
  }

  lemma ClockedPrefix(run: seq<Attempt>, i: nat)
    requires Clocked(run) && i <= |run|
    ensures Clocked(run[..i])
    ensures i < |run| ==> (if i == 0 then 0 else run[..i][i - 1].now) <= run[i].now
  {
  }

  /** An address is denied exactly from the fifth failure of a window, or a later one, until
      fifteen minutes after the last of them. */
  lemma {:induction false} DeniedIff(t: Table, run: seq<Attempt>, ip: Address, i: nat)
    requires ip !in t && Clocked(run) && i < |run| && run[i].ip == ip && NeverLoggedIn(t, run[..i], ip)
    ensures |Answers(t, run)| == |run|
    ensures var h := Failures(t, run[..i], ip);
            Answers(t, run)[i] == Denied
            <==> h != [] && h[|h| - 1].entry.failures >= 5 && run[i].now < h[|h| - 1].at + WINDOW
  {
    AnswersAt(t, run, i);
    ClockedPrefix(run, i);
    FailuresChained(t, run[..i], ip);
    var h := Failures(t, run[..i], ip);
    assert h != [] ==> Sound(h[|h| - 1]);
    hide Failures, After, Step, Linked, NeverLoggedIn, Clocked;
  }

  /** The failures of an address that is not in the table count from 1. */
  lemma {:induction false} FirstCountsOne(t: Table, run: seq<Attempt>, ip: Address)
    requires ip !in t && Clocked(run) && NeverLoggedIn(t, run, ip)
    ensures Failures(t, run, ip) != [] ==> Failures(t, run, ip)[0].entry.failures == 1
  {
    if run != [] {
      var before := run[..|run| - 1];
      FirstCountsOne(t, before, ip);
      FailuresChained(t, before, ip);
      assert Failures(t, before, ip) == [] ==> ip !in After(t, before);
      hide Answer, Step, Chained;
    }
  }

  lemma {:induction false} CountsAtMost(h: seq<Failure>, i: nat)
    requires Chained(h) && i < |h| && h[0].entry.failures == 1
    ensures h[i].entry.failures <= i + 1
  {
    if i > 0 {
      CountsAtMost(h, i - 1);
      assert Linked(h[i - 1], h[i]);
    }
  }

  function AttemptsOf(run: seq<Attempt>, ip: Address): nat {
    if run == [] then 0 else AttemptsOf(run[..|run| - 1], ip) + if run[|run| - 1].ip == ip then 1 else 0
  }

  lemma {:induction false} FailuresAreAttempts(t: Table, run: seq<Attempt>, ip: Address)
    ensures |Failures(t, run, ip)| <= AttemptsOf(run, ip)
  {
    hide Answer, Step, Bump, After;
    if run != [] {
      FailuresAreAttempts(t, run[..|run| - 1], ip);
    }
  }

  /** No address is denied before its fifth wrong password, however long that takes. */
  lemma {:induction false} FourNeverLock(t: Table, run: seq<Attempt>, ip: Address, i: nat)
    requires ip !in t && Clocked(run) && i < |run| && run[i].ip == ip && NeverLoggedIn(t, run[..i], ip)
    requires AttemptsOf(run[..i], ip) <= 4
    ensures |Answers(t, run)| == |run| && Answers(t, run)[i] != Denied
  {
    var h := Failures(t, run[..i], ip);
    ClockedPrefix(run, i);
    DeniedIff(t, run, ip, i);
    FailuresAreAttempts(t, run[..i], ip);
    FailuresChained(t, run[..i], ip);
    FirstCountsOne(t, run[..i], ip);
    hide Failures, Answers, NeverLoggedIn, Chained, Clocked, AttemptsOf, After;
    if h != [] {
      CountsAtMost(h, |h| - 1);
    }
  }

  lemma {:induction false} AfterAppend(t: Table, a: seq<Attempt>, b: seq<Attempt>)
    ensures After(t, a + b) == After(After(t, a), b)
  {
    hide Step;
    if b == [] {
      assert a + b == a;
    } else {
      assert (a + b)[..|a + b| - 1] == a + b[..|b| - 1];
      AfterAppend(t, a, b[..|b| - 1]);
    }
  }

  lemma ClockedSuffix(a: seq<Attempt>, b: seq<Attempt>)
    requires Clocked(a + b)
    ensures Clocked(b)
  {
    assert forall j :: 0 <= j < |b| ==> b[j] == (a + b)[|a| + j];
  }

  lemma LoginClears(t: Table, before: seq<Attempt>, e: Attempt)
    requires Answer(After(t, before), e) == LoggedIn
    ensures e.ip !in After(t, before + [e])
  {
    assert (before + [e])[..|before|] == before;
  }

  lemma {:induction false} AnswersAfter(t: Table, a: seq<Attempt>, b: seq<Attempt>, i: nat)
    requires i < |b|
    ensures |Answers(t, a + b)| == |a| + |b| && |Answers(After(t, a), b)| == |b|
    ensures Answers(t, a + b)[|a| + i] == Answers(After(t, a), b)[i]
  {
    hide Answer, Step, After, Answers;
    var all, k := a + b, |a| + i;
    assert all[..k] == a + b[..i] && all[k] == b[i];
    AfterAppend(t, a, b[..i]);
    AnswersAt(t, all, k);
    AnswersAt(After(t, a), b, i);
  }

  /** A login forgets all that came before: of the attempts that follow, none is denied before the
      fifth, whatever the passwords before, and whatever the other addresses do. */
  lemma {:induction false} LoginForgives(t: Table, before: seq<Attempt>, e: Attempt, run: seq<Attempt>, i: nat)
    requires Clocked(before + [e] + run) && Answer(After(t, before), e) == LoggedIn
    requires i < |run| && run[i].ip == e.ip && AttemptsOf(run[..i], e.ip) <= 4
    requires NeverLoggedIn(After(t, before + [e]), run[..i], e.ip)
    ensures |Answers(t, before + [e] + run)| == |before| + 1 + |run|
    ensures Answers(t, before + [e] + run)[|before| + 1 + i] != Denied
  {
    hide Step, NeverLoggedIn, AttemptsOf, After, Answers, Clocked;
    LoginClears(t, before, e);
    hide Answer;
    ClockedSuffix(before + [e], run);
    AnswersAfter(t, before + [e], run, i);
    FourNeverLock(After(t, before + [e]), run, e.ip, i);
  }

  // ----- The table

  lemma {:induction false} TableBounded(t: Table, run: seq<Attempt>)
    requires |t| <= MAX_ENTRIES
    ensures |After(t, run)| <= MAX_ENTRIES
  {
    if run != [] {
      TableBounded(t, run[..|run| - 1]);
      StepBounded(After(t, run[..|run| - 1]), run[|run| - 1]);
    }
  }

  lemma StepBounded(t: Table, e: Attempt)
    requires |t| <= MAX_ENTRIES
    ensures |Step(t, e)| <= MAX_ENTRIES
  {
    hide Record, Sweep, Locked, WindowOver, HasRoom, MakeRoom;
    var a := Admit(t, e.ip, e.now);
    SubsetSize(a.Keys, t.Keys);
    SubsetSize((a - {e.ip}).Keys, a.Keys);
    RecordBounded(a, e.ip, e.now);
  }

  lemma RecordBounded(t: Table, ip: Address, now: Instant)
    requires |t| <= MAX_ENTRIES
    ensures |Record(t, ip, now)| <= MAX_ENTRIES
  {
    hide Bump, Stale;
    var r := MakeRoom(t, ip, now);
    SubsetSize(r.Keys, t.Keys);
    var a := Bump(Lookup(r, ip), now);
    if ip in r {
      assert r[ip := a].Keys == r.Keys;
    } else {
      assert r[ip := a].Keys == r.Keys + {ip};
    }
  }

  predicate AllLive(t: Table, now: Instant) {
    forall k :: k in t ==> now - t[k].windowStart <= WINDOW || now <= t[k].lockedUntil
  }

  lemma SweepFrees(t: Table, now: Instant)
    ensures AllLive(t, now) ==> Sweep(t, now) == t
    ensures !AllLive(t, now) ==> |Sweep(t, now)| < |t|
  {
    if k :| k in t && Stale(t[k], now) {
      SubsetSize(Sweep(t, now).Keys, t.Keys - {k});
    }
  }

  /** A wrong password goes unrecorded exactly when its address is new, and the table is full of
      entries whose window or lock still lasts. */
  lemma UnrecordedIff(t: Table, e: Attempt)
    requires |t| <= MAX_ENTRIES
    ensures Answer(t, e) == Rejected(false)
            <==> !e.correct && e.ip !in t && |t| == MAX_ENTRIES && AllLive(t, e.now)
  {
    var a := Admit(t, e.ip, e.now);
    SweepFrees(a, e.now);
    hide Sweep, AllLive;
    if e.ip in t && e.ip !in a {
      assert t.Keys == a.Keys + {e.ip};
    } else if e.ip !in t {
      assert a == t;
    }
  }

  // ----- What the sweep drops is never missed

  lemma SweepAgain(t: Table, c: Instant, c': Instant)
    requires c <= c'
    ensures Sweep(Sweep(t, c), c') == Sweep(t, c')
  {
  }

  lemma SweepDrop(t: Table, ip: Address, c: Instant)
    ensures Sweep(t - {ip}, c) == Sweep(t, c) - {ip}
  {
  }

  lemma SweepPut(t: Table, ip: Address, a: LoginAttempt, c: Instant)
    ensures Sweep(t[ip := a], c) == if Stale(a, c) then Sweep(t, c) - {ip} else Sweep(t, c)[ip := a]
  {
  }

  lemma AdmitUnseen(t: Table, u: Table, ip: Address, now: Instant)
    requires Sweep(t, now) == Sweep(u, now)
    ensures Locked(Lookup(t, ip), now) == Locked(Lookup(u, ip), now)
    ensures var a, b := Admit(t, ip, now), Admit(u, ip, now);
            Sweep(a, now) == Sweep(b, now) && (ip in a <==> ip in b) && Lookup(a, ip) == Lookup(b, ip)
  {
    assert ip in Sweep(t, now) <==> ip in t && !Stale(t[ip], now);
    assert ip in Sweep(u, now) <==> ip in u && !Stale(u[ip], now);
    SweepDrop(t, ip, now);
    SweepDrop(u, ip, now);
  }

  lemma RecordUnseen(t: Table, u: Table, ip: Address, now: Instant)
    requires Sweep(t, now) == Sweep(u, now) && (ip in t <==> ip in u) && Lookup(t, ip) == Lookup(u, ip)
    ensures HasRoom(MakeRoom(t, ip, now), ip) == HasRoom(MakeRoom(u, ip, now), ip)
    ensures Sweep(Record(t, ip, now), now) == Sweep(Record(u, ip, now), now)
  {
    SubsetSize(Sweep(t, now).Keys, t.Keys);
    SubsetSize(Sweep(u, now).Keys, u.Keys);
    SweepAgain(t, now, now);
    SweepAgain(u, now, now);
    var r, s := MakeRoom(t, ip, now), MakeRoom(u, ip, now);
    assert Lookup(r, ip) == Lookup(s, ip);
    SweepPut(r, ip, Bump(Lookup(r, ip), now), now);
    SweepPut(s, ip, Bump(Lookup(s, ip), now), now);
  }

  /** Two tables that differ only in stale entries answer alike, even when one of them is
      full and the other is not, and go on differing only in stale entries. */
  lemma {:induction false} StaleUnseen(t: Table, u: Table, e: Attempt)
    requires Sweep(t, e.now) == Sweep(u, e.now)
    ensures Answer(t, e) == Answer(u, e)
    ensures Sweep(Step(t, e), e.now) == Sweep(Step(u, e), e.now)
  {
    AdmitUnseen(t, u, e.ip, e.now);
    var a, b := Admit(t, e.ip, e.now), Admit(u, e.ip, e.now);
    RecordUnseen(a, b, e.ip, e.now);
    SweepDrop(a, e.ip, e.now);
    SweepDrop(b, e.ip, e.now);
  }

  /** A sweep changes no answer, then or at any later time. */
  lemma {:induction false} SweepUnseen(t: Table, run: seq<Attempt>, clock: Instant)
    requires Clocked(run) && forall i :: 0 <= i < |run| ==> clock <= run[i].now
    ensures Answers(Sweep(t, clock), run) == Answers(t, run)
    ensures var now := if run == [] then clock else run[|run| - 1].now;
            Sweep(After(Sweep(t, clock), run), now) == Sweep(After(t, run), now)
  {
    if run == [] {
      SweepAgain(t, clock, clock);
    } else {
      var before, e := run[..|run| - 1], run[|run| - 1];
      SweepUnseen(t, before, clock);
      var t', u' := After(Sweep(t, clock), before), After(t, before);
      var now := if before == [] then clock else before[|before| - 1].now;
      SweepAgain(t', now, e.now);
      SweepAgain(u', now, e.now);
      StaleUnseen(t', u', e);
    }
  }
}
