/** The lock-free rate limiter: Take computes a new state from the one it loaded and
    installs it with compare-and-swap, or starts over. */
module RateLimiter {
  import opened Basics

  const SECOND := 1_000_000_000

  /** Go's integer division, which truncates toward zero. */
  function Quo(a: int, b: int): int
    requires b != 0
  {
    if a >= 0 then (if b > 0 then a / b else -(a / -b)) else (if b > 0 then -(-a / b) else -a / -b)
  }

  datatype Limiter = Limiter(perRequest: int, maxSlack: int)

  /** New(rate), with or without the WithoutSlack option. */
  function New(rate: int, withoutSlack: bool): Limiter
    requires rate != 0
  {
    Limiter(Quo(SECOND, rate), if withoutSlack then 0 else Quo(-10 * SECOND, rate))
  }

  lemma NewIsSane(rate: int, withoutSlack: bool)
    requires rate > 0
    ensures var l := New(rate, withoutSlack); l.perRequest >= 0 && l.maxSlack <= 0
    ensures rate <= SECOND ==> New(rate, withoutSlack).perRequest >= 1
    ensures New(rate, withoutSlack).perRequest == SECOND / rate
  {
    if rate <= SECOND {
      DivAtLeast(SECOND, rate, 1);
    }
  }

  /** The limiter's state; last is 0 for the zero Time. */
  datatype Slot = Slot(last: int, sleepFor: int)

  /** One round of Take's loop, from the state it loaded to the one it tries to install. */
  method NewState(l: Limiter, old_: Slot, now: int) returns (s: Slot)
    ensures s == Computed(l, old_.last, now)
  {
    s := Slot(now, 0);
    if old_.last == 0 {
      return;
    }
    s := s.(sleepFor := s.sleepFor + (l.perRequest - (now - old_.last)));
    if s.sleepFor < l.maxSlack {
      s := s.(sleepFor := l.maxSlack);
    }
    if s.sleepFor > 0 {
      s := s.(last := s.last + s.sleepFor);
    }
  }

  function Computed(l: Limiter, last: int, now: int): Slot {
    if last == 0 then Slot(now, 0)
    else
      var sleep := Max(l.perRequest - (now - last), l.maxSlack);
      Slot(if sleep > 0 then now + sleep else now, sleep)
  }

  /** Because the new state starts from zero, slack is never carried over: whatever
      maxSlack <= 0 is, the next grant is max(now, last + perRequest), and the caller sleeps
      until then. */
  lemma GrantIsMax(l: Limiter, last: int, now: int)
    requires l.maxSlack <= 0
    ensures Computed(l, last, now).last == if last == 0 then now else Max(now, last + l.perRequest)
    ensures now + Computed(l, last, now).sleepFor <= Computed(l, last, now).last
    ensures Computed(l, last, now).last > now ==> now + Computed(l, last, now).sleepFor == Computed(l, last, now).last
  {
  }

  // ---- any number of takers ----

  datatype Taker =
    | Starting                                        // about to read the clock
    | HasNow(now: int)
    | Loaded(now: int, version: nat, last: int)       // the pointer it loaded, and what it points to
    | Sleeping(grant: int, until: int)
    | Returned(grant: int, at: int)

  datatype State = State(last: int,
                         version: nat,        // stands for the pointer: every swap installs a new one
                         clock: int,
                         takers: seq<Taker>,
                         grants: seq<int>)    // history: what successful swaps installed

  datatype Action = Tick(d: nat) | ReadClock(i: nat) | Load(i: nat) | Swap(i: nat) | Wake(i: nat)

  function Initial(n: nat): State { State(0, 0, 1, seq(n, _ => Starting), []) }

  function Put(s: State, i: nat, t: Taker): State
    requires i < |s.takers|
  {
    s.(takers := s.takers[i := t])
  }

  function Step(l: Limiter, s: State, a: Action): Option<State> {
    match a
    case Tick(d) => Some(s.(clock := s.clock + d))
    case ReadClock(i) =>
      if i < |s.takers| && s.takers[i].Starting? then Some(Put(s, i, HasNow(s.clock))) else None
    case Load(i) =>
      if i < |s.takers| && s.takers[i].HasNow? then Some(Put(s, i, Loaded(s.takers[i].now, s.version, s.last))) else None
    case Swap(i) =>
      if i < |s.takers| && s.takers[i].Loaded? then
        var t := s.takers[i];
        if t.version != s.version then Some(Put(s, i, Starting))
        else
          var c := Computed(l, t.last, t.now);
          Some(Put(s.(last := c.last, version := s.version + 1, grants := s.grants + [c.last]),
                   i, Sleeping(c.last, s.clock + c.sleepFor)))
      else None
    case Wake(i) =>
      if i < |s.takers| && s.takers[i].Sleeping? && s.clock >= s.takers[i].until
      then Some(Put(s, i, Returned(s.takers[i].grant, s.clock))) else None
  }

  function Run(l: Limiter, s: State, actions: seq<Action>): Option<State>
    decreases |actions|
  {
    if actions == [] then Some(s)
    else
      match Step(l, s, actions[0])
      case None => None
      case Some(s') => Run(l, s', actions[1..])
  }

  predicate TakerOk(s: State, t: Taker) {
    match t
    case Starting => true
    case HasNow(now) => 1 <= now <= s.clock
    case Loaded(now, version, last) => 1 <= now <= s.clock && version <= s.version && (version == s.version ==> last == s.last)
    case Sleeping(grant, until) => grant <= Max(s.clock, until) && grant in s.grants
    case Returned(grant, at) => grant <= at <= s.clock && grant in s.grants
  }

  /** Consecutive grants are at least perRequest apart. */
  ghost predicate Spaced(grants: seq<int>, per: int) {
    forall k :: 0 < k < |grants| ==> grants[k] - grants[k - 1] >= per
  }

  ghost predicate Inv(l: Limiter, s: State) {
    && s.version == |s.grants| && s.clock >= 1
    && s.last == (if s.grants == [] then 0 else s.grants[|s.grants| - 1])
    && (forall k :: 0 <= k < |s.grants| ==> s.grants[k] >= 1)
    && Spaced(s.grants, l.perRequest)
    && (forall k :: 0 <= k < |s.takers| ==> TakerOk(s, s.takers[k]))
  }

  /** A swap either installs max(now, last + perRequest) of the current state, or fails
      because another taker has installed a grant since the load. */
  lemma SwapRefines(l: Limiter, s: State, i: nat)
    requires Inv(l, s) && l.maxSlack <= 0 && l.perRequest >= 0
    requires i < |s.takers| && s.takers[i].Loaded?
    ensures Step(l, s, Swap(i)).Some?
    ensures var s', now := Step(l, s, Swap(i)).value, s.takers[i].now;
      if s.takers[i].version == |s.grants|
      then s'.last == (if s.grants == [] then now else Max(now, s.last + l.perRequest))
           && s'.grants == s.grants + [s'.last] && now <= s.clock
           && s'.takers[i].Sleeping? && s'.takers[i].grant == s'.last
           && (if s'.last > now then s'.takers[i].until == s.clock + (s'.last - now) else s'.takers[i].until <= s.clock)
      else s'.grants == s.grants && s'.last == s.last && s.takers[i].version < |s.grants| && s'.takers[i] == Starting
  {
    assert TakerOk(s, s.takers[i]);
    GrantIsMax(l, s.takers[i].last, s.takers[i].now);
  }

  /** An attempt reads the clock, then the state, as they are. */
  lemma AttemptReads(l: Limiter, s: State, i: nat)
    requires i < |s.takers|
    ensures s.takers[i].Starting? ==> Step(l, s, ReadClock(i)) == Some(s.(takers := s.takers[i := HasNow(s.clock)]))
    ensures s.takers[i].HasNow? ==>
      Step(l, s, Load(i)) == Some(s.(takers := s.takers[i := Loaded(s.takers[i].now, s.version, s.last)]))
  {
  }

  /** An installed grant keeps the history spaced. */
  lemma SwapKeepsHistory(l: Limiter, s: State, i: nat)
    requires Inv(l, s) && l.maxSlack <= 0 && l.perRequest >= 0
    requires i < |s.takers| && s.takers[i].Loaded?
    ensures var s' := Step(l, s, Swap(i)).value;
      && s'.version == |s'.grants| && Spaced(s'.grants, l.perRequest)
      && s'.last == (if s'.grants == [] then 0 else s'.grants[|s'.grants| - 1])
      && (forall k :: 0 <= k < |s'.grants| ==> s'.grants[k] >= 1)
      && (forall g <- s.grants :: g in s'.grants)
      && TakerOk(s', s'.takers[i])
  {
    SwapRefines(l, s, i);
    assert TakerOk(s, s.takers[i]);
    GrantIsMax(l, s.takers[i].last, s.takers[i].now);
  }

  lemma SwapKeepsInv(l: Limiter, s: State, i: nat)
    requires Inv(l, s) && l.maxSlack <= 0 && l.perRequest >= 0
    requires i < |s.takers| && s.takers[i].Loaded?
    ensures Inv(l, Step(l, s, Swap(i)).value)
  {
    var s' := Step(l, s, Swap(i)).value;
    SwapKeepsHistory(l, s, i);
    forall k | 0 <= k < |s'.takers| ensures TakerOk(s', s'.takers[k]) {
      assert TakerOk(s, s.takers[k]);
    }
  }

  lemma StepKeepsInv(l: Limiter, s: State, a: Action)
    requires Inv(l, s) && l.maxSlack <= 0 && l.perRequest >= 0
    requires Step(l, s, a).Some?
    ensures Inv(l, Step(l, s, a).value)
  {
    if a.Swap? {
      SwapKeepsInv(l, s, a.i);
    } else {
      var s' := Step(l, s, a).value;
      forall k | 0 <= k < |s'.takers| ensures TakerOk(s', s'.takers[k]) {
        assert TakerOk(s, s.takers[k]);
      }
    }
  }

  lemma {:induction false} RunKeepsInv(l: Limiter, s: State, actions: seq<Action>)
    requires Inv(l, s) && l.maxSlack <= 0 && l.perRequest >= 0
    requires Run(l, s, actions).Some?
    ensures Inv(l, Run(l, s, actions).value)
    decreases |actions|
  {
    if actions != [] {
      StepKeepsInv(l, s, actions[0]);
      RunKeepsInv(l, Step(l, s, actions[0]).value, actions[1..]);
    }
  }

  ghost predicate Reachable(l: Limiter, s: State) {
    exists n: nat, actions: seq<Action> :: Run(l, Initial(n), actions) == Some(s)
  }

  lemma ReachableInv(l: Limiter, s: State)
    requires l.maxSlack <= 0 && l.perRequest >= 0 && Reachable(l, s)
    ensures Inv(l, s)
  {
    var n: nat, actions: seq<Action> :| Run(l, Initial(n), actions) == Some(s);
    RunKeepsInv(l, Initial(n), actions);
  }

  // ---- spacing ----

  lemma {:induction false} SpanOf(grants: seq<int>, per: int, i: nat, k: nat)
    requires Spaced(grants, per) && i + k < |grants|
    ensures grants[i + k] - grants[i] >= k * per
  {
    if k > 0 {
      SpanOf(grants, per, i, k - 1);
    }
  }

  /** In every interleaving, k+1 consecutive grants span at least k * perRequest, and no
      call returns before its grant. */
  lemma GrantsAreSpaced(l: Limiter, s: State, i: nat, k: nat, t: nat)
    requires l.maxSlack <= 0 && l.perRequest >= 0 && Reachable(l, s)
    ensures i + k < |s.grants| ==> s.grants[i + k] - s.grants[i] >= k * l.perRequest
    ensures t < |s.takers| && s.takers[t].Returned? ==> s.takers[t].grant in s.grants && s.takers[t].at >= s.takers[t].grant
  {
    ReachableInv(l, s);
    if i + k < |s.grants| {
      SpanOf(s.grants, l.perRequest, i, k);
    }
    if t < |s.takers| {
      assert TakerOk(s, s.takers[t]);
    }
  }

  /** How many grants fall into [from, from + width). */
  function InWindow(grants: seq<int>, from: int, width: int): nat {
    if grants == [] then 0
    else (if from <= grants[|grants| - 1] < from + width then 1 else 0) + InWindow(grants[..|grants| - 1], from, width)
  }

  /** The most grants at distance per that fit into a half-open window. */
  function WindowCap(width: int, per: int): int
    requires per > 0
  {
    if width <= 0 then 0 else (width - 1) / per + 1
  }

  lemma DivAtLeast(a: int, b: int, q: int)
    requires b > 0 && a >= q * b
    ensures a / b >= q
  {
    var r := a / b;
    assert a == r * b + a % b;
    assert r < q ==> (r + 1) * b <= q * b;
  }

  lemma DivBelow(a: int, b: int, q: int)
    requires b > 0 && a < q * b
    ensures a / b < q
  {
    var r := a / b;
    assert a == r * b + a % b;
    assert r >= q ==> r * b >= q * b;
  }

  lemma CapGrows(narrow: int, width: int, per: int)
    requires per > 0 && narrow + per <= width && width > 0
    ensures WindowCap(narrow, per) + 1 <= WindowCap(width, per)
  {
    if narrow > 0 {
      var q := (narrow - 1) / per;
      assert (q + 1) * per == q * per + per;
      assert narrow - 1 == q * per + (narrow - 1) % per;
      DivAtLeast(width - 1, per, q + 1);
    } else {
      DivAtLeast(width - 1, per, 0);
    }
  }

  /** Below all of them, the width of the window does not matter. */
  lemma {:induction false} SameCount(grants: seq<int>, from: int, w: int, v: int)
    requires forall k :: 0 <= k < |grants| ==> (grants[k] < from + w <==> grants[k] < from + v)
    ensures InWindow(grants, from, w) == InWindow(grants, from, v)
  {
    if grants != [] {
      SameCount(grants[..|grants| - 1], from, w, v);
    }
  }

  lemma EarlierGrants(grants: seq<int>, per: int)
    requires Spaced(grants, per) && per > 0 && grants != []
    ensures forall k :: 0 <= k < |grants| - 1 ==> grants[k] <= grants[|grants| - 1] - per
  {
    forall k | 0 <= k < |grants| - 1 ensures grants[k] <= grants[|grants| - 1] - per {
      SpanOf(grants, per, k, |grants| - 1 - k);
      assert (|grants| - 1 - k) * per >= per;
    }
  }

  lemma {:induction false} WindowBound(grants: seq<int>, per: int, from: int, width: int)
    requires Spaced(grants, per) && per > 0
    ensures InWindow(grants, from, width) <= WindowCap(width, per)
  {
    if grants == [] {
      if width > 0 {
        DivAtLeast(width - 1, per, 0);
      }
    } else {
      var n := |grants| - 1;
      var x, front := grants[n], grants[..n];
      WindowBound(front, per, from, width);
      if from <= x < from + width {
        var narrow := x - per - from + 1;
        EarlierGrants(grants, per);
        SameCount(front, from, width, narrow);
        WindowBound(front, per, from, narrow);
        CapGrows(narrow, width, per);
      }
    }
  }

  /** In every interleaving, a window of one second holds at most
      ceil(10^9 / perRequest) grants. */
  lemma OneSecondBound(rate: int, withoutSlack: bool, s: State, from: int)
    requires 1 <= rate <= SECOND && Reachable(New(rate, withoutSlack), s)
    ensures New(rate, withoutSlack).perRequest > 0
    ensures InWindow(s.grants, from, SECOND) <= WindowCap(SECOND, New(rate, withoutSlack).perRequest)
  {
    NewIsSane(rate, withoutSlack);
    ReachableInv(New(rate, withoutSlack), s);
    WindowBound(s.grants, New(rate, withoutSlack).perRequest, from, SECOND);
  }

  /** That bound is the promised rate exactly when the rate divides a second into whole
      nanoseconds, and more otherwise. */
  lemma CapIsRate(rate: int)
    requires 1 <= rate <= SECOND
    ensures SECOND / rate > 0
    ensures WindowCap(SECOND, SECOND / rate) >= rate
    ensures WindowCap(SECOND, SECOND / rate) == rate <==> SECOND % rate == 0
  {
    DivAtLeast(SECOND, rate, 1);
    var per := SECOND / rate;
    assert SECOND == per * rate + SECOND % rate;
    assert per * rate == rate * per;
    if SECOND % rate == 0 {
      DivBelow(SECOND - 1, per, rate);
      assert (rate - 1) * per == rate * per - per;
      DivAtLeast(SECOND - 1, per, rate - 1);
    } else {
      DivAtLeast(SECOND - 1, per, rate);
    }
  }

  // ---- the bound is reached ----

  /** After k of n takers came at once, at clock 1. */
  function Rush(per: int, n: nat, k: nat): State {
    State(if k == 0 then 0 else 1 + (k - 1) * per, k, 1,
          seq(n, i => if i < k then Sleeping(1 + i * per, 1 + i * per) else Starting),
          seq(k, i => 1 + i * per))
  }

  lemma {:induction false} RunConcat(l: Limiter, s: State, a: seq<Action>, b: seq<Action>)
    requires Run(l, s, a).Some?
    ensures Run(l, s, a + b) == Run(l, Run(l, s, a).value, b)
    decreases |a|
  {
    if a == [] {
      assert a + b == b;
    } else {
      assert (a + b)[1..] == a[1..] + b && (a + b)[0] == a[0];
      RunConcat(l, Step(l, s, a[0]).value, a[1..], b);
    }
  }

  lemma RushGoesOn(l: Limiter, n: nat, k: nat)
    requires l.maxSlack <= 0 && l.perRequest >= 0 && k < n
    ensures Run(l, Rush(l.perRequest, n, k), [ReadClock(k), Load(k), Swap(k)]) == Some(Rush(l.perRequest, n, k + 1))
  {
    var per := l.perRequest;
    var s0 := Rush(per, n, k);
    var s1 := Step(l, s0, ReadClock(k)).value;
    var s2 := Step(l, s1, Load(k)).value;
    var s3 := Step(l, s2, Swap(k)).value;
    assert k * per == (k - 1) * per + per;
    assert k > 0 ==> (k - 1) * per >= 0;
    assert s3.grants == Rush(per, n, k + 1).grants;
    assert s3.takers == Rush(per, n, k + 1).takers;
    assert [ReadClock(k), Load(k), Swap(k)][1..] == [Load(k), Swap(k)];
    assert [Load(k), Swap(k)][1..] == [Swap(k)];
    assert Run(l, s2, [Swap(k)]) == Some(s3);
    assert Run(l, s1, [Load(k), Swap(k)]) == Some(s3);
  }

  lemma {:induction false} RushIsReachable(l: Limiter, n: nat, k: nat)
    requires l.maxSlack <= 0 && l.perRequest >= 0 && k <= n
    ensures Reachable(l, Rush(l.perRequest, n, k))
    ensures exists actions: seq<Action> :: Run(l, Initial(n), actions) == Some(Rush(l.perRequest, n, k))
  {
    if k == 0 {
      assert Rush(l.perRequest, n, 0) == Initial(n);
      assert Run(l, Initial(n), []) == Some(Initial(n));
    } else {
      RushIsReachable(l, n, k - 1);
      var actions: seq<Action> :| Run(l, Initial(n), actions) == Some(Rush(l.perRequest, n, k - 1));
      var more := [ReadClock(k - 1), Load(k - 1), Swap(k - 1)];
      RunConcat(l, Initial(n), actions, more);
      RushGoesOn(l, n, k - 1);
      assert Run(l, Initial(n), actions + more) == Some(Rush(l.perRequest, n, k));
    }
  }

  lemma {:induction false} AllInWindow(grants: seq<int>, from: int, width: int)
    requires forall k :: 0 <= k < |grants| ==> from <= grants[k] < from + width
    ensures InWindow(grants, from, width) == |grants|
  {
    if grants != [] {
      AllInWindow(grants[..|grants| - 1], from, width);
    }
  }

  lemma LastInWindow(per: int, k: nat)
    requires per > 0 && k <= (SECOND - 1) / per
    ensures 0 <= k * per < SECOND
  {
    var n := (SECOND - 1) / per;
    assert k * per <= n * per;
    assert SECOND - 1 == n * per + (SECOND - 1) % per;
  }

  lemma CapIsReached(l: Limiter) returns (s: State)
    requires l.maxSlack <= 0 && l.perRequest > 0
    ensures Reachable(l, s) && InWindow(s.grants, 1, SECOND) == WindowCap(SECOND, l.perRequest)
  {
    var per := l.perRequest;
    DivAtLeast(SECOND - 1, per, 0);
    var n: nat := WindowCap(SECOND, per);
    s := Rush(per, n, n);
    RushIsReachable(l, n, n);
    forall k | 0 <= k < n ensures 1 <= s.grants[k] < 1 + SECOND {
      LastInWindow(per, k);
    }
    AllInWindow(s.grants, 1, SECOND);
  }

  /** A rate above 10^9 has the interval 0: any number of grants can fall on one instant. */
  lemma NoIntervalNoCap(l: Limiter, n: nat) returns (s: State)
    requires l.maxSlack <= 0 && l.perRequest == 0
    ensures Reachable(l, s) && InWindow(s.grants, 1, SECOND) == n
  {
    s := Rush(0, n, n);
    RushIsReachable(l, n, n);
    AllInWindow(s.grants, 1, SECOND);
  }

  /** So "rate per second" is kept, in every run and for every one-second window, exactly
      for the rates that divide a second into whole nanoseconds. */
  lemma RateIsKeptIff(rate: int, withoutSlack: bool)
    requires rate >= 1
    ensures (forall s, from: int :: Reachable(New(rate, withoutSlack), s) ==> InWindow(s.grants, from, SECOND) <= rate)
       <==> SECOND % rate == 0
  {
    var l := New(rate, withoutSlack);
    NewIsSane(rate, withoutSlack);
    if rate > SECOND {
      DivBelow(SECOND, rate, 1);
      DivAtLeast(SECOND, rate, 0);
      var s := NoIntervalNoCap(l, rate + 1);
      assert InWindow(s.grants, 1, SECOND) > rate;
      return;
    }
    CapIsRate(rate);
    if SECOND % rate == 0 {
      forall s, from: int | Reachable(l, s) ensures InWindow(s.grants, from, SECOND) <= rate {
        OneSecondBound(rate, withoutSlack, s, from);
      }
    } else {
      var s := CapIsReached(l);
      assert InWindow(s.grants, 1, SECOND) > rate;
    }
  }
}
