/** What each step of the pool decides, in terms of what the pool holds: when get prunes,
    borrows, dials or is refused, when put keeps a connection, and what a whole get prunes. */
module PoolDecisions {
  import opened Basics
  import opened Sums
  import opened PoolSpec
  import opened PoolProtocol

  /** Session x is about to lock the mutex in get. */
  predicate InGet(x: Session) { x.Ready? || x.Pruned? || x.Discarded? }

  /** get may prune in its next section: at its start, and while its loop has rounds left. */
  predicate MayPrune(cfg: Config, x: Session) {
    cfg.idleTimeout > 0 && (x.Ready? || (x.Pruned? && x.i + 1 < x.n))
  }

  /** Some idle connection was returned more than IdleTimeout ago. */
  predicate SomeStale(cfg: Config, idle: seq<Entry>, now: int) {
    exists k :: 0 <= k < |idle| && idle[k].t + cfg.idleTimeout < now
  }

  /** `active` once a connection that get has just closed is no longer counted. */
  function Active(s: State, i: nat): int
    requires i < |s.sessions|
  {
    s.sh.active - if s.sessions[i].Ready? then 0 else 1
  }

  /** On a list sorted by return time, the last entry is stale if any is. */
  lemma LastIsStale(cfg: Config, idle: seq<Entry>, now: int)
    requires SortedByReturn(idle)
    ensures SomeStale(cfg, idle, now) <==> idle != [] && idle[|idle| - 1].t + cfg.idleTimeout < now
  {
    if idle != [] {
      assert idle[|idle| - 1] == idle[|idle| - 1];
    }
  }

  /** The values sh', and where the session goes, after a section of get that found sh (what
      it had closed is no longer counted), with the prune loop at round k of n. */
  ghost predicate Decided(cfg: Config, sh: Shared, mayPrune: bool, k: nat, n: nat, now: int, sh': Shared, x': Session) {
    var idle := sh.idle;
    if mayPrune && SomeStale(cfg, idle, now) then
      idle != [] && x' == Pruning(idle[|idle| - 1], k, n) && sh' == sh.(idle := idle[..|idle| - 1])
    else if idle != [] then x' == Testing(idle[0]) && sh' == sh.(idle := idle[1..])
    else if sh.closed || (!cfg.wait && 0 < cfg.maxActive <= sh.active) then x' == Resting && sh' == sh
    else x' == Dialling && sh' == sh.(active := sh.active + 1)
  }

  lemma PruneDecides(cfg: Config, sh: Shared, now: int, k: nat, n: nat)
    requires SortedByReturn(sh.idle)
    ensures var (sh', o) := Prune(cfg, sh, now, k, n);
      Decided(cfg, sh, cfg.idleTimeout > 0 && k < n, k, n, now, sh', Follow(o))
  {
    LastIsStale(cfg, sh.idle, now);
  }

  /** The round of the prune loop that session x is about to start, and how many it has. */
  function Round(x: Session): nat { if x.Pruned? then x.i + 1 else 0 }

  function Bound(x: Session, sh: Shared): nat { if x.Pruned? then x.n else |sh.idle| }

  /** In every reachable state, a section of get that locks at `now` prunes the connection
      returned first if and only if some idle one has been there for longer than
      IdleTimeout, and its loop has rounds left; otherwise it takes the one returned last,
      if there is one; otherwise it is refused by a closed pool, or without Wait by a full
      one, and dials in all other cases. */
  lemma GetDecides(cfg: Config, s: State, i: nat, now: int)
    requires Reachable(cfg, s) && i < |s.sessions| && InGet(s.sessions[i]) && now >= s.clock
    ensures Step(cfg, s, Lock(i, now)).Some?
    ensures var s', x := Step(cfg, s, Lock(i, now)).value, s.sessions[i];
      && s' == s.(sh := s'.sh, clock := now, sessions := s.sessions[i := s'.sessions[i]])
      && Decided(cfg, s.sh.(active := Active(s, i)), MayPrune(cfg, x), Round(x), Bound(x, s.sh), now, s'.sh, s'.sessions[i])
  {
    ReachableInv(cfg, s);
    LockedDecides(cfg, s.(clock := now), i, now);
  }

  lemma LockedDecides(cfg: Config, s: State, i: nat, now: int)
    requires SortedByReturn(s.sh.idle) && i < |s.sessions| && InGet(s.sessions[i])
    ensures Locked(cfg, s, i, now).Some?
    ensures var s', x := Locked(cfg, s, i, now).value, s.sessions[i];
      && s' == s.(sh := s'.sh, sessions := s.sessions[i := s'.sessions[i]])
      && Decided(cfg, s.sh.(active := Active(s, i)), MayPrune(cfg, x), Round(x), Bound(x, s.sh), now, s'.sh, s'.sessions[i])
  {
    var sh := s.sh.(active := s.sh.active - 1);
    match s.sessions[i] {
      case Ready =>
        hide Prune;
        PruneDecides(cfg, s.sh, now, 0, |s.sh.idle|);
      case Pruned(k, n) =>
        hide Decided, Prune;
        PruneDecides(cfg, sh, now, k + 1, n);
      case Discarded =>
        TakeFrontIsPrune(cfg, sh, now);
        PruneDecides(cfg, sh, now, 0, 0);
    }
  }

  function OneMoreToken(ch: Chan): Chan {
    if ch.Chan? then ch.(tokens := ch.tokens + 1) else ch
  }

  /** A session that puts a connection back ends up closing one if and only if it is told to,
      the pool is closed, or the idle list is full; otherwise the connection is the first of
      the idle list, returned now, and a waiter's token is free again.  What it closes is the
      connection itself, or the oldest of the idle list with it. */
  lemma PutDecides(cfg: Config, s: State, i: nat, now: int)
    requires i < |s.sessions| && s.sessions[i].Putting? && now >= s.clock
    ensures Step(cfg, s, Lock(i, now)).Some?
    ensures var s', e, force := Step(cfg, s, Lock(i, now)).value, s.sessions[i].e, s.sessions[i].force;
      var x', idle, idle' := s'.sessions[i], s.sh.idle, s'.sh.idle;
      var pushed := [Entry(e.conn, now, e.created)] + idle;
      && s'.sh.active == s.sh.active && s'.sh.closed == s.sh.closed
      && (x'.Evicting? <==> force || s.sh.closed || |idle| >= cfg.maxIdle)
      && (!x'.Evicting? ==> x' == Resting && idle' == pushed && s'.sh.ch == OneMoreToken(s.sh.ch))
      && (x'.Evicting? ==> s'.sh.ch == s.sh.ch)
      && (force || s.sh.closed ==> x' == Evicting(e) && idle' == idle)
      && (x'.Evicting? && !force && !s.sh.closed ==> x' == Evicting(pushed[|idle|]) && idle' == pushed[..|idle|])
  {
  }

  /** A call of get waits for a token exactly with Wait and a limit; a call of put keeps what
      it was told. */
  lemma CallDecides(cfg: Config, s: State, i: nat, force: bool)
    requires i < |s.sessions|
    ensures s.sessions[i].Resting? ==>
      && Step(cfg, s, CallGet(i)).Some?
      && Step(cfg, s, CallGet(i)).value.sessions[i] == (if cfg.wait && cfg.maxActive > 0 then WantToken else Ready)
    ensures s.sessions[i].Borrowed? ==>
      && Step(cfg, s, CallPut(i, force)).Some?
      && Step(cfg, s, CallPut(i, force)).value.sessions[i] == Putting(s.sessions[i].e, force)
  {
  }

  /** A pooled connection that passes its test and is young enough is handed out, as it is;
      any other is closed. */
  lemma TestDecides(cfg: Config, s: State, i: nat, ok: bool, now: int)
    requires i < |s.sessions| && s.sessions[i].Testing? && now >= s.clock
    ensures Step(cfg, s, TestResult(i, ok, now)).Some?
    ensures var s', e := Step(cfg, s, TestResult(i, ok, now)).value, s.sessions[i].e;
      && s'.sh == s.sh
      && (s'.sessions[i] == Borrowed(e) <==> ok && (cfg.maxConnLifetime == 0 || now - e.created < cfg.maxConnLifetime))
      && (s'.sessions[i] != Borrowed(e) ==> s'.sessions[i] == Rejected(e))
  {
  }

  /** Close closes the pool and takes all idle connections with it, the first time. */
  lemma CloseDecides(cfg: Config, s: State, i: nat)
    requires i < |s.sessions| && s.sessions[i].Resting?
    ensures Step(cfg, s, ClosePool(i)).Some?
    ensures var s' := Step(cfg, s, ClosePool(i)).value;
      && s'.sh.closed && (!s.sh.closed ==> s'.sh.idle == [] && s'.sh.active == s.sh.active - |s.sh.idle|)
      && (s.sh.closed ==> s'.sh == s.sh) && (s'.sh.ch.Chan? && !s.sh.closed ==> !s'.sh.ch.open)
      && s'.sessions[i] == Closing(if s.sh.closed then [] else s.sh.idle)
  {
  }

  // ---- a whole get, undisturbed ----

  /** get's first section, then m rounds of the prune loop at one clock reading. */
  function PruneActions(i: nat, now: int, m: nat): seq<Action> {
    if m == 0 then [Lock(i, now)] else PruneActions(i, now, m - 1) + [CloseConn(i), Lock(i, now)]
  }

  /** The last m entries are stale and no other. */
  predicate StaleTail(cfg: Config, idle: seq<Entry>, now: int, m: nat) {
    && m <= |idle|
    && (forall k :: 0 <= k < |idle| - m ==> idle[k].t + cfg.idleTimeout >= now)
    && (forall k :: |idle| - m <= k < |idle| ==> idle[k].t + cfg.idleTimeout < now)
  }

  lemma {:induction false} StaleTailExists(cfg: Config, idle: seq<Entry>, now: int) returns (m: nat)
    requires SortedByReturn(idle)
    ensures StaleTail(cfg, idle, now, m)
  {
    if SomeStale(cfg, idle, now) {
      LastIsStale(cfg, idle, now);
      m := StaleTailExists(cfg, idle[..|idle| - 1], now);
      m := m + 1;
    } else {
      m := 0;
    }
  }

  /** After j of the m rounds that there is something to prune for, the session has the next
      stale connection to close, and after all m it prunes no more. */
  ghost predicate PrunedSoFar(cfg: Config, s: State, i: nat, m: nat, j: nat, s': State) {
    && i < |s.sessions| == |s'.sessions| && j <= m <= |s.sh.idle|
    && var idle, x' := s.sh.idle, s'.sessions[i];
    var young := idle[..|idle| - m];
    if j < m then
      x' == Pruning(idle[|idle| - 1 - j], j, |idle|) && s'.sh.idle == idle[..|idle| - 1 - j]
    else if young != [] then x' == Testing(young[0]) && s'.sh.idle == young[1..]
    else (x' == Dialling || x' == Resting) && s'.sh.idle == []
  }

  /** The closes so far and those of the last j entries. */
  function WithClosed(closes: multiset<ConnId>, idle: seq<Entry>, j: nat): multiset<ConnId>
    requires j <= |idle|
  {
    if j == 0 then closes else WithClosed(closes, idle, j - 1) + multiset{idle[|idle| - j].conn}
  }

  lemma RunTwo(cfg: Config, s: State, actions: seq<Action>, a: Action, b: Action)
    requires Run(cfg, s, actions).Some? && Step(cfg, Run(cfg, s, actions).value, a).Some?
    requires Step(cfg, Step(cfg, Run(cfg, s, actions).value, a).value, b).Some?
    ensures Run(cfg, s, actions + [a, b]) == Step(cfg, Step(cfg, Run(cfg, s, actions).value, a).value, b)
  {
    hide Step;
    RunSnoc(cfg, s, actions, a);
    RunSnoc(cfg, s, actions + [a], b);
    assert actions + [a] + [b] == actions + [a, b];
  }

  lemma CloseStep(cfg: Config, s: State, i: nat, m: nat, j: nat, s': State)
    requires PrunedSoFar(cfg, s, i, m, j, s') && j < m
    ensures Step(cfg, s', CloseConn(i)).Some?
    ensures var e := s.sh.idle[|s.sh.idle| - 1 - j];
      Step(cfg, s', CloseConn(i)).value
      == s'.(closes := s'.closes + multiset{e.conn}, sessions := s'.sessions[i := Pruned(j, |s.sh.idle|)])
  {
  }

  /** s' is what j rounds make of s, at the clock reading now. */
  ghost predicate AfterRounds(cfg: Config, s: State, i: nat, now: int, m: nat, j: nat, s': State) {
    && Reachable(cfg, s') && s'.clock == now && PrunedSoFar(cfg, s, i, m, j, s')
    && s'.closes == WithClosed(s.closes, s.sh.idle, j)
  }

  lemma CloseRound(cfg: Config, s: State, i: nat, now: int, m: nat, j: nat, s': State) returns (s1: State, s2: State)
    requires AfterRounds(cfg, s, i, now, m, j, s') && j < m && cfg.idleTimeout > 0 && StaleTail(cfg, s.sh.idle, now, m)
    ensures Step(cfg, s', CloseConn(i)) == Some(s1) && Step(cfg, s1, Lock(i, now)) == Some(s2)
    ensures AfterRounds(cfg, s, i, now, m, j + 1, s2)
  {
    CloseStep(cfg, s, i, m, j, s');
    ReachableStep(cfg, s', CloseConn(i));
    s1 := Step(cfg, s', CloseConn(i)).value;
    GetDecides(cfg, s1, i, now);
    ReachableStep(cfg, s1, Lock(i, now));
    StaleLeft(cfg, s.sh.idle, now, m, j + 1);
    s2 := Step(cfg, s1, Lock(i, now)).value;
    hide Step, Reachable, StaleTail, SomeStale;
    var left := s.sh.idle[..|s.sh.idle| - (j + 1)];
    assert left == s1.sh.idle;
    assert j + 1 < m ==> left[..|left| - 1] == s.sh.idle[..|left| - 1];
  }

  lemma StaleLeft(cfg: Config, idle: seq<Entry>, now: int, m: nat, j: nat)
    requires StaleTail(cfg, idle, now, m) && j <= m
    ensures SomeStale(cfg, idle[..|idle| - j], now) <==> j < m
  {
    var left := idle[..|idle| - j];
    if j < m {
      assert left[|left| - 1] == idle[|idle| - 1 - j];
    }
  }

  lemma {:induction false} PruneRounds(cfg: Config, s: State, i: nat, now: int, m: nat, j: nat) returns (s': State)
    requires Reachable(cfg, s) && i < |s.sessions| && s.sessions[i].Ready? && now >= s.clock && cfg.idleTimeout > 0
    requires StaleTail(cfg, s.sh.idle, now, m) && j <= m
    ensures Run(cfg, s, PruneActions(i, now, j)) == Some(s') && AfterRounds(cfg, s, i, now, m, j, s')
  {
    hide Step, Run, AfterRounds, Reachable, StaleTail;
    if j == 0 {
      s' := PruneFirst(cfg, s, i, now, m);
    } else {
      var s0 := PruneRounds(cfg, s, i, now, m, j - 1);
      var s1;
      s1, s' := CloseRound(cfg, s, i, now, m, j - 1, s0);
      RunTwo(cfg, s, PruneActions(i, now, j - 1), CloseConn(i), Lock(i, now));
    }
  }

  lemma PruneFirst(cfg: Config, s: State, i: nat, now: int, m: nat) returns (s': State)
    requires Reachable(cfg, s) && i < |s.sessions| && s.sessions[i].Ready? && now >= s.clock && cfg.idleTimeout > 0
    requires StaleTail(cfg, s.sh.idle, now, m)
    ensures Run(cfg, s, PruneActions(i, now, 0)) == Some(s') && AfterRounds(cfg, s, i, now, m, 0, s')
  {
    GetDecides(cfg, s, i, now);
    ReachableStep(cfg, s, Lock(i, now));
    StaleLeft(cfg, s.sh.idle, now, m, 0);
    RunOne(cfg, s, Lock(i, now));
    s' := Step(cfg, s, Lock(i, now)).value;
    hide Step, Run, Reachable, StaleTail, SomeStale;
    assert s.sh.idle[..|s.sh.idle|] == s.sh.idle;
  }

  lemma RunOne(cfg: Config, s: State, a: Action)
    requires Step(cfg, s, a).Some?
    ensures Run(cfg, s, [a]) == Step(cfg, s, a)
  {
    hide Step;
    assert Run(cfg, s, []) == Some(s);
    RunSnoc(cfg, s, [], a);
    assert [] + [a] == [a];
  }

  /** A get that nobody disturbs, at one clock reading: it prunes exactly as long as some idle
      connection is stale.  There is a number m of rounds such that it still prunes after
      fewer, and after m the connections closed are those of the last m entries, which were
      all the stale ones; what it then takes is the connection returned last, if any is left. */
  lemma UndisturbedGet(cfg: Config, s: State, i: nat, now: int) returns (m: nat, s': State)
    requires Reachable(cfg, s) && i < |s.sessions| && s.sessions[i].Ready? && now >= s.clock && cfg.idleTimeout > 0
    ensures StaleTail(cfg, s.sh.idle, now, m)
    ensures forall j: nat :: j <= m ==> RoundsDone(cfg, s, i, now, m, j)
    ensures Run(cfg, s, PruneActions(i, now, m)) == Some(s') && !SomeStale(cfg, s'.sh.idle, now)
  {
    ReachableInv(cfg, s);
    m := StaleTailExists(cfg, s.sh.idle, now);
    forall j: nat | j <= m ensures RoundsDone(cfg, s, i, now, m, j) {
      var _ := PruneRounds(cfg, s, i, now, m, j);
    }
    s' := PruneRounds(cfg, s, i, now, m, m);
  }

  ghost predicate RoundsDone(cfg: Config, s: State, i: nat, now: int, m: nat, j: nat) {
    var s' := Run(cfg, s, PruneActions(i, now, j));
    s'.Some? && AfterRounds(cfg, s, i, now, m, j, s'.value)
  }

  // ---- when a connection was dialled ----

  /** The times at which the dials of a run succeeded. */
  function DialTimes(actions: seq<Action>): seq<int> {
    if actions == [] then []
    else
      var a := actions[|actions| - 1];
      DialTimes(actions[..|actions| - 1]) + if a.DialResult? && a.ok then [a.now] else []
  }

  /** The entries that a session has in hand. */
  function InHand(x: Session): seq<Entry> {
    match x
    case Pruning(e, _, _) => [e]
    case Testing(e) => [e]
    case Rejected(e) => [e]
    case Borrowed(e) => [e]
    case Putting(e, _) => [e]
    case Evicting(e) => [e]
    case Closing(left) => left
    case _ => []
  }

  predicate Dated(times: seq<int>, e: Entry) {
    e.conn < |times| && e.created == times[e.conn]
  }

  ghost predicate AllDated(times: seq<int>, s: State) {
    && s.next == |times| && (forall e <- s.sh.idle :: Dated(times, e))
    && forall k :: 0 <= k < |s.sessions| ==> forall e <- InHand(s.sessions[k]) :: Dated(times, e)
  }

  /** A section moves entries, and only sets the time of return. */
  lemma PruneMovesEntries(cfg: Config, sh: Shared, now: int, k: nat, n: nat)
    ensures var (sh', o) := Prune(cfg, sh, now, k, n);
      && (forall e <- sh'.idle :: e in sh.idle) && (forall e <- InHand(Follow(o)) :: e in sh.idle)
  {
  }

  lemma PutMovesEntries(cfg: Config, sh: Shared, e: Entry, force: bool, now: int)
    ensures var (sh', r) := Put(cfg, sh, e, force, now);
      && (forall e' <- sh'.idle :: e' in sh.idle || e' == e.(t := now))
      && (r.ToClose? ==> r.e in sh.idle || r.e == e || r.e == e.(t := now))
  {
  }

  lemma LockedDated(cfg: Config, s: State, i: nat, now: int, times: seq<int>)
    requires i < |s.sessions| && Locked(cfg, s, i, now).Some? && AllDated(times, s)
    ensures AllDated(times, Locked(cfg, s, i, now).value)
  {
    hide Prune, TakeFront;
    var s', x := Locked(cfg, s, i, now).value, s.sessions[i];
    var sh := s.sh.(active := s.sh.active - 1);
    match x {
      case Ready => PruneMovesEntries(cfg, s.sh, now, 0, |s.sh.idle|);
      case Pruned(k, n) => PruneMovesEntries(cfg, sh, now, k + 1, n);
      case Discarded =>
        TakeFrontIsPrune(cfg, sh, now);
        PruneMovesEntries(cfg, sh, now, 0, 0);
      case Putting(e, force) =>
        PutMovesEntries(cfg, s.sh, e, force, now);
        assert e in InHand(x);
      case _ =>
    }
    assert forall e <- s'.sh.idle :: Dated(times, e);
    assert forall e <- InHand(s'.sessions[i]) :: Dated(times, e);
    OthersDated(s, s', i, times);
  }

  /** It is enough to look at the session that moved. */
  lemma OthersDated(s: State, s': State, i: nat, times: seq<int>)
    requires AllDated(times, s) && i < |s.sessions| == |s'.sessions| && s'.next == s.next
    requires s'.sessions == s.sessions[i := s'.sessions[i]]
    requires (forall e <- s'.sh.idle :: Dated(times, e)) && (forall e <- InHand(s'.sessions[i]) :: Dated(times, e))
    ensures AllDated(times, s')
  {
    forall k | 0 <= k < |s'.sessions| ensures forall e <- InHand(s'.sessions[k]) :: Dated(times, e) {
      if k != i {
        assert s'.sessions[k] == s.sessions[k];
      }
    }
  }

  lemma DialDated(cfg: Config, s: State, i: nat, now: int, times: seq<int>)
    requires Step(cfg, s, DialResult(i, true, now)).Some? && AllDated(times, s)
    ensures AllDated(times + [now], Step(cfg, s, DialResult(i, true, now)).value)
  {
    var s', more := Step(cfg, s, DialResult(i, true, now)).value, times + [now];
    forall e | Dated(times, e) ensures Dated(more, e) {
    }
    forall k | 0 <= k < |s'.sessions| ensures forall e <- InHand(s'.sessions[k]) :: Dated(more, e) {
      if k != i {
        assert s'.sessions[k] == s.sessions[k];
      }
    }
  }

  /** Outside the critical sections nothing but a dial makes an entry. */
  lemma UnlockedMovesEntries(cfg: Config, s: State, a: Action)
    requires Step(cfg, s, a).Some? && !a.Lock? && !(a.DialResult? && a.ok)
    ensures var s' := Step(cfg, s, a).value;
      && s'.sessions == s.sessions[a.i := s'.sessions[a.i]] && s'.next == s.next
      && (forall e <- s'.sh.idle :: e in s.sh.idle)
      && (forall e <- InHand(s'.sessions[a.i]) :: e in InHand(s.sessions[a.i]) || e in s.sh.idle)
  {
    hide Locked;
    if a.CloseConn? {
      assert Step(cfg, s, a) == CloseNext(s, a.i);
      hide Step, CloseNext, InHand;
      CloseMovesEntries(s, a.i);
    }
  }

  lemma CloseMovesEntries(s: State, i: nat)
    requires i < |s.sessions| && CloseNext(s, i).Some?
    ensures var s' := CloseNext(s, i).value;
      && s'.sessions == s.sessions[i := s'.sessions[i]] && s'.next == s.next && s'.sh == s.sh
      && (forall e <- InHand(s'.sessions[i]) :: e in InHand(s.sessions[i]))
  {
    match s.sessions[i] {
      case Closing(left) => assert left != [] ==> forall e <- left[1..] :: e in left;
      case _ =>
    }
  }

  lemma StepDated(cfg: Config, s: State, a: Action, times: seq<int>)
    requires Step(cfg, s, a).Some? && AllDated(times, s)
    ensures AllDated(times + if a.DialResult? && a.ok then [a.now] else [], Step(cfg, s, a).value)
  {
    assert times + [] == times;
    if a.Lock? {
      hide AllDated, Locked;
      ClockDated(s, a.now, times);
      LockedDated(cfg, s.(clock := a.now), a.i, a.now, times);
    } else if a.DialResult? && a.ok {
      hide AllDated, Step;
      DialDated(cfg, s, a.i, a.now, times);
    } else {
      UnlockedMovesEntries(cfg, s, a);
      hide Step;
      OthersDated(s, Step(cfg, s, a).value, a.i, times);
    }
  }

  lemma ClockDated(s: State, now: int, times: seq<int>)
    requires AllDated(times, s)
    ensures AllDated(times, s.(clock := now))
  {
  }

  lemma {:induction false} RunLast(cfg: Config, s: State, actions: seq<Action>)
    requires actions != [] && Run(cfg, s, actions).Some?
    ensures var n := |actions| - 1;
      Run(cfg, s, actions[..n]).Some? && Step(cfg, Run(cfg, s, actions[..n]).value, actions[n]) == Run(cfg, s, actions)
    decreases |actions|
  {
    hide Step;
    var n := |actions| - 1;
    if n == 0 {
      RunSnoc(cfg, s, [], actions[0]);
      assert actions == [] + [actions[0]];
    } else {
      RunLast(cfg, Step(cfg, s, actions[0]).value, actions[1..]);
      assert actions[..n][1..] == actions[1..][..n - 1] && actions[..n][0] == actions[0];
    }
  }

  /** Over every run each entry, wherever it is, carries the time at which its connection was
      dialled, which is what MaxConnLifetime is measured from. */
  lemma {:induction false} CreatedWhenDialled(cfg: Config, n: nat, actions: seq<Action>, s: State)
    requires Run(cfg, Initial(n), actions) == Some(s)
    ensures AllDated(DialTimes(actions), s)
    decreases |actions|
  {
    hide Step;
    if actions != [] {
      var k := |actions| - 1;
      RunLast(cfg, Initial(n), actions);
      var before := Run(cfg, Initial(n), actions[..k]).value;
      CreatedWhenDialled(cfg, n, actions[..k], before);
      StepDated(cfg, before, actions[k], DialTimes(actions[..k]));
    }
  }

  // ---- the idle list does fill ----

  /** Between two calls: nobody waits, dials, tests or closes. */
  predicate Calm(s: State) {
    !s.sh.closed && forall k :: 0 <= k < |s.sessions| ==> s.sessions[k].Resting? || s.sessions[k].Borrowed?
  }

  /** From a calm state with no idle connection and a slot to spare a resting session borrows. */
  lemma OneBorrows(cfg: Config, s: State, i: nat) returns (s': State)
    requires Reachable(cfg, s) && Calm(s) && s.sh.idle == [] && i < |s.sessions| && s.sessions[i].Resting?
    requires cfg.maxActive > 0 ==> s.sh.active < cfg.maxActive
    ensures Reachable(cfg, s') && Calm(s') && s'.sh.idle == [] && s'.sh.active == s.sh.active + 1
    ensures |s'.sessions| == |s.sessions| && s'.sessions[i].Borrowed?
    ensures forall k :: 0 <= k < |s.sessions| && k != i ==> s'.sessions[k] == s.sessions[k]
  {
    s' := OneGetsReady(cfg, s, i);
    var now := s'.clock;
    var ready := s';
    GetDecides(cfg, s', i, now);
    ReachableStep(cfg, s', Lock(i, now));
    s' := Step(cfg, s', Lock(i, now)).value;
    assert s' == ready.(sh := s'.sh, sessions := ready.sessions[i := Dialling]);
    ReachableStep(cfg, s', DialResult(i, true, now));
    s' := Step(cfg, s', DialResult(i, true, now)).value;
  }

  lemma OneGetsReady(cfg: Config, s: State, i: nat) returns (s': State)
    requires Reachable(cfg, s) && Calm(s) && s.sh.idle == [] && i < |s.sessions| && s.sessions[i].Resting?
    requires cfg.maxActive > 0 ==> s.sh.active < cfg.maxActive
    ensures Reachable(cfg, s') && s'.sh.idle == [] && s'.sh.active == s.sh.active && !s'.sh.closed
    ensures s'.sessions == s.sessions[i := Ready]
  {
    ReachableInv(cfg, s);
    ReachableStep(cfg, s, CallGet(i));
    s' := Step(cfg, s, CallGet(i)).value;
    if cfg.Limited() {
      SumSame(s.sessions);
      ReachableStep(cfg, s', InitChannel(i));
      s' := Step(cfg, s', InitChannel(i)).value;
      assert s'.sh.ch.tokens > 0;
      ReachableStep(cfg, s', TakeToken(i));
      s' := Step(cfg, s', TakeToken(i)).value;
    }
  }

  lemma {:induction false} SumSame(ss: seq<Session>)
    requires forall k :: 0 <= k < |ss| ==> ss[k].Resting? || ss[k].Borrowed?
    ensures Sum(ss, Token) == Sum(ss, Slot)
  {
    if ss != [] {
      SumSame(ss[1..]);
    }
  }

  /** From a calm state with room in the list a borrower puts its connection back. */
  lemma OneReturns(cfg: Config, s: State, i: nat) returns (s': State)
    requires Reachable(cfg, s) && Calm(s) && i < |s.sessions| && s.sessions[i].Borrowed? && |s.sh.idle| < cfg.maxIdle
    ensures Reachable(cfg, s') && Calm(s') && |s'.sh.idle| == |s.sh.idle| + 1
    ensures |s'.sessions| == |s.sessions|
    ensures forall k :: 0 <= k < |s.sessions| && k != i ==> s'.sessions[k] == s.sessions[k]
  {
    ReachableStep(cfg, s, CallPut(i, false));
    s' := Step(cfg, s, CallPut(i, false)).value;
    PutDecides(cfg, s', i, s'.clock);
    ReachableStep(cfg, s', Lock(i, s'.clock));
    var before := s';
    s' := Step(cfg, s', Lock(i, s'.clock)).value;
    assert s'.sessions == before.sessions[i := s'.sessions[i]];
  }

  lemma {:induction false} AllBorrow(cfg: Config, n: nat, k: nat) returns (s: State)
    requires k <= n && (cfg.maxActive > 0 ==> n <= cfg.maxActive)
    ensures Reachable(cfg, s) && Calm(s) && s.sh.idle == [] && s.sh.active == k && |s.sessions| == n
    ensures forall j :: 0 <= j < n ==> if j < k then s.sessions[j].Borrowed? else s.sessions[j].Resting?
    decreases k
  {
    if k == 0 {
      s := Initial(n);
      assert Run(cfg, Initial(n), []) == Some(s);
    } else {
      var s0 := AllBorrow(cfg, n, k - 1);
      s := OneBorrows(cfg, s0, k - 1);
    }
  }

  lemma {:induction false} SomeReturn(cfg: Config, n: nat, k: nat) returns (s: State)
    requires k <= n <= cfg.maxIdle && (cfg.maxActive > 0 ==> n <= cfg.maxActive)
    ensures Reachable(cfg, s) && Calm(s) && |s.sh.idle| == k && |s.sessions| == n
    ensures forall j :: k <= j < n ==> s.sessions[j].Borrowed?
    decreases k
  {
    if k == 0 {
      s := AllBorrow(cfg, n, n);
    } else {
      var s0 := SomeReturn(cfg, n, k - 1);
      s := OneReturns(cfg, s0, k - 1);
    }
  }

  /** Any number of idle connections up to MaxIdle, and up to MaxActive if that is set, is
      reached by some run; IdleListBounded says that no larger one is. */
  lemma IdleListFills(cfg: Config, k: nat) returns (s: State)
    requires k <= cfg.maxIdle && (cfg.maxActive > 0 ==> k <= cfg.maxActive)
    ensures Reachable(cfg, s) && |s.sh.idle| == k
  {
    s := SomeReturn(cfg, k, k);
  }
}
