/** The redigo Pool as a concurrent protocol.  Any number of sessions call get, use
    the connection and put it back, while others close the pool; the mutex is dropped
    around closing, testing and dialling a connection, so between two critical
    sections of one session any others may run. */
module PoolProtocol {
  import opened Basics
  import opened Sums
  import opened PoolSpec

  /** Where one goroutine stands. */
  datatype Session =
    | Resting
    | WantToken                               // in get, before lazyInit
    | AwaitToken                              // at `<-p.ch`
    | Ready                                   // about to lock the mutex in get
    | Pruning(stale: Entry, i: nat, n: nat)   // mutex dropped, stale connection to close
    | Pruned(i: nat, n: nat)                  // closed it, about to lock again
    | Testing(e: Entry)                       // mutex dropped around TestOnBorrow
    | Rejected(e: Entry)
    | Discarded
    | Dialling                                // mutex dropped around Dial
    | DialFailed
    | Borrowed(e: Entry)
    | Putting(e: Entry, force: bool)
    | Evicting(e: Entry)                      // mutex dropped in put, connection to close
    | Evicted
    | Closing(left: seq<Entry>)               // Close walks the detached list

  datatype State = State(sh: Shared, sessions: seq<Session>,
                         next: ConnId,               // connections dialled so far
                         closes: multiset<ConnId>,   // every Close call on a connection
                         clock: int)

  /** Session i takes its next step; the other arguments are what the environment chooses. */
  datatype Action =
    | CallGet(i: nat)
    | InitChannel(i: nat)
    | TakeToken(i: nat)
    | CancelWait(i: nat)
    | Lock(i: nat, now: int)
    | CloseConn(i: nat)
    | TestResult(i: nat, ok: bool, now: int)
    | DialResult(i: nat, ok: bool, now: int)
    | CallPut(i: nat, force: bool)
    | ClosePool(i: nat)

  function Initial(n: nat): State {
    State(Shared(false, 0, [], NoChan), seq(n, _ => Resting), 0, multiset{}, 0)
  }

  function Follow(o: Outcome): Session {
    match o
    case CloseStale(e, i, n) => Pruning(e, i, n)
    case TestIdle(e) => Testing(e)
    case GetOnClosed => Resting
    case PoolExhausted => Resting
    case DialNew => Dialling
  }

  function Move(s: State, i: nat, x: Session): State
    requires i < |s.sessions|
  {
    s.(sessions := s.sessions[i := x])
  }

  /** The critical section that session i runs when it gets the mutex. */
  function Locked(cfg: Config, s: State, i: nat, now: int): Option<State>
    requires i < |s.sessions|
  {
    match s.sessions[i]
    case Ready =>
      var (sh, o) := EnterGet(cfg, s.sh, now);
      Some(Move(s.(sh := sh), i, Follow(o)))
    case Pruned(k, n) =>
      var (sh, o) := AfterStale(cfg, s.sh, now, k, n);
      Some(Move(s.(sh := sh), i, Follow(o)))
    case Discarded =>
      var (sh, o) := AfterRejected(cfg, s.sh);
      Some(Move(s.(sh := sh), i, Follow(o)))
    case DialFailed =>
      Some(Move(s.(sh := GiveUpSlot(s.sh)), i, Resting))
    case Putting(e, force) =>
      var (sh, r) := Put(cfg, s.sh, e, force, now);
      Some(Move(s.(sh := sh), i, if r.Kept? then Resting else Evicting(r.e)))
    case Evicted =>
      Some(Move(s.(sh := GiveUpSlot(s.sh)), i, Resting))
    case _ => None
  }

  /** Session i closes the connection it has to close, outside the mutex. */
  function CloseNext(s: State, i: nat): Option<State>
    requires i < |s.sessions|
  {
    match s.sessions[i]
    case Pruning(e, k, n) => Some(Move(s.(closes := s.closes + multiset{e.conn}), i, Pruned(k, n)))
    case Rejected(e) => Some(Move(s.(closes := s.closes + multiset{e.conn}), i, Discarded))
    case Evicting(e) => Some(Move(s.(closes := s.closes + multiset{e.conn}), i, Evicted))
    case Closing(left) =>
      if left == [] then Some(Move(s, i, Resting))
      else Some(Move(s.(closes := s.closes + multiset{left[0].conn}), i, Closing(left[1..])))
    case _ => None
  }

  /** The state after an action, or None when the session cannot take it now. */
  function Step(cfg: Config, s: State, a: Action): Option<State> {
    if a.i >= |s.sessions| then None else
    var i, x := a.i, s.sessions[a.i];
    match a
    case CallGet(_) =>
      if x.Resting? then Some(Move(s, i, if cfg.Limited() then WantToken else Ready)) else None
    case InitChannel(_) =>
      if x.WantToken? && cfg.Limited() then Some(Move(s.(sh := LazyInit(cfg, s.sh)), i, AwaitToken)) else None
    case TakeToken(_) =>
      if !x.AwaitToken? || s.sh.ch.NoChan? then None
      else if s.sh.ch.tokens > 0 then
        Some(Move(s.(sh := s.sh.(ch := s.sh.ch.(tokens := s.sh.ch.tokens - 1))), i, Ready))
      else if !s.sh.ch.open then Some(Move(s, i, Ready))
      else None
    case CancelWait(_) =>
      if x.AwaitToken? then Some(Move(s, i, Resting)) else None
    case Lock(_, now) =>
      if now < s.clock then None else Locked(cfg, s.(clock := now), i, now)
    case CloseConn(_) => CloseNext(s, i)
    case TestResult(_, ok, now) =>
      if !x.Testing? || now < s.clock then None
      else if ok && (cfg.maxConnLifetime == 0 || now - x.e.created < cfg.maxConnLifetime) then
        Some(Move(s.(clock := now), i, Borrowed(x.e)))
      else Some(Move(s.(clock := now), i, Rejected(x.e)))
    case DialResult(_, ok, now) =>
      if !x.Dialling? || now < s.clock then None
      else if ok then Some(Move(s.(clock := now, next := s.next + 1), i, Borrowed(Entry(s.next, 0, now))))
      else Some(Move(s.(clock := now), i, DialFailed))
    case CallPut(_, force) =>
      if x.Borrowed? then Some(Move(s, i, Putting(x.e, force))) else None
    case ClosePool(_) =>
      if x.Resting? then
        var (sh, left) := Close(s.sh);
        Some(Move(s.(sh := sh), i, Closing(left)))
      else None
  }

  /** The state after a whole run; None when some action of it is not enabled. */
  function Run(cfg: Config, s: State, actions: seq<Action>): Option<State>
    decreases |actions|
  {
    if actions == [] then Some(s)
    else
      match Step(cfg, s, actions[0])
      case None => None
      case Some(s') => Run(cfg, s', actions[1..])
  }

  // ---- what a session holds ----

  /** It took a token that it must give back. */
  function Token(x: Session): int {
    if x.Resting? || x.WantToken? || x.AwaitToken? || x.Closing? then 0 else 1
  }

  /** It accounts for one unit of `active`. */
  function Slot(x: Session): int {
    if x.Ready? then 0 else Token(x)
  }

  function Is(e: Entry, c: ConnId): nat {
    if e.conn == c then 1 else 0
  }

  /** How many of the entries carry connection c. */
  function Among(es: seq<Entry>, c: ConnId): nat {
    if es == [] then 0 else Is(es[0], c) + Among(es[1..], c)
  }

  /** How often session x can reach connection c while it is open and nobody else can. */
  function Reaches(x: Session, c: ConnId): int {
    match x
    case Pruning(e, _, _) => Is(e, c)
    case Testing(e) => Is(e, c)
    case Rejected(e) => Is(e, c)
    case Borrowed(e) => Is(e, c)
    case Putting(e, _) => Is(e, c)
    case Evicting(e) => Is(e, c)
    case Closing(left) => Among(left, c)
    case _ => 0
  }

  /** In how many places connection c is: idle, with a session, or already closed. */
  ghost function Places(s: State, c: ConnId): int {
    Among(s.sh.idle, c) + Sum(s.sessions, x => Reaches(x, c)) + s.closes[c]
  }

  // ---- the invariant ----

  /** `active` counts the idle list and the sessions between taking and giving up a slot. */
  ghost predicate ActiveCounts(s: State) {
    s.sh.active == |s.sh.idle| + Sum(s.sessions, Slot)
  }

  /** Each dialled connection is in exactly one place, once. */
  ghost predicate OnePlaceEach(s: State) {
    forall c: ConnId :: Places(s, c) == if c < s.next then 1 else 0
  }

  /** In Wait mode no token is lost or made up before Close. */
  ghost predicate TokensConserved(cfg: Config, s: State) {
    && (s.sh.ch.Chan? ==> s.sh.ch.open == !s.sh.closed)
    && (!cfg.Limited() ==> s.sh.ch.NoChan?)
    && (cfg.Limited() && !s.sh.closed ==>
          Sum(s.sessions, Token) == if s.sh.ch.Chan? then cfg.maxActive - s.sh.ch.tokens else 0)
  }

  ghost predicate WithinLimit(cfg: Config, s: State) {
    cfg.maxActive > 0 ==> s.sh.active <= cfg.maxActive
  }

  ghost predicate IdleListOk(cfg: Config, s: State) {
    && |s.sh.idle| <= (if cfg.maxIdle < 0 then 0 else cfg.maxIdle)
    && SortedByReturn(s.sh.idle)
    && (s.sh.idle != [] ==> s.sh.idle[0].t <= s.clock)
    && (s.sh.closed ==> s.sh.idle == [])
  }

  ghost predicate WaitersHaveChannel(s: State) {
    forall k :: 0 <= k < |s.sessions| && s.sessions[k].AwaitToken? ==> s.sh.ch.Chan?
  }

  ghost predicate Inv(cfg: Config, s: State) {
    && ActiveCounts(s) && OnePlaceEach(s) && TokensConserved(cfg, s) && WithinLimit(cfg, s)
    && IdleListOk(cfg, s) && WaitersHaveChannel(s)
  }

  lemma InitialInv(cfg: Config, n: nat)
    ensures Inv(cfg, Initial(n))
  {
    var ss := Initial(n).sessions;
    SumZero(ss, Slot);
    SumZero(ss, Token);
    forall c: ConnId ensures Places(Initial(n), c) == 0 {
      SumZero(ss, x => Reaches(x, c));
    }
  }

  // ---- each critical section, on the protected values alone ----

  lemma {:induction false} AmongSnoc(es: seq<Entry>, c: ConnId)
    requires es != []
    ensures Among(es, c) == Among(es[..|es| - 1], c) + Is(es[|es| - 1], c)
  {
    if |es| > 1 {
      assert es[..|es| - 1][1..] == es[1..][..|es| - 2];
      AmongSnoc(es[1..], c);
    }
  }

  /** A section moves each connection; it neither copies nor drops one. */
  lemma PruneMovesConns(cfg: Config, sh: Shared, now: int, k: nat, n: nat, c: ConnId)
    ensures var (sh', o) := Prune(cfg, sh, now, k, n);
      Among(sh.idle, c) == Among(sh'.idle, c) + Reaches(Follow(o), c)
  {
    if sh.idle != [] {
      AmongSnoc(sh.idle, c);
    }
  }

  lemma PutMovesConns(cfg: Config, sh: Shared, e: Entry, force: bool, now: int, c: ConnId)
    ensures var (sh', r) := Put(cfg, sh, e, force, now);
      Among(sh.idle, c) + Is(e, c) == Among(sh'.idle, c) + if r.Kept? then 0 else Is(r.e, c)
  {
    var idle := [e.(t := now)] + sh.idle;
    assert idle[1..] == sh.idle;
    AmongSnoc(idle, c);
  }

  /** A section takes up as many slots as `active` counts. */
  lemma PruneMovesSlots(cfg: Config, sh: Shared, now: int, k: nat, n: nat)
    ensures var (sh', o) := Prune(cfg, sh, now, k, n);
      && sh'.active - |sh'.idle| == sh.active - |sh.idle| + Slot(Follow(o))
      && sh'.ch == sh.ch && sh'.closed == sh.closed
      && (sh'.active == sh.active || (sh'.active == sh.active + 1 && sh'.idle == [] && !sh.closed))
      && (sh'.active > sh.active && !cfg.wait && cfg.maxActive > 0 ==> sh.active < cfg.maxActive)
      && (Token(Follow(o)) == 0 ==> sh.closed || !cfg.wait)
  {
  }

  // ---- each critical section, within the protocol ----

  lemma Replace(ss: seq<Session>, i: nat, x: Session)
    requires i < |ss|
    ensures Sum(ss[i := x], Slot) == Sum(ss, Slot) - Slot(ss[i]) + Slot(x)
    ensures Sum(ss[i := x], Token) == Sum(ss, Token) - Token(ss[i]) + Token(x)
    ensures 0 <= Sum(ss[i := x], Slot) <= Sum(ss[i := x], Token)
  {
    SumUpdate(ss, i, x, Slot);
    SumUpdate(ss, i, x, Token);
    SumMonotone(ss[i := x], Slot, Token);
    SumNonNegative(ss[i := x], Slot);
  }

  lemma ReplacePlaces(s: State, s': State, i: nat, c: ConnId)
    requires i < |s.sessions| && |s'.sessions| == |s.sessions|
    requires s'.sessions == s.sessions[i := s'.sessions[i]]
    ensures Places(s', c) - Among(s'.sh.idle, c) - s'.closes[c] - Reaches(s'.sessions[i], c)
         == Places(s, c) - Among(s.sh.idle, c) - s.closes[c] - Reaches(s.sessions[i], c)
  {
    SumUpdate(s.sessions, i, s'.sessions[i], x => Reaches(x, c));
  }

  /** get's sections keep the counts.  Only one that ends in `p.active++` can reach the
      limit, and there the idle list is empty, so every unit of `active` belongs to a
      session that holds a token.  `gone` is 1 when the section begins with `p.active--`. */
  lemma GetSectionCounts(cfg: Config, s: State, i: nat, now: int, k: nat, n: nat, gone: int)
    requires i < |s.sessions| && ActiveCounts(s) && TokensConserved(cfg, s) && WithinLimit(cfg, s)
    requires 0 <= gone == Slot(s.sessions[i]) && Token(s.sessions[i]) == 1
    ensures var (sh', o) := Prune(cfg, s.sh.(active := s.sh.active - gone), now, k, n);
      var s' := Move(s.(sh := sh'), i, Follow(o));
      ActiveCounts(s') && TokensConserved(cfg, s') && WithinLimit(cfg, s')
  {
    var sh := s.sh.(active := s.sh.active - gone);
    PruneMovesSlots(cfg, sh, now, k, n);
    Replace(s.sessions, i, Follow(Prune(cfg, sh, now, k, n).1));
  }

  /** put's second and get's dial-failure section: the two sends made under the mutex. */
  lemma GiveUpSlotCounts(cfg: Config, s: State, i: nat)
    requires i < |s.sessions| && ActiveCounts(s) && TokensConserved(cfg, s) && WithinLimit(cfg, s)
    requires Slot(s.sessions[i]) == 1
    ensures CanRelease(cfg, s.sh)
    ensures var s' := Move(s.(sh := GiveUpSlot(s.sh)), i, Resting);
      ActiveCounts(s') && TokensConserved(cfg, s') && WithinLimit(cfg, s')
  {
    SumAtLeast(s.sessions, i, Token);
    Replace(s.sessions, i, Resting);
  }

  lemma PutCounts(cfg: Config, s: State, i: nat, now: int)
    requires i < |s.sessions| && ActiveCounts(s) && TokensConserved(cfg, s) && WithinLimit(cfg, s)
    requires s.sessions[i].Putting?
    ensures CanRelease(cfg, s.sh)
    ensures var (sh', r) := Put(cfg, s.sh, s.sessions[i].e, s.sessions[i].force, now);
      var s' := Move(s.(sh := sh'), i, if r.Kept? then Resting else Evicting(r.e));
      ActiveCounts(s') && TokensConserved(cfg, s') && WithinLimit(cfg, s')
  {
    var (sh', r) := Put(cfg, s.sh, s.sessions[i].e, s.sessions[i].force, now);
    SumAtLeast(s.sessions, i, Token);
    Replace(s.sessions, i, if r.Kept? then Resting else Evicting(r.e));
  }

  /** The idle list keeps its order and its bound whatever a section does to it. */
  lemma SectionsKeepIdleList(cfg: Config, sh: Shared, clock: int, now: int, k: nat, n: nat, e: Entry, force: bool)
    requires clock <= now
    requires |sh.idle| <= (if cfg.maxIdle < 0 then 0 else cfg.maxIdle) && SortedByReturn(sh.idle)
    requires (sh.idle != [] ==> sh.idle[0].t <= clock) && (sh.closed ==> sh.idle == [])
    ensures var sh' := Prune(cfg, sh, now, k, n).0;
      && |sh'.idle| <= |sh.idle| && SortedByReturn(sh'.idle)
      && (sh'.idle != [] ==> sh'.idle[0].t <= now) && (sh'.closed ==> sh'.idle == [])
    ensures var sh' := Put(cfg, sh, e, force, now).0;
      && |sh'.idle| <= (if cfg.maxIdle < 0 then 0 else cfg.maxIdle) && SortedByReturn(sh'.idle)
      && (sh'.idle != [] ==> sh'.idle[0].t <= now) && (sh'.closed ==> sh'.idle == [])
  {
  }

  // ---- one step ----

  lemma LockedCounts(cfg: Config, s: State, i: nat, now: int)
    requires ActiveCounts(s) && TokensConserved(cfg, s) && WithinLimit(cfg, s)
    requires i < |s.sessions| && Locked(cfg, s, i, now).Some?
    ensures var s' := Locked(cfg, s, i, now).value;
      ActiveCounts(s') && TokensConserved(cfg, s') && WithinLimit(cfg, s')
  {
    hide ActiveCounts, TokensConserved, WithinLimit;
    match s.sessions[i] {
      case Ready => GetSectionCounts(cfg, s, i, now, 0, |s.sh.idle|, 0);
      case Pruned(k, n) => GetSectionCounts(cfg, s, i, now, k + 1, n, 1);
      case Discarded => GetSectionCounts(cfg, s, i, now, 0, 0, 1);
      case Putting(_, _) => PutCounts(cfg, s, i, now);
      case _ => GiveUpSlotCounts(cfg, s, i);
    }
  }

  /** A step outside the sections of get and put moves no slot, except that Close empties the
      list, and hands a session at most the token that it takes from the channel. */
  lemma UnlockedMoves(cfg: Config, s: State, a: Action)
    requires Step(cfg, s, a).Some? && !a.Lock?
    ensures var s' := Step(cfg, s, a).value;
      var x, x' := s.sessions[a.i], s'.sessions[a.i];
      && s'.sessions == s.sessions[a.i := x']
      && s'.sh.active - |s'.sh.idle| == s.sh.active - |s.sh.idle| && s'.sh.active <= s.sh.active && Slot(x') == Slot(x)
      && s'.sh.closed == (s.sh.closed || a.ClosePool?)
      && (if a.InitChannel? then cfg.Limited() && s'.sh.ch == LazyInit(cfg, s.sh).ch && Token(x') == Token(x)
          else if a.TakeToken? then s.sh.ch.Chan? && Token(x') == Token(x) + 1
               && (if s.sh.ch.tokens > 0 then s'.sh.ch == s.sh.ch.(tokens := s.sh.ch.tokens - 1)
                   else s'.sh.ch == s.sh.ch && !s.sh.ch.open)
          else if a.ClosePool? then s'.sh.closed && Token(x') == Token(x)
               && s'.sh.ch == (if s.sh.ch.Chan? && !s.sh.closed then s.sh.ch.(open := false) else s.sh.ch)
          else if a.CallGet? then s'.sh == s.sh && Token(x') == Token(x) + (if cfg.Limited() then 0 else 1)
          else s'.sh == s.sh && Token(x') == Token(x))
  {
    hide Sum, Locked;
  }

  lemma StepCounts(cfg: Config, s: State, a: Action)
    requires ActiveCounts(s) && TokensConserved(cfg, s) && WithinLimit(cfg, s)
    requires Step(cfg, s, a).Some?
    ensures var s' := Step(cfg, s, a).value;
      ActiveCounts(s') && TokensConserved(cfg, s') && WithinLimit(cfg, s')
  {
    if a.Lock? {
      LockedCounts(cfg, s.(clock := a.now), a.i, a.now);
    } else {
      UnlockedMoves(cfg, s, a);
      hide Sum, Step;
      Replace(s.sessions, a.i, Step(cfg, s, a).value.sessions[a.i]);
    }
  }

  lemma LockedPlaces(cfg: Config, s: State, i: nat, now: int, c: ConnId)
    requires i < |s.sessions| && Locked(cfg, s, i, now).Some?
    ensures var s' := Locked(cfg, s, i, now).value;
      Places(s', c) == Places(s, c) && s'.next == s.next
  {
    ReplacePlaces(s, Locked(cfg, s, i, now).value, i, c);
    var sh := s.sh.(active := s.sh.active - 1);
    match s.sessions[i] {
      case Ready => PruneMovesConns(cfg, s.sh, now, 0, |s.sh.idle|, c);
      case Pruned(k, n) => PruneMovesConns(cfg, sh, now, k + 1, n, c);
      case Discarded => PruneMovesConns(cfg, sh, now, 0, 0, c);
      case Putting(e, force) => PutMovesConns(cfg, s.sh, e, force, now, c);
      case _ =>
    }
  }

  /** The connection that is closed leaves its session's hands. */
  lemma ClosedOne(s: State, i: nat, c: ConnId)
    requires i < |s.sessions| && CloseNext(s, i).Some?
    ensures var s' := CloseNext(s, i).value;
      s'.closes[c] + Reaches(s'.sessions[i], c) == s.closes[c] + Reaches(s.sessions[i], c)
  {
  }

  lemma CloseConnPlaces(s: State, i: nat, c: ConnId)
    requires i < |s.sessions| && CloseNext(s, i).Some?
    ensures var s' := CloseNext(s, i).value;
      Places(s', c) == Places(s, c) && s'.next == s.next
  {
    hide Sum, Places;
    var s' := CloseNext(s, i).value;
    ReplacePlaces(s, s', i, c);
    ClosedOne(s, i, c);
  }

  /** A successful Dial adds one place for the new connection; no other step adds or removes one. */
  lemma StepPlaces(cfg: Config, s: State, a: Action, c: ConnId)
    requires Step(cfg, s, a).Some?
    ensures var s' := Step(cfg, s, a).value;
      Places(s', c) - Places(s, c) == (if s.next <= c < s'.next then 1 else 0) && s.next <= s'.next <= s.next + 1
  {
    if a.Lock? {
      LockedPlaces(cfg, s.(clock := a.now), a.i, a.now, c);
    } else if a.CloseConn? {
      CloseConnPlaces(s, a.i, c);
    } else {
      ReplacePlaces(s, Step(cfg, s, a).value, a.i, c);
    }
  }

  lemma {:induction false} StepIdleList(cfg: Config, s: State, a: Action)
    requires IdleListOk(cfg, s)
    requires Step(cfg, s, a).Some?
    ensures IdleListOk(cfg, Step(cfg, s, a).value)
  {
    if a.Lock? {
      var sh := s.sh.(active := s.sh.active - 1);
      match s.sessions[a.i] {
        case Ready => SectionsKeepIdleList(cfg, s.sh, s.clock, a.now, 0, |s.sh.idle|, Entry(0, 0, 0), false);
        case Pruned(k, n) => SectionsKeepIdleList(cfg, sh, s.clock, a.now, k + 1, n, Entry(0, 0, 0), false);
        case Discarded => SectionsKeepIdleList(cfg, sh, s.clock, a.now, 0, 0, Entry(0, 0, 0), false);
        case Putting(e, force) => SectionsKeepIdleList(cfg, s.sh, s.clock, a.now, 0, 0, e, force);
        case _ =>
      }
    }
  }

  lemma StepWaiters(cfg: Config, s: State, a: Action)
    requires WaitersHaveChannel(s)
    requires Step(cfg, s, a).Some?
    ensures WaitersHaveChannel(Step(cfg, s, a).value)
  {
    var s' := Step(cfg, s, a).value;
    assert s.sh.ch.Chan? ==> s'.sh.ch.Chan?;
    forall k | 0 <= k < |s'.sessions| && s'.sessions[k].AwaitToken? ensures s'.sh.ch.Chan? {
      if k != a.i {
        assert s'.sessions[k] == s.sessions[k];
      }
    }
  }

  /** Every step of every session keeps the invariant. */
  lemma StepKeepsInv(cfg: Config, s: State, a: Action)
    requires Inv(cfg, s)
    requires Step(cfg, s, a).Some?
    ensures Inv(cfg, Step(cfg, s, a).value)
  {
    StepCounts(cfg, s, a);
    StepIdleList(cfg, s, a);
    StepWaiters(cfg, s, a);
    forall c: ConnId ensures Places(Step(cfg, s, a).value, c) == if c < Step(cfg, s, a).value.next then 1 else 0 {
      StepPlaces(cfg, s, a, c);
    }
  }

  lemma {:induction false} RunKeepsInv(cfg: Config, s: State, actions: seq<Action>)
    requires Inv(cfg, s)
    requires Run(cfg, s, actions).Some?
    ensures Inv(cfg, Run(cfg, s, actions).value)
    decreases |actions|
  {
    if actions != [] {
      StepKeepsInv(cfg, s, actions[0]);
      RunKeepsInv(cfg, Step(cfg, s, actions[0]).value, actions[1..]);
    }
  }

  // ---- what holds in every state of every run ----

  ghost predicate Reachable(cfg: Config, s: State) {
    exists n: nat, actions: seq<Action> :: Run(cfg, Initial(n), actions) == Some(s)
  }

  lemma ReachableInv(cfg: Config, s: State)
    requires Reachable(cfg, s)
    ensures Inv(cfg, s)
  {
    var n: nat, actions: seq<Action> :| Run(cfg, Initial(n), actions) == Some(s);
    InitialInv(cfg, n);
    RunKeepsInv(cfg, Initial(n), actions);
  }

  /** A session with an open connection in hand. */
  function HasConn(x: Session): int {
    if x.Pruning? || x.Testing? || x.Rejected? || x.Borrowed? || x.Putting? || x.Evicting? then 1 else 0
  }

  /** MaxActive caps the connections the pool has open, in Wait mode (where no line of
      get compares `active` with it) as in the other. */
  lemma MaxActiveIsACap(cfg: Config, s: State)
    requires Reachable(cfg, s)
    ensures s.sh.active == |s.sh.idle| + Sum(s.sessions, Slot)
    ensures cfg.maxActive > 0 ==> |s.sh.idle| + Sum(s.sessions, HasConn) <= s.sh.active <= cfg.maxActive
  {
    ReachableInv(cfg, s);
    SumMonotone(s.sessions, HasConn, Slot);
  }

  /** Session x is at a critical section that can send on the token channel. */
  predicate AboutToSend(x: Session) {
    x.DialFailed? || x.Putting? || x.Evicted?
  }

  /** In Wait mode free and held tokens add up to MaxActive until Close, so a send made
      under the mutex always finds room in an open channel, and a get that has to wait
      waits for tokens that sessions hold.  Close lets every waiter through. */
  lemma TokensNeverLost(cfg: Config, s: State, i: nat)
    requires Reachable(cfg, s) && cfg.Limited() && i < |s.sessions|
    ensures !s.sh.closed && s.sh.ch.Chan? ==> s.sh.ch.tokens + Sum(s.sessions, Token) == cfg.maxActive
    ensures AboutToSend(s.sessions[i]) ==> CanRelease(cfg, s.sh)
    ensures s.sessions[i].AwaitToken? && Step(cfg, s, TakeToken(i)).None?
        ==> !s.sh.closed && Sum(s.sessions, Token) == cfg.maxActive
  {
    ReachableInv(cfg, s);
    SumAtLeast(s.sessions, i, Token);
  }

  /** Without the limit there is no channel, so no send at all. */
  lemma NoChannelWithoutLimit(cfg: Config, s: State)
    requires Reachable(cfg, s) && !cfg.Limited()
    ensures s.sh.ch.NoChan?
  {
    ReachableInv(cfg, s);
  }

  /** The idle list keeps within MaxIdle, in order of return. */
  lemma IdleListBounded(cfg: Config, s: State, now: int)
    requires Reachable(cfg, s)
    ensures |s.sh.idle| <= (if cfg.maxIdle < 0 then 0 else cfg.maxIdle)
    ensures PruneAll(cfg, s.sh.idle, now) == Fresh(cfg, s.sh.idle, now)
  {
    ReachableInv(cfg, s);
    PruneIsFilter(cfg, s.sh.idle, now);
  }

  /** No connection is ever with two sessions, idle while with one, or touched after it
      was closed; and none is closed twice. */
  lemma ConnectionsAreExclusive(cfg: Config, s: State, i: nat, j: nat, c: ConnId)
    requires Reachable(cfg, s) && i < j < |s.sessions|
    ensures Reaches(s.sessions[i], c) + Reaches(s.sessions[j], c) + Among(s.sh.idle, c) + s.closes[c] <= 1
  {
    ReachableInv(cfg, s);
    assert Places(s, c) <= 1;
    SumAtLeastTwo(s.sessions, i, j, x => Reaches(x, c));
  }

  lemma ClosedAtMostOnce(cfg: Config, s: State, c: ConnId)
    requires Reachable(cfg, s)
    ensures s.closes[c] <= if c < s.next then 1 else 0
  {
    ReachableInv(cfg, s);
    assert Places(s, c) == if c < s.next then 1 else 0;
    SumNonNegative(s.sessions, x => Reaches(x, c));
  }

  /** When the pool is closed and nobody is inside it, `active` is back to 0 and every
      connection that was ever dialled has been closed, exactly once. */
  lemma ClosedAndQuiet(cfg: Config, s: State)
    requires Reachable(cfg, s) && s.sh.closed
    requires forall k :: 0 <= k < |s.sessions| ==> s.sessions[k].Resting?
    ensures s.sh.active == 0
    ensures forall c: ConnId :: s.closes[c] == if c < s.next then 1 else 0
  {
    ReachableInv(cfg, s);
    SumZero(s.sessions, Slot);
    forall c: ConnId ensures s.closes[c] == if c < s.next then 1 else 0 {
      assert Places(s, c) == if c < s.next then 1 else 0;
      SumZero(s.sessions, x => Reaches(x, c));
    }
  }

  /** A step of a closed pool starts no dial and takes no connection from the idle list. */
  lemma ClosedSection(cfg: Config, s: State, i: nat, now: int)
    requires s.sh.closed && s.sh.idle == [] && i < |s.sessions| && Locked(cfg, s, i, now).Some?
    ensures var s' := Locked(cfg, s, i, now).value;
      && s'.sh.closed && s'.sh.idle == [] && s'.sessions == s.sessions[i := s'.sessions[i]]
      && !s'.sessions[i].Dialling? && !s'.sessions[i].Testing? && !s'.sessions[i].Pruning?
  {
  }

  lemma ClosedStep(cfg: Config, s: State, a: Action, i: nat)
    requires s.sh.closed && s.sh.idle == []
    requires Step(cfg, s, a).Some? && i < |s.sessions|
    ensures var s' := Step(cfg, s, a).value;
      && s'.sh.closed && s'.sh.idle == [] && |s'.sessions| == |s.sessions|
      && (s'.sessions[i].Dialling? ==> s.sessions[i].Dialling?)
      && (s'.sessions[i].Testing? ==> s.sessions[i].Testing?)
      && (s'.sessions[i].Pruning? ==> s.sessions[i].Pruning?)
  {
    hide Locked, Sum;
    if a.Lock? {
      ClosedSection(cfg, s.(clock := a.now), a.i, a.now);
    }
  }

  /** After Close the pool stays closed and empty: whoever dials, tests or prunes later on
      was already doing so when Close took the mutex. */
  lemma {:induction false} AfterClose(cfg: Config, s: State, actions: seq<Action>, i: nat)
    requires Reachable(cfg, s) && s.sh.closed
    requires Run(cfg, s, actions).Some? && i < |s.sessions|
    ensures var s' := Run(cfg, s, actions).value;
      && s'.sh.closed && s'.sh.idle == [] && |s'.sessions| == |s.sessions|
      && (s'.sessions[i].Dialling? ==> s.sessions[i].Dialling?)
      && (s'.sessions[i].Testing? ==> s.sessions[i].Testing?)
      && (s'.sessions[i].Pruning? ==> s.sessions[i].Pruning?)
  {
    ReachableInv(cfg, s);
    ClosedRun(cfg, s, actions, i);
  }

  lemma {:induction false} ClosedRun(cfg: Config, s: State, actions: seq<Action>, i: nat)
    requires s.sh.closed && s.sh.idle == []
    requires Run(cfg, s, actions).Some? && i < |s.sessions|
    ensures var s' := Run(cfg, s, actions).value;
      && s'.sh.closed && s'.sh.idle == [] && |s'.sessions| == |s.sessions|
      && (s'.sessions[i].Dialling? ==> s.sessions[i].Dialling?)
      && (s'.sessions[i].Testing? ==> s.sessions[i].Testing?)
      && (s'.sessions[i].Pruning? ==> s.sessions[i].Pruning?)
    decreases |actions|
  {
    if actions != [] {
      ClosedStep(cfg, s, actions[0], i);
      ClosedRun(cfg, Step(cfg, s, actions[0]).value, actions[1..], i);
    }
  }

  // ---- a connection that is given up is never handed out again ----

  function Uses(x: Session, c: ConnId): int {
    if x.Testing? || x.Borrowed? || x.Putting? then Is(x.e, c) else 0
  }

  /** Connection c is idle, or a session is testing, using or returning it. */
  ghost function InUse(s: State, c: ConnId): int {
    Among(s.sh.idle, c) + Sum(s.sessions, x => Uses(x, c))
  }

  lemma ReplaceInUse(s: State, s': State, i: nat, c: ConnId)
    requires i < |s.sessions| == |s'.sessions| && s'.sessions == s.sessions[i := s'.sessions[i]]
    ensures InUse(s', c) - Among(s'.sh.idle, c) - Uses(s'.sessions[i], c)
         == InUse(s, c) - Among(s.sh.idle, c) - Uses(s.sessions[i], c)
  {
    SumUpdate(s.sessions, i, s'.sessions[i], x => Uses(x, c));
  }

  /** A section only moves connections between the list and its session, or lets go of them. */
  lemma LockedInUse(cfg: Config, s: State, i: nat, now: int, c: ConnId)
    requires i < |s.sessions| && Locked(cfg, s, i, now).Some?
    ensures var s' := Locked(cfg, s, i, now).value;
      InUse(s', c) <= InUse(s, c) && s'.next == s.next
  {
    hide Sum, InUse;
    var s' := Locked(cfg, s, i, now).value;
    ReplaceInUse(s, s', i, c);
    var sh := s.sh.(active := s.sh.active - 1);
    match s.sessions[i] {
      case Ready => PruneMovesConns(cfg, s.sh, now, 0, |s.sh.idle|, c);
      case Pruned(k, n) => PruneMovesConns(cfg, sh, now, k + 1, n, c);
      case Discarded => PruneMovesConns(cfg, sh, now, 0, 0, c);
      case Putting(e, force) => PutMovesConns(cfg, s.sh, e, force, now, c);
      case _ =>
    }
  }

  lemma StepInUse(cfg: Config, s: State, a: Action, c: ConnId)
    requires Step(cfg, s, a).Some?
    ensures var s' := Step(cfg, s, a).value;
      InUse(s', c) <= InUse(s, c) + (if s.next <= c < s'.next then 1 else 0) && s.next <= s'.next
  {
    hide Sum, InUse;
    if a.Lock? {
      ReplaceInUse(s, s.(clock := a.now), a.i, c);
      LockedInUse(cfg, s.(clock := a.now), a.i, a.now, c);
    } else {
      ReplaceInUse(s, Step(cfg, s, a).value, a.i, c);
    }
  }

  lemma {:induction false} RunInUse(cfg: Config, s: State, actions: seq<Action>, c: ConnId)
    requires c < s.next && Run(cfg, s, actions).Some?
    ensures InUse(Run(cfg, s, actions).value, c) <= InUse(s, c)
    decreases |actions|
  {
    if actions != [] {
      StepInUse(cfg, s, actions[0], c);
      RunInUse(cfg, Step(cfg, s, actions[0]).value, actions[1..], c);
    }
  }

  /** Session x is about to close connection c. */
  predicate GivingUp(x: Session, c: ConnId) {
    Reaches(x, c) > 0 && Uses(x, c) == 0
  }

  lemma GivenUpIsUnused(cfg: Config, s: State, i: nat, c: ConnId)
    requires Reachable(cfg, s) && i < |s.sessions| && (GivingUp(s.sessions[i], c) || s.closes[c] > 0)
    ensures c < s.next && InUse(s, c) == 0
  {
    ReachableInv(cfg, s);
    var w := (x: Session) => Reaches(x, c);
    assert Places(s, c) == if c < s.next then 1 else 0;
    SumAtLeast(s.sessions, i, w);
    forall k | 0 <= k < |s.sessions| ensures Uses(s.sessions[k], c) == 0 {
      SumAtLeast(s.sessions, k, w);
      if k < i {
        SumAtLeastTwo(s.sessions, k, i, w);
      } else if i < k {
        SumAtLeastTwo(s.sessions, i, k, w);
      }
    }
    SumZero(s.sessions, x => Uses(x, c));
  }

  /** Once a session has set out to close a connection, no later step of any session tests
      it, hands it out, or puts it back on the idle list. */
  lemma GivenUpForGood(cfg: Config, s: State, i: nat, c: ConnId, actions: seq<Action>)
    requires Reachable(cfg, s) && i < |s.sessions| && (GivingUp(s.sessions[i], c) || s.closes[c] > 0)
    requires Run(cfg, s, actions).Some?
    ensures InUse(Run(cfg, s, actions).value, c) == 0
  {
    GivenUpIsUnused(cfg, s, i, c);
    RunInUse(cfg, s, actions, c);
    var s' := Run(cfg, s, actions).value;
    SumNonNegative(s'.sessions, x => Uses(x, c));
  }

  lemma {:induction false} RunSnoc(cfg: Config, s: State, actions: seq<Action>, a: Action)
    requires Run(cfg, s, actions).Some? && Step(cfg, Run(cfg, s, actions).value, a).Some?
    ensures Run(cfg, s, actions + [a]) == Step(cfg, Run(cfg, s, actions).value, a)
    decreases |actions|
  {
    hide Step;
    if actions == [] {
      assert [] + [a] == [a] && [a][1..] == [];
    } else {
      assert (actions + [a])[1..] == actions[1..] + [a];
      RunSnoc(cfg, Step(cfg, s, actions[0]).value, actions[1..], a);
    }
  }

  lemma ReachableStep(cfg: Config, s: State, a: Action)
    requires Reachable(cfg, s) && Step(cfg, s, a).Some?
    ensures Reachable(cfg, Step(cfg, s, a).value)
  {
    hide Step;
    var n: nat, actions: seq<Action> :| Run(cfg, Initial(n), actions) == Some(s);
    RunSnoc(cfg, Initial(n), actions, a);
    assert Run(cfg, Initial(n), actions + [a]) == Some(Step(cfg, s, a).value);
  }

  /** The connection is put back by force or into a closed pool, or fails its test, or has
      outlived MaxConnLifetime. */
  predicate FoundUnfit(cfg: Config, s: State, a: Action) {
    a.i < |s.sessions| && var x := s.sessions[a.i];
    || (a.Lock? && x.Putting? && (x.force || s.sh.closed))
    || (a.TestResult? && x.Testing?
        && (!a.ok || (cfg.maxConnLifetime != 0 && a.now - x.e.created >= cfg.maxConnLifetime)))
  }

  /** A connection that was found unfit is never handed out again, whatever happens later. */
  lemma UnfitIsGivenUp(cfg: Config, s: State, a: Action, actions: seq<Action>)
    requires Reachable(cfg, s) && FoundUnfit(cfg, s, a) && Step(cfg, s, a).Some?
    requires Run(cfg, Step(cfg, s, a).value, actions).Some?
    ensures InUse(Run(cfg, Step(cfg, s, a).value, actions).value, s.sessions[a.i].e.conn) == 0
  {
    var s', c := Step(cfg, s, a).value, s.sessions[a.i].e.conn;
    ReachableStep(cfg, s, a);
    assert GivingUp(s'.sessions[a.i], c);
    hide Step;
    GivenUpForGood(cfg, s', a.i, c, actions);
  }

  /** get takes the connection that was returned last and prunes the one that was returned
      first, if that is stale; a full put pushes out the one that was returned first. */
  lemma ChosenByAge(cfg: Config, s: State, i: nat, now: int)
    requires Reachable(cfg, s) && i < |s.sessions| && Step(cfg, s, Lock(i, now)).Some?
    ensures var s' := Step(cfg, s, Lock(i, now)).value;
      var x' := s'.sessions[i];
      && (x'.Testing? ==> x'.e in s.sh.idle && forall e <- s.sh.idle :: e.t <= x'.e.t)
      && (x'.Pruning? ==> x'.stale in s.sh.idle && Stale(cfg, x'.stale, now) && forall e <- s.sh.idle :: x'.stale.t <= e.t)
      && (x'.Evicting? && !FoundUnfit(cfg, s, Lock(i, now)) ==> forall e <- s'.sh.idle :: x'.e.t <= e.t)
  {
    ReachableInv(cfg, s);
    LockedChoosesByAge(cfg, s.(clock := now), i, now);
  }

  lemma LockedChoosesByAge(cfg: Config, s: State, i: nat, now: int)
    requires SortedByReturn(s.sh.idle) && (s.sh.idle != [] ==> s.sh.idle[0].t <= now)
    requires i < |s.sessions| && Locked(cfg, s, i, now).Some?
    ensures var s' := Locked(cfg, s, i, now).value;
      var x' := s'.sessions[i];
      && (x'.Testing? ==> x'.e in s.sh.idle && forall e <- s.sh.idle :: e.t <= x'.e.t)
      && (x'.Pruning? ==> x'.stale in s.sh.idle && Stale(cfg, x'.stale, now) && forall e <- s.sh.idle :: x'.stale.t <= e.t)
      && (x'.Evicting? && !s.sessions[i].force && !s.sh.closed ==> forall e <- s'.sh.idle :: x'.e.t <= e.t)
  {
    hide Prune, SortedByReturn, Stale;
    var sh := s.sh.(active := s.sh.active - 1);
    match s.sessions[i] {
      case Ready => GetChoosesByAge(cfg, s.sh, now, 0, |s.sh.idle|);
      case Pruned(k, n) => GetChoosesByAge(cfg, sh, now, k + 1, n);
      case Discarded =>
        TakeFrontIsPrune(cfg, sh, now);
        GetChoosesByAge(cfg, sh, now, 0, 0);
      case Putting(e, force) => PutPushesOutOldest(cfg, s.sh, e, force, now);
      case _ =>
    }
  }

  /** get is refused only by a closed pool, or when exactly MaxActive slots are taken and
      none of them is idle. */
  lemma RefusedOnlyWhenFull(cfg: Config, s: State, i: nat, now: int)
    requires Reachable(cfg, s) && i < |s.sessions| && s.sessions[i].Ready?
    requires Step(cfg, s, Lock(i, now)).Some? && Step(cfg, s, Lock(i, now)).value.sessions[i].Resting?
    ensures s.sh.closed || (!cfg.wait && s.sh.idle == [] && 0 < cfg.maxActive == Sum(s.sessions, Slot))
  {
    ReachableInv(cfg, s);
    hide Sum, SortedByReturn, OnePlaceEach, TokensConserved, WaitersHaveChannel, Prune;
    GetChoosesByAge(cfg, s.sh, now, 0, |s.sh.idle|);
  }

  lemma TakeFrontIsPrune(cfg: Config, sh: Shared, now: int)
    ensures TakeFront(cfg, sh) == Prune(cfg, sh, now, 0, 0)
  {
  }

  lemma GetChoosesByAge(cfg: Config, sh: Shared, now: int, k: nat, n: nat)
    requires SortedByReturn(sh.idle)
    ensures var (sh', o) := Prune(cfg, sh, now, k, n);
      && (o.TestIdle? ==> o.pooled in sh.idle && forall e <- sh.idle :: e.t <= o.pooled.t)
      && (o.CloseStale? ==> o.stale in sh.idle && Stale(cfg, o.stale, now) && forall e <- sh.idle :: o.stale.t <= e.t)
      && (o.GetOnClosed? ==> sh.closed)
      && (o.PoolExhausted? ==> !cfg.wait && sh.idle == [] && 0 < cfg.maxActive <= sh.active)
  {
  }

  lemma PutPushesOutOldest(cfg: Config, sh: Shared, e: Entry, force: bool, now: int)
    requires SortedByReturn(sh.idle) && (sh.idle != [] ==> sh.idle[0].t <= now)
    ensures var (sh', r) := Put(cfg, sh, e, force, now);
      r.ToClose? && !force && !sh.closed ==> forall e' <- sh'.idle :: r.e.t <= e'.t
  {
  }
}