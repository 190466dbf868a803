/** The values a redigo Pool protects with its mutex, and what each of its critical
    sections does to them.  Every function here is one stretch of code between a
    Lock and the next Unlock; Pools.Pool carries these sections out on the linked
    list, and PoolProtocol interleaves them between any number of goroutines. */
module PoolSpec {

  /** A dialled connection, named by the order in which Dial returned it. */
  type ConnId = nat

  /** A poolConn: its connection, when it was last put back, when it was dialled. */
  datatype Entry = Entry(conn: ConnId, t: int, created: int)

  datatype Config = Config(wait: bool, maxActive: int, maxIdle: int,
                           idleTimeout: int, maxConnLifetime: int)
  {
    /** get takes a token first: `p.Wait && p.MaxActive > 0`. */
    predicate Limited() { wait && maxActive > 0 }
  }

  /** The token channel: nil until lazyInit, then a buffer of capacity maxActive. */
  datatype Chan = NoChan | Chan(tokens: nat, open: bool)

  datatype Shared = Shared(closed: bool, active: int, idle: seq<Entry>, ch: Chan)

  /** What a goroutine in get goes on to do after it released the mutex. */
  datatype Outcome =
    | CloseStale(stale: Entry, i: nat, n: nat)  // close a pruned connection, then loop on
    | TestIdle(pooled: Entry)                   // try a connection from the front
    | GetOnClosed
    | PoolExhausted
    | DialNew

  predicate Stale(cfg: Config, e: Entry, now: int) {
    e.t + cfg.idleTimeout < now
  }

  /** From the prune loop's test to the next Unlock, at iteration i of n. */
  function Prune(cfg: Config, sh: Shared, now: int, i: nat, n: nat): (Shared, Outcome) {
    if cfg.idleTimeout > 0 && i < n && sh.idle != [] && Stale(cfg, sh.idle[|sh.idle| - 1], now) then
      (sh.(idle := sh.idle[..|sh.idle| - 1]), CloseStale(sh.idle[|sh.idle| - 1], i, n))
    else
      TakeFront(cfg, sh)
  }

  /** From the test on idle.front to the next Unlock. */
  function TakeFront(cfg: Config, sh: Shared): (Shared, Outcome) {
    if sh.idle != [] then
      (sh.(idle := sh.idle[1..]), TestIdle(sh.idle[0]))
    else if sh.closed then
      (sh, GetOnClosed)
    else if !cfg.wait && cfg.maxActive > 0 && sh.active >= cfg.maxActive then
      (sh, PoolExhausted)
    else
      (sh.(active := sh.active + 1), DialNew)
  }

  /** get's first critical section. */
  function EnterGet(cfg: Config, sh: Shared, now: int): (Shared, Outcome) {
    Prune(cfg, sh, now, 0, |sh.idle|)
  }

  /** get's critical section after it closed a stale connection. */
  function AfterStale(cfg: Config, sh: Shared, now: int, i: nat, n: nat): (Shared, Outcome) {
    Prune(cfg, sh.(active := sh.active - 1), now, i + 1, n)
  }

  /** get's critical section after it closed a connection that failed its test. */
  function AfterRejected(cfg: Config, sh: Shared): (Shared, Outcome) {
    TakeFront(cfg, sh.(active := sh.active - 1))
  }

  /** `if p.ch != nil && !p.closed { p.ch <- struct{}{} }`, when the send does not block. */
  function Release(sh: Shared): Shared {
    if sh.ch.Chan? && !sh.closed then sh.(ch := sh.ch.(tokens := sh.ch.tokens + 1)) else sh
  }

  /** The send in Release would find room in an open channel. */
  predicate CanRelease(cfg: Config, sh: Shared) {
    sh.ch.Chan? && !sh.closed ==> sh.ch.open && sh.ch.tokens < cfg.maxActive
  }

  /** get's critical section after Dial failed, and put's after it closed a connection. */
  function GiveUpSlot(sh: Shared): Shared {
    Release(sh.(active := sh.active - 1))
  }

  datatype PutResult = Kept | ToClose(e: Entry)

  /** put's first critical section. */
  function Put(cfg: Config, sh: Shared, e: Entry, forceClose: bool, now: int): (Shared, PutResult) {
    if sh.closed || forceClose then
      (sh, ToClose(e))
    else
      var idle := [e.(t := now)] + sh.idle;
      if |idle| > cfg.maxIdle then
        (sh.(idle := idle[..|idle| - 1]), ToClose(idle[|idle| - 1]))
      else
        (Release(sh.(idle := idle)), Kept)
  }

  /** Close's critical section: the new state and the entries left to close. */
  function Close(sh: Shared): (Shared, seq<Entry>) {
    if sh.closed then (sh, [])
    else
      (Shared(true, sh.active - |sh.idle|, [], if sh.ch.Chan? then sh.ch.(open := false) else NoChan), sh.idle)
  }

  /** lazyInit's slow path. */
  function LazyInit(cfg: Config, sh: Shared): Shared
    requires cfg.maxActive > 0
  {
    if sh.ch.Chan? then sh
    else sh.(ch := if sh.closed then Chan(0, false) else Chan(cfg.maxActive, true))
  }

  // ---- the idle list is ordered by return time ----

  /** Most recently returned first. */
  ghost predicate SortedByReturn(idle: seq<Entry>) {
    forall j, k :: 0 <= j < k < |idle| ==> idle[j].t >= idle[k].t
  }

  /** The prune loop run to its end at one clock reading, with no interference. */
  function PruneAll(cfg: Config, idle: seq<Entry>, now: int): seq<Entry> {
    if idle != [] && Stale(cfg, idle[|idle| - 1], now) then PruneAll(cfg, idle[..|idle| - 1], now) else idle
  }

  /** The entries that a full scan would keep. */
  function Fresh(cfg: Config, idle: seq<Entry>, now: int): seq<Entry> {
    if idle == [] then []
    else (if Stale(cfg, idle[0], now) then [] else [idle[0]]) + Fresh(cfg, idle[1..], now)
  }

  lemma {:induction false} FreshSnoc(cfg: Config, idle: seq<Entry>, e: Entry, now: int)
    ensures Fresh(cfg, idle + [e], now) == Fresh(cfg, idle, now) + if Stale(cfg, e, now) then [] else [e]
  {
    if idle == [] {
      assert idle + [e] == [e];
    } else {
      assert (idle + [e])[1..] == idle[1..] + [e];
      FreshSnoc(cfg, idle[1..], e, now);
    }
  }

  lemma {:induction false} AllFresh(cfg: Config, idle: seq<Entry>, now: int)
    requires forall k :: 0 <= k < |idle| ==> !Stale(cfg, idle[k], now)
    ensures Fresh(cfg, idle, now) == idle
  {
    if idle != [] {
      AllFresh(cfg, idle[1..], now);
    }
  }

  /** Popping from the back alone removes exactly what a scan of the whole list would. */
  lemma {:induction false} PruneIsFilter(cfg: Config, idle: seq<Entry>, now: int)
    requires SortedByReturn(idle)
    ensures PruneAll(cfg, idle, now) == Fresh(cfg, idle, now)
  {
    if idle == [] {
    } else if Stale(cfg, idle[|idle| - 1], now) {
      var front := idle[..|idle| - 1];
      PruneIsFilter(cfg, front, now);
      FreshSnoc(cfg, front, idle[|idle| - 1], now);
      assert idle == front + [idle[|idle| - 1]];
    } else {
      AllFresh(cfg, idle, now);
    }
  }
}
