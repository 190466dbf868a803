/** redigo's Pool: its critical sections carried out on the linked idle list.  Each
    method below runs with the mutex held from start to end, and its postcondition
    says that it does to the protected values what PoolSpec prescribes. */
module Pools {
  import opened PoolSpec
  import opened IdleLists

  /** What get does next, with the node it popped. */
  datatype GetStep =
    | CloseStaleNode(stale: PoolConn, i: nat, n: nat)
    | TestNode(pooled: PoolConn)
    | FailClosed
    | FailExhausted
    | Dial

  function Described(g: GetStep): Outcome
    reads match g { case CloseStaleNode(pc, _, _) => {pc} case TestNode(pc) => {pc} case _ => {} }
  {
    match g
    case CloseStaleNode(pc, i, n) => CloseStale(pc.Value(), i, n)
    case TestNode(pc) => TestIdle(pc.Value())
    case FailClosed => GetOnClosed
    case FailExhausted => PoolExhausted
    case Dial => DialNew
  }

  class Pool {
    const cfg: Config
    var closed: bool
    var active: int
    var ch: Chan
    const idle: IdleList

    ghost predicate Valid()
      reads this, idle, idle.nodes
    {
      idle.Valid()
    }

    ghost function Protected(): Shared
      reads this, idle
    {
      Shared(closed, active, idle.contents, ch)
    }

    constructor (cfg: Config)
      ensures Valid() && this.cfg == cfg && fresh(idle)
      ensures Protected() == Shared(false, 0, [], NoChan)
    {
      this.cfg := cfg;
      closed, active, ch := false, 0, NoChan;
      idle := new IdleList();
    }

    /** lazyInit's slow path. */
    method LazyInit()
      requires Valid() && cfg.maxActive > 0
      modifies this`ch
      ensures Valid() && Protected() == PoolSpec.LazyInit(cfg, old(Protected()))
    {
      if ch.NoChan? {
        ch := Chan(0, true);
        if closed {
          ch := ch.(open := false);
        } else {
          for i := 0 to cfg.maxActive
            invariant ch == Chan(i, true)
          {
            ch := Chan(ch.tokens + 1, true);
          }
        }
      }
    }

    /** One round of the prune loop, or what follows it. */
    method PruneRound(now: int, i: nat, n: nat) returns (g: GetStep)
      requires Valid()
      modifies this`active, idle, idle.nodes
      ensures Valid() && (Protected(), Described(g)) == Prune(cfg, old(Protected()), now, i, n)
    {
      if cfg.idleTimeout > 0 && i < n && idle.back != null && idle.back.t + cfg.idleTimeout < now {
        var pc := idle.back;
        idle.PopBack();
        g := CloseStaleNode(pc, i, n);
      } else {
        g := TakeFront();
      }
    }

    method TakeFront() returns (g: GetStep)
      requires Valid()
      modifies this`active, idle, idle.nodes
      ensures Valid() && (Protected(), Described(g)) == PoolSpec.TakeFront(cfg, old(Protected()))
    {
      if idle.front != null {
        var pc := idle.front;
        idle.PopFront();
        return TestNode(pc);
      }
      if closed {
        return FailClosed;
      }
      if !cfg.wait && cfg.maxActive > 0 && active >= cfg.maxActive {
        return FailExhausted;
      }
      active := active + 1;
      g := Dial;
    }

    /** get's first critical section. */
    method EnterGet(now: int) returns (g: GetStep)
      requires Valid()
      modifies this`active, idle, idle.nodes
      ensures Valid() && (Protected(), Described(g)) == PoolSpec.EnterGet(cfg, old(Protected()), now)
    {
      g := PruneRound(now, 0, idle.count);
    }

    /** Back in the prune loop, after the popped connection was closed. */
    method AfterStale(now: int, i: nat, n: nat) returns (g: GetStep)
      requires Valid()
      modifies this`active, idle, idle.nodes
      ensures Valid() && (Protected(), Described(g)) == PoolSpec.AfterStale(cfg, old(Protected()), now, i, n)
    {
      active := active - 1;
      g := PruneRound(now, i + 1, n);
    }

    /** Back in the borrowing loop, after the rejected connection was closed. */
    method AfterRejected() returns (g: GetStep)
      requires Valid()
      modifies this`active, idle, idle.nodes
      ensures Valid() && (Protected(), Described(g)) == PoolSpec.AfterRejected(cfg, old(Protected()))
    {
      active := active - 1;
      g := TakeFront();
    }

    /** `p.ch <- struct{}{}` under the mutex; PoolProtocol shows that it never blocks. */
    method SendToken()
      requires CanRelease(cfg, Protected())
      modifies this`ch
      ensures Protected() == Release(old(Protected()))
    {
      if !ch.NoChan? && !closed {
        ch := Chan(ch.tokens + 1, ch.open);
      }
    }

    /** put's critical section after Close of a connection, and get's after a failed Dial. */
    method GiveUpSlot()
      requires Valid() && CanRelease(cfg, Protected())
      modifies this`active, this`ch
      ensures Valid() && Protected() == PoolSpec.GiveUpSlot(old(Protected()))
    {
      active := active - 1;
      SendToken();
    }

    /** Put back at the front; a non-null result is the node pushed off the back. */
    method KeepIdle(pc: PoolConn, now: int) returns (toClose: PoolConn?)
      requires Valid() && pc !in idle.nodes
      modifies idle, idle.nodes, pc
      ensures Valid()
      ensures var pushed := [old(pc.Value()).(t := now)] + old(idle.contents);
        if |pushed| > cfg.maxIdle
        then toClose != null && toClose.Value() == pushed[|pushed| - 1] && idle.contents == pushed[..|pushed| - 1]
        else toClose == null && idle.contents == pushed
    {
      pc.t := now;
      idle.PushFront(pc);
      if idle.count > cfg.maxIdle {
        toClose := idle.back;
        idle.PopBack();
      } else {
        toClose := null;
      }
    }

    /** put's first critical section; a non-null result is the connection to close. */
    method Put(pc: PoolConn, forceClose: bool, now: int) returns (toClose: PoolConn?)
      requires Valid() && pc !in idle.nodes && CanRelease(cfg, Protected())
      modifies this`ch, idle, idle.nodes, pc
      ensures Valid()
      ensures var (sh, r) := PoolSpec.Put(cfg, old(Protected()), old(pc.Value()), forceClose, now);
        Protected() == sh && r == if toClose == null then Kept else ToClose(toClose.Value())
    {
      toClose := pc;
      if !closed && !forceClose {
        toClose := KeepIdle(pc, now);
      }
      if toClose == null {
        SendToken();
      }
    }

    /** Close's critical section; the detached nodes stay linked through `next`. */
    method CloseSection() returns (head: PoolConn?, ghost chain: seq<PoolConn>)
      requires Valid()
      modifies this`closed, this`active, this`ch, idle
      ensures Valid() && Linked(head, chain)
      ensures Protected() == PoolSpec.Close(old(Protected())).0
      ensures Carries(chain, PoolSpec.Close(old(Protected())).1)
    {
      if closed {
        return null, [];
      }
      closed := true;
      active := active - idle.count;
      head, chain := idle.front, idle.nodes;
      idle.count := 0;
      idle.front, idle.back := null, null;
      idle.nodes, idle.contents := [], [];
      if ch.Chan? {
        ch := ch.(open := false);
      }
    }

    ghost predicate Linked(head: PoolConn?, chain: seq<PoolConn>)
      reads chain
    {
      && head == NodeAt(chain, 0)
      && forall k :: 0 <= k < |chain| ==> chain[k].next == NodeAt(chain, k + 1)
    }

    /** Close's walk over the detached list: it closes every node of it, in order. */
    method CloseDetached(head: PoolConn?, ghost chain: seq<PoolConn>) returns (closes: seq<ConnId>)
      requires Linked(head, chain)
      ensures |closes| == |chain| && forall k :: 0 <= k < |chain| ==> closes[k] == chain[k].conn
    {
      closes := [];
      var pc := head;
      ghost var k := 0;
      while pc != null
        invariant 0 <= k <= |chain| && |closes| == k
        invariant pc == NodeAt(chain, k)
        invariant forall j :: 0 <= j < k ==> closes[j] == chain[j].conn
        decreases |chain| - k
      {
        closes := closes + [pc.conn];
        pc := pc.next;
        k := k + 1;
      }
    }
  }
}
