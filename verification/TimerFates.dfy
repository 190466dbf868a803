/** What becomes of the timers that callbacks add during a round of TimerQueue::handleRead. */
module TimerFates {
  import opened Basics
  import opened TimerQueues

  /** What the callbacks of these timers do, one operation after the other. */
  function AllOps(es: seq<Entry>, heap: map<Address, Timer>, run: nat -> seq<Op>): seq<Op>
    requires forall e <- es :: e.addr in heap
  {
    if es == [] then [] else AllOps(es[..|es| - 1], heap, run) + run(heap[es[|es| - 1].addr].sequence)
  }

  lemma PerformedOk(q: Queue, op: Op, out: set<Address>)
    requires Ok(q, out)
    ensures Ok(Performed(q, op), out)
    ensures forall a <- out :: a in q.heap && a in Performed(q, op).heap && Performed(q, op).heap[a] == q.heap[a]
  {
    match op {
      case Add(a, when, interval, repeat) =>
        if a !in q.heap && a < UINTPTR_MAX {
          AddedMeans(q, out, a, when, interval, repeat);
        }
      case Cancel(id) =>
        CancelledMeans(q, out, id);
        assert TimerOk(q, out, id.0) && IdOk(q, id);
    }
  }

  lemma {:induction false} AllPerformedOk(q: Queue, ops: seq<Op>, out: set<Address>)
    requires Ok(q, out)
    ensures Ok(AllPerformed(q, ops), out)
    ensures forall a <- out :: a in q.heap && a in AllPerformed(q, ops).heap && AllPerformed(q, ops).heap[a] == q.heap[a]
  {
    if ops != [] {
      var n := |ops| - 1;
      AllPerformedOk(q, ops[..n], out);
      PerformedOk(AllPerformed(q, ops[..n]), ops[n], out);
    }
  }

  lemma {:induction false} AllPerformedJoin(q: Queue, a: seq<Op>, b: seq<Op>)
    ensures AllPerformed(q, a + b) == AllPerformed(AllPerformed(q, a), b)
  {
    if b == [] {
      assert a + b == a;
    } else {
      var n := |b| - 1;
      assert (a + b)[..|a| + n] == a + b[..n];
      AllPerformedJoin(q, a, b[..n]);
    }
  }

  lemma {:induction false} CallbacksAreOps(q: Queue, es: seq<Entry>, run: nat -> seq<Op>, out: set<Address>)
    requires Ok(q, out) && forall e <- es :: e.addr in out
    ensures (forall e <- es :: e.addr in q.heap) && CallbacksRun(q, es, run) == AllPerformed(q, AllOps(es, q.heap, run))
  {
    if es != [] {
      var n := |es| - 1;
      CallbacksAreOps(q, es[..n], run, out);
      var ops := AllOps(es[..n], q.heap, run);
      AllPerformedOk(q, ops, out);
      assert es[n].addr in out;
      AllPerformedJoin(q, ops, run(q.heap[es[n].addr].sequence));
    }
  }

  /** The timer is queued, as the operation asked for it. */
  ghost predicate QueuedAs(q: Queue, id: TimerId, op: Op)
    requires op.Add?
  {
    && id in q.active && id.0 in q.heap && q.heap[id.0] == Timer(id.1, op.when, op.interval, op.repeat)
    && Entry(op.when, id.0) in q.timers
  }

  /** The timer is deleted, and its number will not be given again. */
  ghost predicate Gone(q: Queue, id: TimerId) {
    id !in q.active && !Live(q, id) && id.1 < q.created
  }

  lemma PerformedKeepsQueued(q: Queue, op: Op, out: set<Address>, id: TimerId, added: Op)
    requires Ok(q, out) && added.Add? && QueuedAs(q, id, added)
    ensures if op == Cancel(id) then Gone(Performed(q, op), id) else QueuedAs(Performed(q, op), id, added)
  {
    assert IdOk(q, id) && TimerOk(q, out, id.0);
    match op {
      case Add(a, when, interval, repeat) =>
        if a !in q.heap && a < UINTPTR_MAX {
          AddedMeans(q, out, a, when, interval, repeat);
        }
      case Cancel(other) =>
        CancelledMeans(q, out, other);
        assert IdOk(q, other);
    }
  }

  lemma PerformedKeepsGone(q: Queue, op: Op, out: set<Address>, id: TimerId)
    requires Ok(q, out) && Gone(q, id)
    ensures Gone(Performed(q, op), id)
  {
    match op {
      case Add(a, when, interval, repeat) =>
        if a !in q.heap && a < UINTPTR_MAX {
          AddedMeans(q, out, a, when, interval, repeat);
        }
      case Cancel(other) => CancelledMeans(q, out, other);
    }
  }

  /** Queued, or deleted if one of the operations cancelled it. */
  ghost predicate Fate(q: Queue, id: TimerId, added: Op, ops: seq<Op>)
    requires added.Add?
  {
    if Cancel(id) in ops then Gone(q, id) else QueuedAs(q, id, added)
  }

  lemma {:induction false} FateOf(q: Queue, ops: seq<Op>, out: set<Address>, id: TimerId, added: Op)
    requires Ok(q, out) && added.Add? && QueuedAs(q, id, added)
    ensures Fate(AllPerformed(q, ops), id, added, ops)
  {
    if ops != [] {
      var n := |ops| - 1;
      var before := AllPerformed(q, ops[..n]);
      FateOf(q, ops[..n], out, id, added);
      AllPerformedOk(q, ops[..n], out);
      assert ops == ops[..n] + [ops[n]];
      hide Ok, Gone, QueuedAs, Performed;
      if Cancel(id) in ops[..n] {
        PerformedKeepsGone(before, ops[n], out, id);
      } else {
        PerformedKeepsQueued(before, ops[n], out, id, added);
      }
    }
  }

  lemma ResetTimerMeans(q: Queue, a: Address, now: int, out: set<Address>)
    requires Ok(q, out) && a in out
    ensures var q' := ResetTimer(q, a, now);
      && Ok(q', out - {a}) && q'.created == q.created && a in q.heap
      && (forall b :: b != a ==> (b in q'.heap <==> b in q.heap) && (b in q.heap ==> q'.heap[b] == q.heap[b]))
      && (forall e: Entry :: e.addr != a ==> (e in q'.timers <==> e in q.timers))
      && (forall id: TimerId :: id.0 != a ==> (id in q'.active <==> id in q.active))
      && (a in q'.heap ==> q'.heap[a].sequence == q.heap[a].sequence)
      && (forall s: nat :: (a, s) in q'.active ==> s == q.heap[a].sequence || (a, s) in q.active)
  {
    assert TimerOk(q, out, a);
    if q.heap[a].repeat && Id(q, a) !in q.canceling {
      var q1 := Restarted(q, a, now);
      RestartedOk(q, out, a, now);
      InsertedTimerOk(q1, out, a);
      InsertedSorted(q1.timers, EntryOf(q1, a));
    } else {
      DeletedOk(q, out, a);
    }
  }

  lemma ResetKeepsFate(q: Queue, a: Address, now: int, out: set<Address>, id: TimerId, added: Op, ops: seq<Op>)
    requires Ok(q, out) && a in out && added.Add? && Fate(q, id, added, ops)
    ensures Fate(ResetTimer(q, a, now), id, added, ops)
  {
    ResetTimerMeans(q, a, now, out);
    assert TimerOk(q, out, a);
    assert id in q.active ==> IdOk(q, id) && TimerOk(q, out, id.0);
  }

  /** reset goes through the expired timers one by one and leaves others as they are. */
  lemma {:induction false} ResetsKeepFate(q: Queue, es: seq<Entry>, i: nat, now: int, id: TimerId, added: Op, ops: seq<Op>)
    requires Ok(q, Addresses(es)) && added.Add? && Fate(q, id, added, ops) && i <= |es|
    requires forall j, k :: 0 <= j < k < |es| ==> es[j].addr != es[k].addr
    ensures Ok(AllReset(q, es[..i], now), Addresses(es[i..])) && Fate(AllReset(q, es[..i], now), id, added, ops)
  {
    if i == 0 {
      assert es[0..] == es;
    } else {
      ResetsKeepFate(q, es, i - 1, now, id, added, ops);
      var before := AllReset(q, es[..i - 1], now);
      var a, out := es[i - 1].addr, Addresses(es[i - 1..]);
      assert es[i - 1..] == [es[i - 1]] + es[i..] && es[..i][..i - 1] == es[..i - 1];
      assert a in out && Addresses(es[i..]) == out - {a};
      hide Ok, Fate, ResetTimer;
      ResetTimerMeans(before, a, now, out);
      ResetKeepsFate(before, a, now, out, id, added, ops);
    }
  }

  /** The state at the start of handleRead's callbacks, and what they do, in order. */
  function AtCallbacks(q: Queue, now: int): Queue {
    WithoutExpired(q, now).(calling := true, canceling := {})
  }

  /** The k-th operation of the callbacks gets a timer, at an address that is free then. */
  predicate Adds(q: Queue, ops: seq<Op>, k: nat) {
    k < |ops| && ops[k].Add? && ops[k].addr < UINTPTR_MAX && ops[k].addr !in AllPerformed(q, ops[..k]).heap
  }

  /** A timer that a callback adds during a round of handleRead is queued when the round is
      over, exactly as it was asked for, if and only if no later operation of the callbacks
      cancelled it; otherwise it is deleted. */
  lemma AddedInRound(q0: Queue, now: int, run: nat -> seq<Op>, k: nat)
    requires Ok(q0, {}) && (forall e <- ExpiredEntries(q0, now) :: e.addr in q0.heap)
    requires Adds(AtCallbacks(q0, now), AllOps(ExpiredEntries(q0, now), q0.heap, run), k)
    ensures var q, ops := AtCallbacks(q0, now), AllOps(ExpiredEntries(q0, now), q0.heap, run);
      Fate(Handled(q0, now, run), (ops[k].addr, AllPerformed(q, ops[..k]).created), ops[k], ops[k + 1..])
  {
    ExpiredAreDistinct(q0, now);
    ExpiredAreDue(q0, now);
    var es, q := ExpiredEntries(q0, now), AtCallbacks(q0, now);
    var out, ops := Addresses(es), AllOps(es, q0.heap, run);
    OkIgnoresFlags(WithoutExpired(q0, now), q, out);
    CallbacksAreOps(q, es, run, out);
    var qf := AllPerformed(q, ops);
    var id := (ops[k].addr, AllPerformed(q, ops[..k]).created);
    AddedAndAfter(q, ops, k, out);
    AllPerformedOk(q, ops, out);
    var qr := qf.(calling := false);
    OkIgnoresFlags(qf, qr, out);
    assert Fate(qr, id, ops[k], ops[k + 1..]);
    ResetsKeepFate(qr, es, |es|, now, id, ops[k], ops[k + 1..]);
    assert es[..|es|] == es;
  }

  lemma AddedAndAfter(q: Queue, ops: seq<Op>, k: nat, out: set<Address>)
    requires Ok(q, out) && Adds(q, ops, k)
    ensures Fate(AllPerformed(q, ops), (ops[k].addr, AllPerformed(q, ops[..k]).created), ops[k], ops[k + 1..])
  {
    hide Ok, Fate;
    var before, op := AllPerformed(q, ops[..k]), ops[k];
    AllPerformedOk(q, ops[..k], out);
    AddedMeans(before, out, op.addr, op.when, op.interval, op.repeat);
    var after := Performed(before, op);
    assert QueuedAs(after, (op.addr, before.created), op);
    assert ops[..k + 1][..k] == ops[..k] && after == AllPerformed(q, ops[..k + 1]);
    hide QueuedAs, Performed;
    FateOf(after, ops[k + 1..], out, (op.addr, before.created), op);
    AllPerformedJoin(q, ops[..k + 1], ops[k + 1..]);
    assert ops[..k + 1] + ops[k + 1..] == ops;
  }
}
