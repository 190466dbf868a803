/** muduo's TimerQueue: one timerfd for many timers, indexed by expiration and by address.
    Timer objects are deleted and their addresses reused, so a TimerId pairs the address
    with the timer's sequence number. */
module TimerQueues {
  import opened Basics

  type Address = nat
  type TimerId = (Address, nat)

  const UINTPTR_MAX := 0xFFFF_FFFF_FFFF_FFFF

  datatype Timer = Timer(sequence: nat, expiration: int, interval: nat, repeat: bool)

  /** std::pair<Timestamp, Timer*>. */
  datatype Entry = Entry(when: int, addr: Address)

  predicate Less(a: Entry, b: Entry) {
    a.when < b.when || (a.when == b.when && a.addr < b.addr)
  }

  /** The order in which a std::set<Entry> is walked. */
  ghost predicate Sorted(ts: seq<Entry>) {
    forall j, k :: 0 <= j < k < |ts| ==> Less(ts[j], ts[k])
  }

  /** lower_bound: how many entries come before e. */
  function LowerBound(ts: seq<Entry>, e: Entry): (k: nat)
    ensures k <= |ts| && (forall j :: 0 <= j < k ==> Less(ts[j], e)) && (k < |ts| ==> !Less(ts[k], e))
  {
    if ts == [] || !Less(ts[0], e) then 0 else 1 + LowerBound(ts[1..], e)
  }

  /** std::set::insert of a new element. */
  function Inserted(ts: seq<Entry>, e: Entry): seq<Entry> {
    var k := LowerBound(ts, e);
    ts[..k] + [e] + ts[k..]
  }

  lemma InsertedSorted(ts: seq<Entry>, e: Entry)
    requires Sorted(ts) && e !in ts
    ensures Sorted(Inserted(ts, e)) && |Inserted(ts, e)| == |ts| + 1
    ensures forall x :: x in Inserted(ts, e) <==> x == e || x in ts
    ensures Inserted(ts, e)[0] == if ts == [] || Less(e, ts[0]) then e else ts[0]
  {
    var k := LowerBound(ts, e);
    assert k < |ts| ==> Less(e, ts[k]);
    InsertedAt(ts, e, k);
  }

  lemma InsertedAt(ts: seq<Entry>, e: Entry, k: nat)
    requires Sorted(ts) && k <= |ts| && (k < |ts| ==> Less(e, ts[k])) && forall j :: 0 <= j < k ==> Less(ts[j], e)
    ensures var us := ts[..k] + [e] + ts[k..];
      Sorted(us) && forall x :: x in us <==> x == e || x in ts
  {
    var us := ts[..k] + [e] + ts[k..];
    assert forall x :: x in ts <==> x in ts[..k] || x in ts[k..];
    forall i, j | 0 <= i < j < |us| ensures Less(us[i], us[j]) {
      assert i < k ==> us[i] == ts[i];
      assert i > k ==> us[i] == ts[i - 1];
      assert j < k ==> us[j] == ts[j];
      assert j > k ==> us[j] == ts[j - 1];
    }
  }

  /** std::set::erase. */
  function Erased(ts: seq<Entry>, e: Entry): seq<Entry> {
    if ts == [] then [] else if ts[0] == e then ts[1..] else [ts[0]] + Erased(ts[1..], e)
  }

  lemma {:induction false} ErasedSorted(ts: seq<Entry>, e: Entry)
    requires Sorted(ts) && e in ts
    ensures Sorted(Erased(ts, e)) && |Erased(ts, e)| == |ts| - 1
    ensures forall x :: x in Erased(ts, e) <==> x != e && x in ts
    ensures ts[0] != e ==> Erased(ts, e) != [] && Erased(ts, e)[0] == ts[0]
  {
    if ts[0] != e {
      ErasedSorted(ts[1..], e);
      assert forall x :: x in ts <==> x == ts[0] || x in ts[1..];
      assert forall x :: x in Erased(ts, e) <==> x == ts[0] || x in Erased(ts[1..], e);
    } else {
      assert forall x :: x in ts <==> x == ts[0] || x in ts[1..];
    }
  }

  // ---- the indexes as values, and what each operation does to them ----

  datatype Queue = Queue(heap: map<Address, Timer>,   // the live Timer objects
                         timers: seq<Entry>,          // timers_, in order
                         active: set<TimerId>,        // activeTimers_
                         canceling: set<TimerId>,     // cancelingTimers_
                         calling: bool,               // callingExpiredTimers_
                         created: nat)                // s_numCreated_

  function Id(q: Queue, a: Address): TimerId
    requires a in q.heap
  {
    (a, q.heap[a].sequence)
  }

  function EntryOf(q: Queue, a: Address): Entry
    requires a in q.heap
  {
    Entry(q.heap[a].expiration, a)
  }

  ghost predicate Queued(q: Queue, a: Address) {
    a in q.heap && EntryOf(q, a) in q.timers
  }

  /** A live timer is either in both indexes or, having expired, in handleRead's hands. */
  ghost predicate TimerOk(q: Queue, out: set<Address>, a: Address) {
    a in q.heap ==>
      && a < UINTPTR_MAX && q.heap[a].sequence < q.created
      && (a in out <==> !Queued(q, a))
      && (Id(q, a) in q.active <==> Queued(q, a))
  }

  ghost predicate EntryOk(q: Queue, e: Entry) {
    e in q.timers ==> e.addr in q.heap && e == EntryOf(q, e.addr)
  }

  ghost predicate IdOk(q: Queue, id: TimerId) {
    id in q.active ==> id.0 in q.heap && id == Id(q, id.0)
  }

  ghost predicate OneSequenceEach(q: Queue, a: Address, b: Address) {
    a in q.heap && b in q.heap && q.heap[a].sequence == q.heap[b].sequence ==> a == b
  }

  /** Both indexes hold exactly the live timers, except those in `out`, which have expired
      and are in nobody's hands but handleRead's. */
  ghost predicate Ok(q: Queue, out: set<Address>) {
    && Sorted(q.timers) && out <= q.heap.Keys
    && (forall a :: TimerOk(q, out, a)) && (forall e :: EntryOk(q, e)) && (forall id :: IdOk(q, id))
    && (forall a, b :: OneSequenceEach(q, a, b))
  }

  /** new Timer(...), at an address that the allocator chooses among the free ones. */
  function Allocated(q: Queue, a: Address, when: int, interval: nat, repeat: bool): Queue {
    q.(heap := q.heap[a := Timer(q.created, when, interval, repeat)], created := q.created + 1)
  }

  lemma AllocatedOk(q: Queue, out: set<Address>, a: Address, when: int, interval: nat, repeat: bool)
    requires Ok(q, out) && a !in q.heap && a < UINTPTR_MAX
    ensures Ok(Allocated(q, a, when, interval, repeat), out + {a})
  {
    var q' := Allocated(q, a, when, interval, repeat);
    assert EntryOk(q, EntryOf(q', a)) && IdOk(q, Id(q', a));
    forall b ensures TimerOk(q', out + {a}, b) {
      assert TimerOk(q, out, b);
    }
    forall e ensures EntryOk(q', e) {
      assert EntryOk(q, e);
    }
    forall id ensures IdOk(q', id) {
      assert IdOk(q, id);
    }
    forall b, c ensures OneSequenceEach(q', b, c) {
      assert OneSequenceEach(q, b, c);
      assert TimerOk(q, out, b) && TimerOk(q, out, c);
    }
  }

  /** insert. */
  function InsertedTimer(q: Queue, a: Address): Queue
    requires a in q.heap
  {
    q.(timers := Inserted(q.timers, EntryOf(q, a)), active := q.active + {Id(q, a)})
  }

  lemma InsertedTimerOk(q: Queue, out: set<Address>, a: Address)
    requires Ok(q, out) && a in out
    ensures EntryOf(q, a) !in q.timers && Id(q, a) !in q.active
    ensures Ok(InsertedTimer(q, a), out - {a})
  {
    var q' := InsertedTimer(q, a);
    assert TimerOk(q, out, a);
    InsertedSorted(q.timers, EntryOf(q, a));
    forall b ensures TimerOk(q', out - {a}, b) {
      assert TimerOk(q, out, b);
    }
    forall e ensures EntryOk(q', e) {
      assert EntryOk(q, e);
    }
    forall id ensures IdOk(q', id) {
      assert IdOk(q, id);
    }
    forall b, c ensures OneSequenceEach(q', b, c) {
      assert OneSequenceEach(q, b, c);
    }
  }

  /** delete of a live timer that is in neither index. */
  function Deleted(q: Queue, a: Address): Queue {
    q.(heap := q.heap - {a})
  }

  lemma DeletedOk(q: Queue, out: set<Address>, a: Address)
    requires Ok(q, out) && a in out
    ensures Ok(Deleted(q, a), out - {a})
  {
    var q' := Deleted(q, a);
    assert TimerOk(q, out, a);
    forall b ensures TimerOk(q', out - {a}, b) {
      assert TimerOk(q, out, b);
    }
    forall e ensures EntryOk(q', e) {
      assert EntryOk(q, e);
    }
    forall id ensures IdOk(q', id) {
      assert IdOk(q, id);
    }
    forall b, c ensures OneSequenceEach(q', b, c) {
      assert OneSequenceEach(q, b, c);
    }
  }

  /** cancelInLoop. */
  function Cancelled(q: Queue, id: TimerId): Queue {
    if id in q.active && id.0 in q.heap then
      q.(timers := Erased(q.timers, EntryOf(q, id.0)), heap := q.heap - {id.0}, active := q.active - {id})
    else if q.calling then q.(canceling := q.canceling + {id})
    else q
  }

  lemma CancelledOk(q: Queue, out: set<Address>, id: TimerId)
    requires Ok(q, out)
    ensures id in q.active ==> id.0 in q.heap && EntryOf(q, id.0) in q.timers
    ensures Ok(Cancelled(q, id), out)
  {
    var q' := Cancelled(q, id);
    if id in q.active {
      assert IdOk(q, id) && TimerOk(q, out, id.0);
      ErasedSorted(q.timers, EntryOf(q, id.0));
    }
    forall b ensures TimerOk(q', out, b) {
      assert TimerOk(q, out, b);
    }
    forall e ensures EntryOk(q', e) {
      assert EntryOk(q, e);
    }
    forall i ensures IdOk(q', i) {
      assert IdOk(q, i);
    }
    forall b, c ensures OneSequenceEach(q', b, c) {
      assert OneSequenceEach(q, b, c);
    }
  }

  /** How many timers have expired: those before the sentry (now, UINTPTR_MAX). */
  function ExpiredCount(q: Queue, now: int): nat {
    LowerBound(q.timers, Entry(now, UINTPTR_MAX))
  }

  function ExpiredEntries(q: Queue, now: int): seq<Entry> {
    q.timers[..ExpiredCount(q, now)]
  }

  function Ids(q: Queue, es: seq<Entry>): set<TimerId> {
    set e <- es | e.addr in q.heap :: Id(q, e.addr)
  }

  function Addresses(es: seq<Entry>): set<Address> {
    set e <- es :: e.addr
  }

  /** getExpired. */
  function WithoutExpired(q: Queue, now: int): Queue {
    q.(timers := q.timers[ExpiredCount(q, now)..], active := q.active - Ids(q, ExpiredEntries(q, now)))
  }

  /** No address appears twice in a walk over timers. */
  lemma DistinctAddresses(q: Queue, es: seq<Entry>)
    requires Sorted(es) && forall e <- es :: e.addr in q.heap && e.when == q.heap[e.addr].expiration
    ensures forall j, k :: 0 <= j < k < |es| ==> es[j].addr != es[k].addr
  {
    forall j, k | 0 <= j < k < |es| ensures es[j].addr != es[k].addr {
      assert Less(es[j], es[k]);
    }
  }

  lemma DueByIndex(ts: seq<Entry>, now: int, i: nat)
    requires Sorted(ts) && i < |ts| && ts[i].addr < UINTPTR_MAX
    requires forall e <- ts :: e.addr < UINTPTR_MAX
    ensures i < LowerBound(ts, Entry(now, UINTPTR_MAX)) <==> ts[i].when <= now
  {
    var k := LowerBound(ts, Entry(now, UINTPTR_MAX));
    if k < i {
      assert Less(ts[k], ts[i]);
    }
  }

  lemma SplitAtNow(ts: seq<Entry>, now: int, k: nat)
    requires Sorted(ts) && (forall e <- ts :: e.addr < UINTPTR_MAX) && k == LowerBound(ts, Entry(now, UINTPTR_MAX))
    ensures forall e :: e in ts[..k] <==> e in ts && e.when <= now
    ensures forall e :: e in ts[k..] <==> e in ts && e.when > now
  {
    forall e | e in ts ensures (e in ts[..k] <==> e.when <= now) && (e in ts[k..] <==> e.when > now) {
      var i: nat :| i < |ts| && ts[i] == e;
      DueByIndex(ts, now, i);
      assert if i < k then ts[..k][i] == e else ts[k..][i - k] == e;
      if e in ts[..k] {
        var j: nat :| j < k && ts[j] == e;
        DueByIndex(ts, now, j);
      }
      if e in ts[k..] {
        var tail := ts[k..];
        var j: nat :| j < |tail| && tail[j] == e;
        DueByIndex(ts, now, k + j);
      }
    }
  }

  /** getExpired takes exactly the timers with expiration <= now out of both indexes. */
  lemma ExpiredAreDue(q: Queue, now: int)
    requires Ok(q, {})
    ensures var es := ExpiredEntries(q, now);
      && (forall e :: e in es <==> e in q.timers && e.when <= now)
      && (forall e :: e in WithoutExpired(q, now).timers <==> e in q.timers && e.when > now)
      && Ok(WithoutExpired(q, now), Addresses(es))
      && (forall e <- es :: e.addr in q.heap && Id(q, e.addr) in q.active)
      && (forall j, k :: 0 <= j < k < |es| ==> es[j].addr != es[k].addr)
  {
    forall e | e in q.timers ensures e.addr in q.heap && e == EntryOf(q, e.addr) && e.addr < UINTPTR_MAX {
      assert EntryOk(q, e) && TimerOk(q, {}, e.addr);
    }
    var es, q' := ExpiredEntries(q, now), WithoutExpired(q, now);
    SplitAtNow(q.timers, now, ExpiredCount(q, now));
    DistinctAddresses(q, es);
    forall e | e in es ensures Id(q, e.addr) in q.active {
      assert TimerOk(q, {}, e.addr);
    }
    LaterIsOk(q, now);
  }

  lemma LaterIsOk(q: Queue, now: int)
    requires Ok(q, {}) && forall e <- q.timers :: e.addr in q.heap && e == EntryOf(q, e.addr)
    requires forall e :: e in ExpiredEntries(q, now) <==> e in q.timers && e.when <= now
    requires forall e :: e in WithoutExpired(q, now).timers <==> e in q.timers && e.when > now
    requires Sorted(WithoutExpired(q, now).timers)
    ensures Ok(WithoutExpired(q, now), Addresses(ExpiredEntries(q, now)))
  {
    var es, q' := ExpiredEntries(q, now), WithoutExpired(q, now);
    forall a ensures TimerOk(q', Addresses(es), a) {
      assert TimerOk(q, {}, a);
      if a in q.heap {
        assert a in Addresses(es) <==> EntryOf(q, a) in es;
        assert Id(q, a) in Ids(q, es) <==> EntryOf(q, a) in es;
      }
    }
    forall e ensures EntryOk(q', e) {
      assert EntryOk(q, e);
    }
    forall id ensures IdOk(q', id) {
      assert IdOk(q, id);
    }
    forall a, b ensures OneSequenceEach(q', a, b) {
      assert OneSequenceEach(q, a, b);
    }
  }

  /** Timer::restart. */
  function Restarted(q: Queue, a: Address, now: int): Queue
    requires a in q.heap
  {
    q.(heap := q.heap[a := q.heap[a].(expiration := now + q.heap[a].interval)])
  }

  lemma RestartedOk(q: Queue, out: set<Address>, a: Address, now: int)
    requires Ok(q, out) && a in out
    ensures Ok(Restarted(q, a, now), out)
  {
    var q' := Restarted(q, a, now);
    assert TimerOk(q, out, a);
    forall b ensures TimerOk(q', out, b) {
      assert TimerOk(q, out, b);
      assert b in q.heap && b != a ==> EntryOf(q', b) == EntryOf(q, b);
      assert EntryOk(q, EntryOf(q', a));
    }
    forall e ensures EntryOk(q', e) {
      assert EntryOk(q, e);
    }
    forall id ensures IdOk(q', id) {
      assert IdOk(q, id);
    }
    forall b, c ensures OneSequenceEach(q', b, c) {
      assert OneSequenceEach(q, b, c);
    }
  }

  /** The two sizes that the source asserts to be equal, again and again. */
  lemma SizesAgree(q: Queue, out: set<Address>)
    requires Ok(q, out)
    ensures |q.timers| == |q.active|
  {
    forall e | e in q.timers ensures e.addr in q.heap && e == EntryOf(q, e.addr) {
      assert EntryOk(q, e);
    }
    DistinctAddresses(q, q.timers);
    IdsOfDistinct(q, q.timers);
    forall id ensures id in q.active <==> id in Ids(q, q.timers) {
      assert IdOk(q, id);
      if id.0 in q.heap {
        assert TimerOk(q, out, id.0);
      }
    }
    assert q.active == Ids(q, q.timers);
  }

  lemma {:induction false} IdsOfDistinct(q: Queue, es: seq<Entry>)
    requires forall e <- es :: e.addr in q.heap
    requires forall j, k :: 0 <= j < k < |es| ==> es[j].addr != es[k].addr
    ensures |Ids(q, es)| == |es|
  {
    if es != [] {
      var n := |es| - 1;
      IdsOfDistinct(q, es[..n]);
      assert es == es[..n] + [es[n]];
      assert Ids(q, es) == Ids(q, es[..n]) + {Id(q, es[n].addr)};
      assert Id(q, es[n].addr) !in Ids(q, es[..n]);
    }
  }

  // ---- the timerfd ----

  /** The timerfd goes off no later than the earliest expiration, or 100 microseconds after
      it was last set. */
  predicate ArmedFor(ts: seq<Entry>, armed: Option<int>, armedAt: int) {
    ts != [] ==> armed.Some? && armed.value <= Max(ts[0].when, armedAt + 100)
  }

  /** The same, if the earliest expiration is one that reset takes for invalid. */
  predicate ArmedIfInvalid(ts: seq<Entry>, armed: Option<int>, armedAt: int) {
    ts != [] && ts[0].when <= 0 ==> ArmedFor(ts, armed, armedAt)
  }

  // ---- the callbacks ----

  /** What a timer callback may do to the queue. */
  datatype Op = Add(addr: Address, when: int, interval: nat, repeat: bool) | Cancel(id: TimerId)

  function CancelIds(ops: seq<Op>): set<TimerId> {
    set op <- ops | op.Cancel? :: op.id
  }

  /** Everything the callbacks of these timers cancel. */
  function CancelledBy(es: seq<Entry>, heap: map<Address, Timer>, run: nat -> seq<Op>): set<TimerId>
    requires forall e <- es :: e.addr in heap
  {
    if es == [] then {}
    else CancelledBy(es[..|es| - 1], heap, run) + CancelIds(run(heap[es[|es| - 1].addr].sequence))
  }

  // ---- handleRead, step by step, on the indexes as values ----

  function Performed(q: Queue, op: Op): Queue {
    match op
    case Add(a, when, interval, repeat) =>
      // the allocator only returns addresses that are free
      if a in q.heap || a >= UINTPTR_MAX then q else InsertedTimer(Allocated(q, a, when, interval, repeat), a)
    case Cancel(id) => Cancelled(q, id)
  }

  function AllPerformed(q: Queue, ops: seq<Op>): Queue {
    if ops == [] then q else Performed(AllPerformed(q, ops[..|ops| - 1]), ops[|ops| - 1])
  }

  /** The callbacks of all expired timers, in order of expiration. */
  function CallbacksRun(q: Queue, es: seq<Entry>, run: nat -> seq<Op>): Queue {
    if es == [] then q
    else
      var q', a := CallbacksRun(q, es[..|es| - 1], run), es[|es| - 1].addr;
      if a in q'.heap then AllPerformed(q', run(q'.heap[a].sequence)) else q'
  }

  function ResetTimer(q: Queue, a: Address, now: int): Queue {
    if a !in q.heap then q
    else if q.heap[a].repeat && Id(q, a) !in q.canceling then InsertedTimer(Restarted(q, a, now), a)
    else Deleted(q, a)
  }

  function AllReset(q: Queue, es: seq<Entry>, now: int): Queue {
    if es == [] then q else ResetTimer(AllReset(q, es[..|es| - 1], now), es[|es| - 1].addr, now)
  }

  function Handled(q: Queue, now: int, run: nat -> seq<Op>): Queue {
    var es := ExpiredEntries(q, now);
    AllReset(CallbacksRun(WithoutExpired(q, now).(calling := true, canceling := {}), es, run).(calling := false), es, now)
  }

  /** During handleRead's callbacks, after they have cancelled `cancelled`: the expired timers
      `es` are untouched, those of them that were cancelled are remembered, and the other
      timers of the queue q0 that handleRead found are still there unless cancelled. */
  ghost predicate Callbacks(q: Queue, q0: Queue, es: seq<Entry>, cancelled: set<TimerId>) {
    && Ok(q, Addresses(es)) && q0.created <= q.created
    && (forall e <- es :: e.addr in q0.heap && e.addr in q.heap && q.heap[e.addr] == q0.heap[e.addr])
    && q.canceling <= cancelled
    && (forall e <- es :: Id(q0, e.addr) in cancelled ==> Id(q0, e.addr) in q.canceling)
    && (forall id <- q0.active :: id.1 < q0.created)
    && (forall id <- q0.active - Ids(q0, es) :: id in q.active <==> id !in cancelled)
  }

  lemma NextIsLater(q: Queue, now: int)
    requires Ok(q, {})
    ensures var end := ExpiredCount(q, now); end == |q.timers| || now < q.timers[end].when
  {
    ExpiredAreDue(q, now);
    var end := ExpiredCount(q, now);
    assert end < |q.timers| ==> q.timers[end] == WithoutExpired(q, now).timers[0];
  }

  lemma CallbacksEnd(q: Queue, q0: Queue, es: seq<Entry>, cancelled: set<TimerId>)
    requires Callbacks(q, q0, es, cancelled)
    ensures Callbacks(q.(calling := false), q0, es, cancelled)
  {
    OkIgnoresFlags(q, q.(calling := false), Addresses(es));
  }

  /** The expired timers are those due, all different. */
  ghost predicate ExpiredDistinct(q: Queue, now: int) {
    var es := ExpiredEntries(q, now);
    && (forall e :: e in es <==> e in q.timers && e.when <= now)
    && (forall e <- es :: e.addr in q.heap)
    && (forall j, k :: 0 <= j < k < |es| ==> es[j].addr != es[k].addr)
  }

  lemma ExpiredAreDistinct(q: Queue, now: int)
    requires Ok(q, {})
    ensures ExpiredDistinct(q, now)
    ensures var ts := WithoutExpired(q, now).timers; ts != [] ==> ts[0].when > now
  {
    ExpiredAreDue(q, now);
    var ts := WithoutExpired(q, now).timers;
    assert ts != [] ==> ts[0] in ts;
  }

  lemma CallbacksBegin(q0: Queue, now: int, q: Queue)
    requires Ok(q0, {}) && q == WithoutExpired(q0, now).(calling := true, canceling := {})
    ensures Callbacks(q, q0, ExpiredEntries(q0, now), {})
  {
    ExpiredAreDue(q0, now);
    OkIgnoresFlags(WithoutExpired(q0, now), q, Addresses(ExpiredEntries(q0, now)));
    forall id | id in q0.active ensures id.1 < q0.created {
      assert IdOk(q0, id) && TimerOk(q0, {}, id.0);
    }
  }

  lemma OkIgnoresFlags(q: Queue, q': Queue, out: set<Address>)
    requires Ok(q, out) && q' == q.(calling := q'.calling, canceling := q'.canceling)
    ensures Ok(q', out)
  {
    forall a ensures TimerOk(q', out, a) {
      assert TimerOk(q, out, a);
    }
    forall e ensures EntryOk(q', e) {
      assert EntryOk(q, e);
    }
    forall id ensures IdOk(q', id) {
      assert IdOk(q, id);
    }
    forall a, b ensures OneSequenceEach(q', a, b) {
      assert OneSequenceEach(q, a, b);
    }
  }

  lemma CallbackAdds(q: Queue, q0: Queue, es: seq<Entry>, cancelled: set<TimerId>, a: Address, q': Queue,
                     when: int, interval: nat, repeat: bool)
    requires Callbacks(q, q0, es, cancelled) && a !in q.heap
    requires q' == InsertedTimer(Allocated(q, a, when, interval, repeat), a) && Ok(q', Addresses(es))
    ensures Callbacks(q', q0, es, cancelled)
  {
  }

  lemma CallbackCancels(q: Queue, q0: Queue, es: seq<Entry>, cancelled: set<TimerId>, id: TimerId, q': Queue)
    requires Callbacks(q, q0, es, cancelled) && q.calling
    requires q' == Cancelled(q, id) && Ok(q', Addresses(es))
    ensures Callbacks(q', q0, es, cancelled + {id})
  {
    forall e | e in es ensures Id(q0, e.addr) !in q.active {
      assert TimerOk(q, Addresses(es), e.addr);
    }
    assert IdOk(q, id);
    if id in q.active {
      assert TimerOk(q, Addresses(es), id.0);
    }
  }

  /** What becomes of an expired timer: it is back in the queue, restarted from now, if it
      repeats and was not cancelled during the callbacks; otherwise it is deleted. */
  ghost predicate Resolved(q: Queue, q0: Queue, e: Entry, now: int, cancelled: set<TimerId>) {
    e.addr in q0.heap &&
    if q0.heap[e.addr].repeat && Id(q0, e.addr) !in cancelled
    then Id(q0, e.addr) in q.active && e.addr in q.heap
         && q.heap[e.addr] == q0.heap[e.addr].(expiration := now + q0.heap[e.addr].interval)
    else Id(q0, e.addr) !in q.active && !Live(q, Id(q0, e.addr))
  }

  ghost predicate Live(q: Queue, id: TimerId) {
    id.0 in q.heap && Id(q, id.0) == id
  }

  /** reset has dealt with the first i of the expired timers. */
  ghost predicate Resetting(q: Queue, q0: Queue, es: seq<Entry>, i: nat, now: int, cancelled: set<TimerId>) {
    && i <= |es| && Ok(q, Addresses(es[i..])) && q.canceling <= cancelled
    && (forall e <- es :: e.addr in q0.heap && (Id(q0, e.addr) in cancelled ==> Id(q0, e.addr) in q.canceling))
    && (forall k :: i <= k < |es| ==> es[k].addr in q.heap && q.heap[es[k].addr] == q0.heap[es[k].addr])
    && (forall k :: 0 <= k < i ==> Resolved(q, q0, es[k], now, cancelled))
    && (forall id <- q0.active - Ids(q0, es) :: id in q.active <==> id !in cancelled)
  }

  lemma ResetResolves(q: Queue, q0: Queue, es: seq<Entry>, i: nat, now: int, cancelled: set<TimerId>)
    requires Resetting(q, q0, es, i, now, cancelled) && i < |es|
    requires forall j, k :: 0 <= j < k < |es| ==> es[j].addr != es[k].addr
    requires Ok(ResetTimer(q, es[i].addr, now), Addresses(es[i..]) - {es[i].addr})
    requires Id(q, es[i].addr) !in q.active
    ensures Resetting(ResetTimer(q, es[i].addr, now), q0, es, i + 1, now, cancelled)
  {
    hide TimerOk, EntryOk, IdOk, OneSequenceEach, Sorted, LowerBound, Erased;
    var a, q' := es[i].addr, ResetTimer(q, es[i].addr, now);
    assert es[i..] == [es[i]] + es[i + 1..];
    assert Addresses(es[i + 1..]) == Addresses(es[i..]) - {a};
    forall k | 0 <= k < i ensures Resolved(q', q0, es[k], now, cancelled) {
      assert Resolved(q, q0, es[k], now, cancelled) && es[k].addr != a;
    }
    assert Resolved(q', q0, es[i], now, cancelled);
  }

  // ---- what adding and cancelling mean for what the queue holds ----

  lemma AddedMeans(q: Queue, out: set<Address>, a: Address, when: int, interval: nat, repeat: bool)
    requires Ok(q, out) && a !in q.heap && a < UINTPTR_MAX
    ensures var q' := InsertedTimer(Allocated(q, a, when, interval, repeat), a);
      && Ok(q', out)
      && q'.heap == q.heap[a := Timer(q.created, when, interval, repeat)] && q'.created == q.created + 1
      && q'.active == q.active + {(a, q.created)} && (a, q.created) !in q.active
      && (forall e :: e in q'.timers <==> e == Entry(when, a) || e in q.timers)
      && q'.canceling == q.canceling && q'.calling == q.calling
  {
    var q1 := Allocated(q, a, when, interval, repeat);
    AllocatedOk(q, out, a, when, interval, repeat);
    InsertedTimerOk(q1, out + {a}, a);
    assert EntryOk(q, Entry(when, a)) && TimerOk(q, out, a) && IdOk(q, (a, q.created));
    assert out + {a} - {a} == out;
    InsertedSorted(q1.timers, EntryOf(q1, a));
  }

  lemma CancelledMeans(q: Queue, out: set<Address>, id: TimerId)
    requires Ok(q, out)
    ensures var q' := Cancelled(q, id);
      && Ok(q', out) && q'.created == q.created && q'.calling == q.calling
      && (id in q.active ==> q'.heap == q.heap - {id.0} && q'.active == q.active - {id} && q'.canceling == q.canceling
                             && forall e :: e in q'.timers <==> e in q.timers && e.addr != id.0)
      && (id !in q.active ==> q' == q.(canceling := if q.calling then q.canceling + {id} else q.canceling))
  {
    CancelledOk(q, out, id);
    if id in q.active {
      assert IdOk(q, id);
      ErasedSorted(q.timers, EntryOf(q, id.0));
      forall e | e in q.timers ensures e.addr == id.0 <==> e == EntryOf(q, id.0) {
        assert EntryOk(q, e);
      }
    }
  }

  class TimerQueue {
    var heap: map<Address, Timer>
    var timers: seq<Entry>
    var active: set<TimerId>
    var canceling: set<TimerId>
    var calling: bool
    var created: nat
    var armed: Option<int>     // when the timerfd goes off, until that is read
    ghost var armedAt: int     // when it was set
    var clock: int             // Timestamp::now() at the last call

    function Q(): Queue
      reads this
    {
      Queue(heap, timers, active, canceling, calling, created)
    }

    /** Between two events of the loop. */
    ghost predicate Valid()
      reads this
    {
      Ok(Q(), {}) && !calling && ArmedFor(timers, armed, armedAt) && armedAt <= clock && clock > 0
    }

    constructor ()
      ensures Valid() && timers == [] && heap == map[]
    {
      heap, timers, active, canceling, calling, created := map[], [], {}, {}, false, 0;
      armed, armedAt, clock := None, 0, 1;
    }

    /** Timestamp::now(): any time that is not earlier than the last. */
    method Now() returns (now: int)
      modifies this`clock
      ensures now == clock && clock >= old(clock)
    {
      var passed: int := *;
      if passed > 0 {
        clock := clock + passed;
      }
      now := clock;
    }

    /** resetTimerfd; howMuchTimeFromNow has a floor of 100 microseconds. */
    method ResetTimerfd(expiration: int)
      modifies this`armed, this`armedAt, this`clock
      ensures armed == Some(Max(expiration, clock + 100)) && armedAt == clock >= old(clock)
    {
      var now := Now();
      var microseconds := expiration - now;
      if microseconds < 100 {
        microseconds := 100;
      }
      armed := Some(now + microseconds);
      armedAt := now;
    }

    /** insert, for a timer in neither index: both std::set::insert calls succeed. */
    method Insert(a: Address, ghost out: set<Address>) returns (earliestChanged: bool)
      requires Ok(Q(), out) && a in out
      modifies this`timers, this`active
      ensures Q() == InsertedTimer(old(Q()), a) && Ok(Q(), out - {a})
      ensures earliestChanged == (old(timers) == [] || heap[a].expiration < old(timers)[0].when)
      ensures timers[0].when == if earliestChanged then heap[a].expiration else old(timers)[0].when
    {
      SizesAgree(Q(), out);
      InsertedTimerOk(Q(), out, a);
      InsertedSorted(timers, EntryOf(Q(), a));
      assert |timers| == |active|;
      earliestChanged := false;
      var when := heap[a].expiration;
      if timers == [] || when < timers[0].when {
        earliestChanged := true;
      }
      assert Entry(when, a) !in timers;
      timers := Inserted(timers, Entry(when, a));
      assert (a, heap[a].sequence) !in active;
      active := active + {(a, heap[a].sequence)};
      SizesAgree(Q(), out - {a});
      assert |timers| == |active|;
    }

    /** addTimer on the loop thread: new Timer at a free address, then addTimerInLoop. */
    method AddTimer(a: Address, when: int, interval: nat, repeat: bool, ghost out: set<Address>)
      returns (id: TimerId)
      requires Ok(Q(), out) && a !in heap && a < UINTPTR_MAX && armedAt <= clock
      requires ArmedIfInvalid(timers, armed, armedAt)
      modifies this`heap, this`timers, this`active, this`created, this`armed, this`armedAt, this`clock
      ensures Q() == InsertedTimer(Allocated(old(Q()), a, when, interval, repeat), a) && Ok(Q(), out)
      ensures id == (a, old(created)) && id !in old(active) && created == old(created) + 1
      ensures heap == old(heap)[a := Timer(old(created), when, interval, repeat)] && active == old(active) + {id}
      ensures forall e :: e in timers <==> e == Entry(when, a) || e in old(timers)
      ensures ArmedIfInvalid(timers, armed, armedAt) && armedAt <= clock && old(clock) <= clock
      ensures old(ArmedFor(timers, armed, armedAt)) ==> ArmedFor(timers, armed, armedAt)
      ensures old(Valid()) && out == {} ==> Valid()
    {
      hide TimerOk, EntryOk, IdOk, OneSequenceEach, Sorted, Inserted;
      AddedMeans(Q(), out, a, when, interval, repeat);
      AllocatedOk(Q(), out, a, when, interval, repeat);
      id := (a, created);
      heap := heap[a := Timer(created, when, interval, repeat)];
      created := created + 1;
      var earliestChanged := Insert(a, out + {a});
      assert out + {a} - {a} == out;
      if earliestChanged {
        ResetTimerfd(heap[a].expiration);
      }
    }

    /** cancelInLoop: erase from both indexes, or remember it for reset. */
    method CancelInLoop(id: TimerId, ghost out: set<Address>)
      requires Ok(Q(), out) && ArmedIfInvalid(timers, armed, armedAt)
      modifies this`heap, this`timers, this`active, this`canceling
      ensures Q() == Cancelled(old(Q()), id) && Ok(Q(), out)
      ensures id in old(active) ==> heap == old(heap) - {id.0} && active == old(active) - {id} && canceling == old(canceling)
      ensures id in old(active) ==> forall e :: e in timers <==> e in old(timers) && e.addr != id.0
      ensures id !in old(active) ==> heap == old(heap) && active == old(active) && timers == old(timers)
                                     && canceling == old(canceling) + if calling then {id} else {}
      ensures ArmedIfInvalid(timers, armed, armedAt)
      ensures old(ArmedFor(timers, armed, armedAt)) ==> ArmedFor(timers, armed, armedAt)
      ensures old(Valid()) && out == {} ==> Valid()
    {
      SizesAgree(Q(), out);
      CancelledMeans(Q(), out, id);
      CancelledOk(Q(), out, id);
      assert |timers| == |active|;
      if id in active {
        ghost var was := timers;
        assert IdOk(Q(), id);
        assert Entry(heap[id.0].expiration, id.0) in timers;
        ErasedSorted(timers, EntryOf(Q(), id.0));
        timers := Erased(timers, Entry(heap[id.0].expiration, id.0));
        assert id.0 in heap;
        heap := heap - {id.0};
        active := active - {id};
        assert timers != [] ==> timers[0] in was && was[0].when <= timers[0].when;
      } else if calling {
        canceling := canceling + {id};
      }
      SizesAgree(Q(), out);
      assert |timers| == |active|;
    }

    /** getExpired. */
    method GetExpired(now: int) returns (expired: seq<Entry>)
      requires Ok(Q(), {})
      modifies this`timers, this`active
      ensures expired == ExpiredEntries(old(Q()), now) && Q() == WithoutExpired(old(Q()), now)
    {
      hide TimerOk, EntryOk, IdOk, OneSequenceEach;
      SizesAgree(Q(), {});
      assert |timers| == |active|;
      ExpiredAreDue(Q(), now);
      var end := LowerBound(timers, Entry(now, UINTPTR_MAX));
      NextIsLater(Q(), now);
      assert end == |timers| || now < timers[end].when;
      expired := timers[..end];
      timers := timers[end..];
      EraseActive(expired);
      assert Q() == WithoutExpired(old(Q()), now);
      SizesAgree(Q(), Addresses(expired));
      assert |timers| == |active|;
    }

    /** getExpired's loop: every erase finds its timer. */
    method EraseActive(expired: seq<Entry>)
      requires forall e <- expired :: e.addr in heap && Id(Q(), e.addr) in active
      requires forall j, k :: 0 <= j < k < |expired| ==> expired[j].addr != expired[k].addr
      modifies this`active
      ensures active == old(active) - old(Ids(Q(), expired))
    {
      ghost var q := Q();
      for i := 0 to |expired|
        invariant active == q.active - Ids(q, expired[..i])
      {
        var timer := (expired[i].addr, heap[expired[i].addr].sequence);
        assert expired[..i + 1] == expired[..i] + [expired[i]];
        assert timer == Id(q, expired[i].addr) && timer in active;
        active := active - {timer};
      }
      assert expired[..|expired|] == expired;
    }

    /** What one callback does. */
    method PerformAll(ops: seq<Op>, ghost q0: Queue, ghost es: seq<Entry>, ghost cancelled: set<TimerId>)
      requires Callbacks(Q(), q0, es, cancelled) && calling
      requires ArmedIfInvalid(timers, armed, armedAt) && armedAt <= clock
      modifies this
      ensures Q() == AllPerformed(old(Q()), ops)
      ensures Callbacks(Q(), q0, es, cancelled + CancelIds(ops)) && calling
      ensures ArmedIfInvalid(timers, armed, armedAt) && armedAt <= clock && old(clock) <= clock
    {
      hide TimerOk, EntryOk, IdOk, OneSequenceEach, Sorted;
      assert CancelIds(ops[..0]) == {};
      assert cancelled + {} == cancelled;
      for i := 0 to |ops|
        invariant Q() == AllPerformed(old(Q()), ops[..i])
        invariant Callbacks(Q(), q0, es, cancelled + CancelIds(ops[..i])) && calling
        invariant ArmedIfInvalid(timers, armed, armedAt) && armedAt <= clock && old(clock) <= clock
      {
        ghost var q, sofar := Q(), cancelled + CancelIds(ops[..i]);
        assert ops[..i + 1] == ops[..i] + [ops[i]] && ops[..i + 1][..i] == ops[..i];
        match ops[i] {
          case Add(a, when, interval, repeat) =>
            // the allocator only returns addresses that are free
            if a !in heap && a < UINTPTR_MAX {
              var _ := AddTimer(a, when, interval, repeat, Addresses(es));
              CallbackAdds(q, q0, es, sofar, a, Q(), when, interval, repeat);
            }
            assert cancelled + CancelIds(ops[..i + 1]) == sofar;
          case Cancel(id) =>
            CancelInLoop(id, Addresses(es));
            CallbackCancels(q, q0, es, sofar, id, Q());
            assert cancelled + CancelIds(ops[..i + 1]) == sofar + {id};
        }
      }
      assert ops[..|ops|] == ops;
    }

    /** One round of reset's loop: restart and insert, or delete. */
    method ResetOne(a: Address, now: int, ghost out: set<Address>)
      requires Ok(Q(), out) && a in out && ArmedIfInvalid(timers, armed, armedAt) && now > 0
      modifies this`heap, this`timers, this`active
      ensures Ok(Q(), out - {a}) && ArmedIfInvalid(timers, armed, armedAt)
      ensures Q() == ResetTimer(old(Q()), a, now)
      ensures old(Id(Q(), a)) !in old(active)
    {
      ghost var q := Q();
      assert TimerOk(q, out, a);
      var timer := (a, heap[a].sequence);
      if heap[a].repeat && timer !in canceling {
        RestartedOk(q, out, a, now);
        heap := heap[a := heap[a].(expiration := now + heap[a].interval)];
        var _ := Insert(a, out);
      } else {
        DeletedOk(q, out, a);
        assert a in heap;   // so nothing is deleted twice
        heap := heap - {a};
      }
    }

    /** reset: repeating timers that nobody cancelled go back in, the others are deleted. */
    method Reset(expired: seq<Entry>, now: int, ghost q0: Queue, ghost cancelled: set<TimerId>)
      requires Callbacks(Q(), q0, expired, cancelled) && !calling
      requires forall j, k :: 0 <= j < k < |expired| ==> expired[j].addr != expired[k].addr
      requires ArmedIfInvalid(timers, armed, armedAt) && armedAt <= clock && 0 < now <= clock
      modifies this
      ensures Valid() && old(clock) <= clock && Q() == AllReset(old(Q()), expired, now)
      ensures forall e <- expired :: Resolved(Q(), q0, e, now, cancelled)
      ensures forall id <- q0.active - Ids(q0, expired) :: id in active <==> id !in cancelled
    {
      hide TimerOk, IdOk, OneSequenceEach, Sorted, Resolved, ResetTimer;
      assert expired[0..] == expired;
      for i := 0 to |expired|
        invariant Q() == AllReset(old(Q()), expired[..i], now)
        invariant Resetting(Q(), q0, expired, i, now, cancelled) && !calling
        invariant ArmedIfInvalid(timers, armed, armedAt) && armedAt <= clock && clock == old(clock)
      {
        ghost var q := Q();
        assert expired[..i + 1][..i] == expired[..i];
        assert expired[i..][0] == expired[i];
        ResetOne(expired[i].addr, now, Addresses(expired[i..]));
        ResetResolves(q, q0, expired, i, now, cancelled);
      }
      assert Addresses(expired[|expired|..]) == {} && expired[..|expired|] == expired;
      var nextExpire := 0;
      if timers != [] {
        assert EntryOk(Q(), timers[0]);
        nextExpire := heap[timers[0].addr].expiration;
      }
      if nextExpire > 0 {
        ResetTimerfd(nextExpire);
      }
    }

    /** handleRead, when the timer with sequence number n runs the operations run(n). */
    method HandleRead(run: nat -> seq<Op>) returns (now: int)
      requires Valid()
      modifies this
      ensures Valid() && old(clock) <= now <= clock && Q() == Handled(old(Q()), now, run)
      ensures var q0 := old(Q()); var es := ExpiredEntries(q0, now);
        && (forall e :: e in es <==> e in q0.timers && e.when <= now)
        && (forall e <- es :: e.addr in q0.heap)
        && (forall e <- es :: Resolved(Q(), q0, e, now, CancelledBy(es, q0.heap, run)))
        && (forall id <- q0.active - Ids(q0, es) :: id in active <==> id !in CancelledBy(es, q0.heap, run))
    {
      hide TimerOk, EntryOk, IdOk, OneSequenceEach, Callbacks, Resolved, CancelledBy, AllReset, CallbacksRun, Ok, Sorted;
      ghost var q0 := Q();
      var expired;
      now, expired := BeginRead();
      CallExpired(expired, run, q0);
      CallbacksEnd(Q(), q0, expired, CancelledBy(expired, q0.heap, run));
      calling := false;
      Reset(expired, now, q0, CancelledBy(expired, q0.heap, run));
    }

    /** handleRead up to its callbacks. */
    method BeginRead() returns (now: int, expired: seq<Entry>)
      requires Valid()
      modifies this
      ensures calling && 0 < old(clock) <= now <= clock
      ensures expired == ExpiredEntries(old(Q()), now) && ExpiredDistinct(old(Q()), now)
      ensures Q() == WithoutExpired(old(Q()), now).(calling := true, canceling := {})
      ensures Callbacks(Q(), old(Q()), expired, {})
      ensures ArmedIfInvalid(timers, armed, armedAt) && armedAt <= clock
    {
      hide TimerOk, EntryOk, IdOk, OneSequenceEach, Callbacks, ExpiredDistinct;
      ghost var q0 := Q();
      now := Now();
      if armed.Some? && armed.value <= now {
        armed := None;   // readTimerfd
      }
      ExpiredAreDistinct(q0, now);
      expired := GetExpired(now);
      assert timers != [] ==> timers[0].when > now;
      calling := true;
      canceling := {};
      CallbacksBegin(q0, now, Q());
    }

    /** handleRead's loop over the expired timers. */
    method CallExpired(expired: seq<Entry>, run: nat -> seq<Op>, ghost q0: Queue)
      requires Callbacks(Q(), q0, expired, {}) && calling
      requires ArmedIfInvalid(timers, armed, armedAt) && armedAt <= clock
      modifies this
      ensures Q() == CallbacksRun(old(Q()), expired, run)
      ensures Callbacks(Q(), q0, expired, CancelledBy(expired, q0.heap, run)) && calling
      ensures ArmedIfInvalid(timers, armed, armedAt) && armedAt <= clock && old(clock) <= clock
    {
      assert expired[..0] == [];
      for i := 0 to |expired|
        invariant Q() == CallbacksRun(old(Q()), expired[..i], run)
        invariant Callbacks(Q(), q0, expired, CancelledBy(expired[..i], q0.heap, run)) && calling
        invariant ArmedIfInvalid(timers, armed, armedAt) && armedAt <= clock && old(clock) <= clock
      {
        assert expired[..i + 1][..i] == expired[..i];
        PerformAll(run(heap[expired[i].addr].sequence), q0, expired, CancelledBy(expired[..i], q0.heap, run));
      }
      assert expired[..|expired|] == expired;
    }
  }
}
