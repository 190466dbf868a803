# Verified models of the network kernels in these notes

The notes read and copy several pieces of real protocol code: redigo's connection pool and RESP codec, hystrix-go's
command execution, muduo's reactor, PyMySQL's packet layer, redis-py's buffered reader, a lock-free rate limiter and a
randomised quicksort. This project models them in Dafny and proves what they are for. `dafny verify dfyconfig.toml`
checks everything.

Concurrent code is a state machine: a `State`, an `Action` for each step of each thread or of its environment, a
function `Step`, and lemmas over every run. Code that updates objects is a class whose methods are proved against
functions on values. Where there are both, they meet: `Pools.Pool` runs the sections that `PoolProtocol` interleaves,
and `EventLoops.EventLoop` and `Hystrix.ExecutorPool` carry the protocol's state along, so that their methods are shown
to take steps of the state machine, from one reachable state to another.

| file | models |
|---|---|
| `IdleLists.dfy`, `Pools.dfy` | redigo's linked idle list and the critical sections of `Pool` on it |
| `PoolSpec.dfy`, `PoolProtocol.dfy`, `PoolDecisions.dfy` | the same sections on values, interleaved between any number of goroutines; what each decides |
| `Decimals.dfy`, `Resp.dfy`, `RespGrammar.dfy` | decimal text in 64-bit registers; RESP2 printing and parsing of whole streams; the accepted language, said without the parser |
| `RedisConn.dfy` | redigo's `conn`: writer, reader, and the `pending` count that matches replies to commands |
| `Hystrix.dfy` | `GoC`, with its two goroutines for each command, and `executorPool` |
| `EventLoops.dfy`, `PollPollers.dfy`, `TimerQueues.dfy`, `TimerFates.dfy` | muduo's functor queue, poller and timers |
| `MysqlPackets.dfy` | PyMySQL's packet layer |
| `SocketBuffers.dfy`, `CommandPackers.dfy` | redis-py's `SocketBuffer`, `PythonParser` and command packing |
| `RateLimiter.dfy` | the limiter's compare-and-swap loop and its clock |
| `QuickSort.dfy` | the two partitions and the recursive sort, in place on an array |
| `Sums.dfy`, `Basics.dfy` | sums over sequences, for conservation arguments; what modules share |

## Where the code does not do what it seems to promise

Each of these is a theorem, with the exact condition under which the promise does hold where there is one.

- hystrix: `Max` does not cap the functions that run at once. A timeout returns the ticket of a function that goes on
  running, so any number can pile up (`RunningIsUnbounded`); the bound is `Max` plus the abandoned ones
  (`RunningBound`), and `Max` is a true cap only at 0 (`MaxCapsRunningOnlyAtZero`).
- rate limiter: the new state starts from zero, so unused slack is never carried over, whatever `maxSlack` is
  (`GrantIsMax`); and a one-second window can exceed the rate exactly when the rate does not divide 10^9, which
  includes every rate above 10^9 (`RateIsKeptIff`).
- PollPoller: removeChannel's assert on the entry fails exactly for a channel that was registered without interest and
  never updated since (`RemovalAssertIff`, `RegisteredWithoutInterest`). And a channel that asks for events is polled
  exactly when none of its updates since registration asked for none: updateChannel never restores an encoded fd
  (`PolledIff`, `QuietedForGood`, `UpdateAll`).
- EventLoop: pushes that the loop's own thread makes before `loop()` are not followed by a wakeup. A poll that finds work
  queued is sure to end exactly when it is not the first one or another thread has queued something (`PollEndsIff`,
  `PreLoopPushesAreNotWoken`).
- redigo: a simple or error text that holds a line feed does not survive, and a length or integer outside 64 bits
  wraps silently: a bulk header reads as a null reply exactly when its length modulo 2^64 is at least 2^63, and as a
  shorter string otherwise (`RoundTrip`, `LengthRoundTrip`, `IntegerRoundTrip`, `WrappedLengthReadsAsNil`).
- redis-py: `read` with a length below -2, which a bulk header can ask for, returns whatever happens to be buffered, so
  that a bulk response is the same for all deliveries exactly when its length is at least -2 or nothing follows the
  header (`ReadIgnoresChunksIff`, `BulkSettledIff`, `NegativeLengthsDependOnChunks`). An error reply calls `parse_error`, which is not defined,
  so only replies without errors can be read (`ResponseRoundTrip`).
- The notes' copy of `TimerQueue::insert` has the declaration of `earliestChanged` inside a comment; the model takes it
  to be declared and false.

## Model

| member | source | states |
|---|---|---|
| IdleLists.IdleList.PushFront | docs/源码阅读_sourcecode/go/redigo_read/main.go:859-870 | on a valid list the new node becomes the first of the sequence; both link directions, both ends and the count stay exact |
| IdleLists.IdleList.PopFront | docs/源码阅读_sourcecode/go/redigo_read/main.go:872-882 | the sequence loses exactly its first element and the popped node keeps no links |
| IdleLists.IdleList.PopBack | docs/源码阅读_sourcecode/go/redigo_read/main.go:884-894 | the sequence loses exactly its last element and the popped node keeps no links |
| Pools.Pool.LazyInit | docs/源码阅读_sourcecode/go/redigo_read/main.go:1161-1180 | the token channel is made once: full and open, or empty and closed when the pool is closed |
| Pools.Pool.EnterGet | docs/源码阅读_sourcecode/go/redigo_read/main.go:1102-1147 | get's first critical section on the linked list does to the protected values, and hands on, what the section's value-level specification says; GetDecides says what that is |
| Pools.Pool.AfterStale | docs/源码阅读_sourcecode/go/redigo_read/main.go:1107-1118 | the same for the section that follows the close of a pruned connection: the next round of the prune loop (GetDecides, UndisturbedGet) |
| Pools.Pool.AfterRejected | docs/源码阅读_sourcecode/go/redigo_read/main.go:1119-1147 | the same for the section that follows a failed borrow test |
| Pools.Pool.GiveUpSlot | docs/源码阅读_sourcecode/go/redigo_read/main.go:1149-1155 | the same for the section after a failed Dial and for put's last one; the send needs room in an open channel, which the protocol proves |
| Pools.Pool.Put | docs/源码阅读_sourcecode/go/redigo_read/main.go:1184-1209 | put's first section on the linked list; PutDecides says what it decides: kept at the front with the new return time, or the oldest idle connection is handed out for closing, and the token goes back only when nothing has to be closed |
| Pools.Pool.CloseSection | docs/源码阅读_sourcecode/go/redigo_read/main.go:1214-1228 | Close detaches the whole list, takes its length off `active` and closes the channel, once; the detached nodes stay chained in order |
| Pools.Pool.CloseDetached | docs/源码阅读_sourcecode/go/redigo_read/main.go:1229-1231 | the walk over the detached chain closes each of its connections once, in order |
| PoolSpec.PruneIsFilter | docs/源码阅读_sourcecode/go/redigo_read/main.go:1104-1118 | on a list sorted by return time, popping stale entries from the back alone removes exactly what a filter over the whole list would |
| PoolProtocol.StepKeepsInv | docs/源码阅读_sourcecode/go/redigo_read/main.go:1083-1233 | every step of every session, whatever the others do while the mutex is dropped, keeps the whole invariant: active count, one place per connection, tokens, limit, idle list, waiters |
| PoolProtocol.RunKeepsInv | docs/源码阅读_sourcecode/go/redigo_read/main.go:1083-1233 | so does every run |
| PoolProtocol.GetSectionCounts | docs/源码阅读_sourcecode/go/redigo_read/main.go:1102-1147 | a section of get that reaches `p.active++` stays within MaxActive in Wait mode too, because the idle list is empty there and every unit of active belongs to a token holder |
| PoolProtocol.MaxActiveIsACap | docs/源码阅读_sourcecode/go/redigo_read/main.go:1083-1211 | in every reachable state active is the idle connections plus the sessions between taking and giving up a slot, and with MaxActive > 0 it never exceeds MaxActive, in either mode |
| PoolProtocol.TokensNeverLost | docs/源码阅读_sourcecode/go/redigo_read/main.go:1089-1100 | until Close free tokens plus token holders equal MaxActive; every send made under the mutex finds room in an open channel; a blocked get waits for tokens that sessions hold |
| PoolProtocol.NoChannelWithoutLimit | docs/源码阅读_sourcecode/go/redigo_read/main.go:1089-1091 | without Wait and MaxActive there is never a channel to send on |
| PoolProtocol.IdleListBounded | docs/源码阅读_sourcecode/go/redigo_read/main.go:1184-1196 | in every reachable state the idle list is within MaxIdle and ordered, so pruning at any clock reading is a filter |
| PoolProtocol.ConnectionsAreExclusive | docs/源码阅读_sourcecode/go/redigo_read/main.go:1119-1131 | a connection is never with two sessions, never idle while borrowed, and never used after its close |
| PoolProtocol.ClosedAtMostOnce | docs/源码阅读_sourcecode/go/redigo_read/main.go:1083-1233 | in every run each dialled connection is closed at most once, and no other ever |
| PoolProtocol.ClosedAndQuiet | docs/源码阅读_sourcecode/go/redigo_read/main.go:1214-1233 | when the pool is closed and all sessions have returned, active is exactly 0 and every connection ever dialled has been closed exactly once |
| PoolProtocol.ClosedSection | docs/源码阅读_sourcecode/go/redigo_read/main.go:1132-1147 | a critical section after Close never starts a dial, hands out or prunes a pooled connection, and the idle list stays empty |
| PoolProtocol.AfterClose | docs/源码阅读_sourcecode/go/redigo_read/main.go:1083-1233 | over every run after Close the pool stays closed and empty, and whoever dials, tests or prunes was already doing so when Close ran |
| PoolProtocol.GivenUpForGood | docs/源码阅读_sourcecode/go/redigo_read/main.go:1083-1211 | once a session has set out to close a connection (stale, rejected, pushed out, or by Close), no later step of any session tests it, hands it out or makes it idle, in any run |
| PoolProtocol.UnfitIsGivenUp | docs/源码阅读_sourcecode/go/redigo_read/main.go:1119-1131 | a connection that fails its borrow test, outlives MaxConnLifetime, or is put back by force or into a closed pool, is never handed out again in any run |
| PoolProtocol.ChosenByAge | docs/源码阅读_sourcecode/go/redigo_read/main.go:1102-1147 | in every reachable state get takes the most recently returned connection, prunes only the least recently returned one and only if stale, and a full put pushes out the least recently returned one |
| PoolProtocol.RefusedOnlyWhenFull | docs/源码阅读_sourcecode/go/redigo_read/main.go:1132-1147 | get is refused only by a closed pool, or without Wait when sessions hold exactly MaxActive slots and no connection is idle |
| PoolDecisions.GetDecides | docs/源码阅读_sourcecode/go/redigo_read/main.go:1102-1147 | in every reachable state a section of get that locks at `now` prunes the last entry if and only if its loop has rounds left and some idle entry has `t + IdleTimeout < now`; otherwise it takes the first entry, if there is one; otherwise it is refused if the pool is closed, or without Wait has `active >= MaxActive`; otherwise it dials with `active` one higher; nothing else changes |
| PoolDecisions.UndisturbedGet | docs/源码阅读_sourcecode/go/redigo_read/main.go:1104-1131 | a get that nobody disturbs, at one clock reading, prunes as long as some idle connection is stale and no longer: the connections it closes are exactly the stale ones, from the oldest on, and what it then takes is the one returned last, if any is left |
| PoolDecisions.PutDecides | docs/源码阅读_sourcecode/go/redigo_read/main.go:1184-1209 | put ends up closing a connection if and only if it is told to, the pool is closed or the idle list holds MaxIdle; otherwise the connection, returned now, is the first of the list and a token is free again; what is closed is the connection itself, or the oldest of the list with the new one in front |
| PoolDecisions.TestDecides | docs/源码阅读_sourcecode/go/redigo_read/main.go:1123-1127 | a pooled connection is handed out if and only if its test passes and MaxConnLifetime is 0 or not yet reached; otherwise it is closed |
| PoolDecisions.CloseDecides | docs/源码阅读_sourcecode/go/redigo_read/main.go:1214-1228 | the first Close takes exactly the idle connections with it and off `active`, and closes the channel; later ones change nothing |
| PoolDecisions.CreatedWhenDialled | docs/源码阅读_sourcecode/go/redigo_read/main.go:1083-1158 | over every run each entry, in the list or in hand, carries the clock reading of the dial that made its connection |
| PoolDecisions.IdleListFills | docs/源码阅读_sourcecode/go/redigo_read/main.go:1184-1196 | for every k up to MaxIdle, and up to MaxActive if that is set, a reachable state has exactly k idle connections |
| Decimals.ParseLen | docs/源码阅读_sourcecode/go/redigo_read/main.go:610-630 | parseLen's wrapping 64-bit loop returns -1 for the null marker, the digits' value modulo 2^64 as a signed integer, or an error exactly on anything else |
| Decimals.ParseInt | docs/源码阅读_sourcecode/go/redigo_read/main.go:633-660 | the same for parseInt, whose sign is applied after the accumulator may have overflowed |
| Decimals.LengthRoundTrip | docs/源码阅读_sourcecode/go/redigo_read/main.go:610-630 | parseLen inverts the digits of a length if and only if the length is below 2^63 |
| Decimals.LengthParsesWithoutOverflow | docs/源码阅读_sourcecode/go/redigo_read/main.go:610-630 | on such digits no intermediate value of the loop overflows |
| Decimals.IntegerRoundTrip | docs/源码阅读_sourcecode/go/redigo_read/main.go:633-660 | parseInt inverts decimal printing if and only if the number is a 64-bit integer, -2^63 included |
| Resp.ReadLine | docs/源码阅读_sourcecode/go/redigo_read/main.go:583-606 | a line is what precedes the first LF, which CR must precede; nothing of the stream is lost |
| Resp.RoundTrip | docs/源码阅读_sourcecode/go/redigo_read/main.go:524-579 | readReply on a nested reply's encoding followed by any bytes returns that reply and leaves exactly those bytes, if and only if its simple and error texts hold no LF and its numbers fit in 64 bits |
| Resp.ParsedIsCarriable | docs/源码阅读_sourcecode/go/redigo_read/main.go:524-579 | on any bytes at all readReply returns only replies that the protocol can carry |
| Resp.ParseExtends | docs/源码阅读_sourcecode/go/redigo_read/main.go:524-579 | more bytes behind a complete reply change neither the reply nor what is left otherwise |
| Resp.ParseTruncated | docs/源码阅读_sourcecode/go/redigo_read/main.go:524-606 | if the reader succeeds on a stream, then on every prefix of it it either returns the same reply with the rest cut accordingly, or reports that the stream ended: never another reply or error |
| Resp.PrefixesAskForMore | docs/源码阅读_sourcecode/go/redigo_read/main.go:524-606 | on every proper prefix of a reply's encoding the reader reports that the stream ended |
| Resp.WrappedLengthReadsAsNil | docs/源码阅读_sourcecode/go/redigo_read/main.go:549-556 | a bulk header of any length reads as the null reply if and only if the length modulo 2^64 is at least 2^63; otherwise as a bulk string of the length modulo 2^64 |
| RespGrammar.ParseIff | docs/源码阅读_sourcecode/go/redigo_read/main.go:524-606 | readReply returns a reply and a rest if and only if the stream is one of the wire forms of that reply, given by a grammar that does not mention the reader, followed by that rest |
| RespGrammar.NilIff | docs/源码阅读_sourcecode/go/redigo_read/main.go:548-568 | the null reply is read if and only if the stream starts with a bulk or array header whose length is the null marker or digits with a value of at least 2^63 modulo 2^64 |
| RespGrammar.NullArray | docs/源码阅读_sourcecode/go/redigo_read/main.go:564-568 | the null array reads as the null reply before any bytes, and an array header of any length reads as it if and only if the length modulo 2^64 is at least 2^63 |
| RespGrammar.FirstLineFails | docs/源码阅读_sourcecode/go/redigo_read/main.go:524-606 | which first lines are an error, and which one: an empty line, an unknown first byte, a text behind `:` that is no integer, a text behind `$` or `*` that is no length |
| RespGrammar.NoFirstLine | docs/源码阅读_sourcecode/go/redigo_read/main.go:583-606 | without an LF the stream has ended too early; a first LF without CR before it is a bad terminator |
| RespGrammar.BulkFails | docs/源码阅读_sourcecode/go/redigo_read/main.go:548-563 | behind a bulk header: too few bytes, no line behind them, or a line that is not empty, each with its error |
| RespGrammar.ArrayFails | docs/源码阅读_sourcecode/go/redigo_read/main.go:564-576 | an array fails with the failure of its first item that fails |
| Resp.PipelineParsesBack | docs/源码阅读_sourcecode/go/redigo_read/main.go:369-464 | any pipeline of commands, with arguments of arbitrary bytes, parses back in order |
| RedisConn.Conn.WriteLen | docs/源码阅读_sourcecode/go/redigo_read/main.go:386-402 | the 32-byte scratch buffer is never overrun and prefix, digits and CRLF are emitted for every length below 2^63 |
| RedisConn.Conn.WriteString | docs/源码阅读_sourcecode/go/redigo_read/main.go:405-418 | a string or byte argument is emitted as the bulk string of RESP2 |
| RedisConn.Conn.WriteArg | docs/源码阅读_sourcecode/go/redigo_read/main.go:429-464 | each modelled argument type is emitted as the bulk string of its text |
| RedisConn.ArgTextMeans | docs/源码阅读_sourcecode/go/redigo_read/main.go:429-464 | strings and bytes travel as they are, true and false as 1 and 0, nil as nothing, and the text of a 64-bit integer is read back as that integer |
| RedisConn.Conn.WriteCommand | docs/源码阅读_sourcecode/go/redigo_read/main.go:369-383 | a command is emitted as the RESP2 array of bulk strings of its name and arguments |
| RedisConn.Conn.ReadReply | docs/源码阅读_sourcecode/go/redigo_read/main.go:524-579 | the recursive reader agrees with the stream parser on replies, remaining bytes and errors, and terminates; what that parser accepts is said by ParseIff, how it fails by the RespGrammar lemmas on failures |
| RedisConn.Conn.Send | docs/源码阅读_sourcecode/go/redigo_read/main.go:354-365 | pending grows by one and the command is appended to the write buffer; the account of the conversation stays right |
| RedisConn.Conn.Flush | docs/源码阅读_sourcecode/go/redigo_read/main.go:469-477 | all commands reach the server, which can parse exactly the unflushed ones back in order |
| RedisConn.Conn.Receive | docs/源码阅读_sourcecode/go/redigo_read/main.go:484-510 | the next reply of the stream; against a server that answers in order, the reply to the oldest unanswered command, with pending equal to commands written minus replies read |
| RedisConn.Conn.Do | docs/源码阅读_sourcecode/go/redigo_read/main.go:680-737 | on any stream: pending is reset, and the outcome is the last of the drained replies with the first error among them, or all of them for the empty command |
| RedisConn.Conn.DoInStep | docs/源码阅读_sourcecode/go/redigo_read/main.go:680-737 | against a server that answers each command once, in order: Do(cmd) returns the reply to its own command and the first error among those it drained, Do("") exactly the outstanding replies in order, and nothing is left over |
| RedisConn.FirstErrorSnoc | docs/源码阅读_sourcecode/go/redigo_read/main.go:716-733 | the error that Do's loop keeps is the first error reply of the batch, not the last |
| Hystrix.StepKeepsInv | docs/源码阅读_sourcecode/go/hystrix-go/hystrix/hystrix.go:59-169 | every step of either goroutine of any command keeps the invariant of all commands and of the tickets |
| Hystrix.TicketsConserved | docs/源码阅读_sourcecode/go/hystrix-go/hystrix/hystrix.go:59-169 | in every interleaving free tickets plus held tickets equal Max |
| Hystrix.SettledOnce | docs/源码阅读_sourcecode/go/hystrix-go/hystrix/hystrix.go:85-168 | a ticket is returned at most once and only if taken, errChan gets at most one error; once the Once is done the ticket is back and there is exactly one outcome, and both goroutines end only after that; OutcomeIsSupplied says which outcome |
| Hystrix.OutcomeIsSupplied | docs/源码阅读_sourcecode/go/hystrix-go/hystrix/hystrix.go:85-168 | over every run the first event of a settled command is a cause that its actions supplied: denied by the circuit, no ticket, what the function returned, a timeout or a cancellation; after success nothing follows and no error is sent; otherwise the fallback was tried, and there is `fallback-success` and no error if and only if the fallback of the action returned, `fallback-failure` and one error if and only if it failed, just one error if and only if there is none |
| Hystrix.RejectedIffAllHeld | docs/源码阅读_sourcecode/go/hystrix-go/hystrix/hystrix.go:114-131 | a command is turned away for concurrency if and only if commands hold all Max tickets at that moment |
| Hystrix.NeverStuck | docs/源码阅读_sourcecode/go/hystrix-go/hystrix/hystrix.go:73-96 | no send on the tickets, errChan or finished and no wait for ticketChecked is stuck, and the send to the metrics waits at most for the goroutine that receives them: a goroutine that cannot move waits for that one or for the other one of its command, which can move |
| Hystrix.StepsRunOut | docs/源码阅读_sourcecode/go/hystrix-go/hystrix/hystrix.go:59-169 | each step strictly lowers the number of steps that its command can still take, at most 17 |
| Hystrix.RunsEnd | docs/源码阅读_sourcecode/go/hystrix-go/hystrix/hystrix.go:59-169 | without new commands every run ends, within a bound computed from the state it starts in |
| Hystrix.RunningBound | docs/源码阅读_sourcecode/go/hystrix-go/hystrix/hystrix.go:136-168 | functions running at once are at most Max plus those given up on by timer or context |
| Hystrix.RunningIsUnbounded | docs/源码阅读_sourcecode/go/hystrix-go/hystrix/hystrix.go:145-168 | with at least one ticket a run exists in which any number of functions run at once, because the timer returns the ticket of a function that still runs |
| Hystrix.MaxCapsRunningOnlyAtZero | docs/源码阅读_sourcecode/go/hystrix-go/hystrix/hystrix.go:59-169 | so Max caps the running functions in every run if and only if it is 0 |
| Hystrix.ExecutorPool.constructor | docs/源码阅读_sourcecode/go/hystrix-go/hystrix/pool.go:11-22 | the pool starts with exactly Max tickets, in the initial state of the protocol |
| Hystrix.ExecutorPool.Return | docs/源码阅读_sourcecode/go/hystrix-go/hystrix/pool.go:25-33 | called where returnTicket calls it in a reachable state, it takes exactly the protocol's steps to the end: the channel has room for the ticket of every command that holds one; the metrics hear how many tickets commands held, and afterwards ActiveCount is the number they hold |
| Hystrix.ExecutorPool.Select | docs/源码阅读_sourcecode/go/hystrix-go/hystrix/hystrix.go:114-124 | the select on Tickets is the protocol's step, and gives no ticket if and only if commands hold all Max of them |
| Hystrix.ActiveCountIsHeld | docs/源码阅读_sourcecode/go/hystrix-go/hystrix/pool.go:35-37 | in every reachable state ActiveCount is the number of tickets that commands hold |
| EventLoops.StepKeepsInv | docs/Muduo/2 总体解析.md:222-312 | every step of any thread, before and in loop(), keeps: from the first swap on, work queued while functors run or the loop polls has a wakeup in the eventfd or on its way, and the queue's history adds up |
| EventLoops.NoLostWakeup | docs/Muduo/2 总体解析.md:239-285 | in every reachable state from the first swap on, work that is queued while functors run or the loop polls has its wakeup, so that the poll is sure to end |
| EventLoops.PollEndsIff | docs/Muduo/2 总体解析.md:239-250 | over every run from before loop(): a poll with work queued is sure to end if and only if it is not the first one or some thread other than the loop's own has queued something |
| EventLoops.HistoryOfRun | docs/Muduo/2 总体解析.md:239-312 | over every run the state records exactly what the actions say: the functors of all pushes in order, the number of calls and of finished rounds, the wakeups since the eventfd was last read, and who stands between push and wakeup |
| EventLoops.PushIsAlwaysPossible | docs/Muduo/2 总体解析.md:239-250 | in any state a thread that is not itself between push and wakeup can queue a functor, and it is then the last of the queue, whoever else stands there |
| EventLoops.RunsInQueueOrder | docs/Muduo/2 总体解析.md:296-312 | over every run the functors called are the first of those that the Push and LoopPush actions of the run queued, in order and each once, as many as there are calls, and the others are still in the queue |
| EventLoops.CalledWithinTwoRounds | docs/Muduo/3 muduo详细运行流程.md:228-260 | whatever the actions of a run have queued has been called, in order, once the loop has finished the round it is in and the next |
| EventLoops.PreLoopPushesAreNotWoken | docs/Muduo/2 总体解析.md:239-250 | the failing family: any functors that the loop's own thread queues before loop(), when nobody else queues any, lead by a run to a first poll that is not sure to end |
| EventLoops.EventLoop.QueueInLoop | docs/Muduo/2 总体解析.md:239-250 | from a reachable state it takes exactly the protocol's push and, if another thread or a running functor calls, its wakeup; after those a wakeup is due, and a poll is sure to end |
| EventLoops.EventLoop.RunInLoop | docs/Muduo/2 总体解析.md:222-233 | on the loop's own thread the functor runs at once and the protocol does not move; elsewhere it takes the steps of another thread's push and wakeup, after which a poll is sure to end |
| EventLoops.EventLoop.DoPendingFunctors | docs/Muduo/2 总体解析.md:296-312 | it takes the protocol's steps from the swap to the end of the round: the queued functors are called in order, once; what they queue themselves waits for a poll that is sure to end |
| EventLoops.EventLoop.Iterate | docs/Muduo/3 muduo详细运行流程.md:228-260 | one iteration of loop(), from a reachable state to one: everything queued before it and by its event handlers is called in order, and what functors queue meanwhile is left for a poll that is sure to end |
| PollPollers.PollPoller.UpdateChannel | docs/Muduo/3 muduo详细运行流程.md:188-222 | after any calls: vector and map stay in bijection through the stored indexes, every entry shows its channel's interest and history, no assert fails, and only a new channel without interest can break `no interest implies a negative fd` |
| PollPollers.PollPoller.PolledIff | docs/Muduo/3 muduo详细运行流程.md:188-222 | after any updates and removals of any channels, a registered channel's entry has its own fd if and only if none of its updates since registration asked for no events; so it is polled if and only if it wants events and that is so |
| PollPollers.QuietedIff | docs/Muduo/3 muduo详细运行流程.md:205-221 | `gave up all interest` said over the whole list of calls: some update asked for no events and the channel was neither registered nor removed since |
| PollPollers.QuietedForGood | docs/Muduo/3 muduo详细运行流程.md:205-221 | that stays so through any further calls that do not register or remove the channel |
| PollPollers.UpdateAll | docs/Muduo/3 muduo详细运行流程.md:188-222 | for every channel and every sequence of updates after its registration: the entry is polled for what was asked last, or ignored if any update asked for nothing |
| PollPollers.PollPoller.RemovalAssertIff | docs/Muduo/3 muduo详细运行流程.md:613-622 | for a channel without interest, removeChannel's assert on the entry holds if and only if some update since registration gave the interest up, and fails if and only if the last call about the channel registered it without interest |
| PollPollers.PollPoller.RemoveChannel | docs/Muduo/3 muduo详细运行流程.md:613-641 | after any calls, for a channel that gave up its interest by an update: swap-remove keeps the bijection, the moved channel's index is repaired even when its fd is encoded, and no assert fails |
| PollPollers.RegisteredWithoutInterest | docs/Muduo/3 muduo详细运行流程.md:188-222 | the failing input, through that condition: a channel registered without interest and never updated, whose entry does not pass the assert |
| TimerQueues.InsertedSorted | docs/Muduo/4 muduo中的定时器.md:310-335 | insertion at the lower bound keeps the set's order and adds exactly the new entry |
| TimerQueues.ErasedSorted | docs/Muduo/4 muduo中的定时器.md:214-232 | erasing keeps the order and removes exactly that entry |
| TimerQueues.InsertedTimerOk | docs/Muduo/4 muduo中的定时器.md:310-335 | inserting a timer keeps both indexes over exactly the live timers, and both std::set inserts find it new |
| TimerQueues.CancelledOk | docs/Muduo/4 muduo中的定时器.md:214-232 | cancelInLoop keeps that too, finds in timers_ what it found in activeTimers_, and remembers an expired timer only during callbacks |
| TimerQueues.AddedMeans | docs/Muduo/4 muduo中的定时器.md:174-212 | an added timer has the expiration, interval and repetition it was asked for and the next number; exactly its entry joins timers_ and exactly its id activeTimers_ |
| TimerQueues.CancelledMeans | docs/Muduo/4 muduo中的定时器.md:214-232 | cancelling a queued timer deletes exactly it from everything; cancelling any other changes nothing, but is remembered while callbacks run |
| TimerQueues.ExpiredAreDue | docs/Muduo/4 muduo中的定时器.md:256-276 | getExpired takes exactly the timers with expiration <= now, and what stays is later; both indexes still agree |
| TimerQueues.SizesAgree | docs/Muduo/4 muduo中的定时器.md:214-335 | the sizes of timers_ and activeTimers_ are equal wherever the code asserts it |
| TimerQueues.TimerQueue.ResetTimerfd | docs/Muduo/4 muduo中的定时器.md:98-138 | the timerfd goes off at the expiration, or 100 microseconds from now if that is later |
| TimerQueues.TimerQueue.Insert | docs/Muduo/4 muduo中的定时器.md:310-335 | the new queue, and that the earliest expiration changed exactly when the new timer is first |
| TimerQueues.TimerQueue.AddTimer | docs/Muduo/4 muduo中的定时器.md:174-212 | a timer with exactly the asked expiration, interval and repetition and a fresh id joins both indexes and nothing else changes; the timerfd stays armed no later than the earliest expiration or the floor, also inside callbacks |
| TimerQueues.TimerQueue.CancelInLoop | docs/Muduo/4 muduo中的定时器.md:214-232 | exactly the cancelled timer leaves both indexes and is deleted, or nothing changes except that a running timer is remembered; an armed timerfd stays armed early enough |
| TimerQueues.TimerQueue.GetExpired | docs/Muduo/4 muduo中的定时器.md:256-276 | both indexes lose exactly the due timers; none of its asserts fails |
| TimerQueues.TimerQueue.ResetOne | docs/Muduo/4 muduo中的定时器.md:278-297 | a repeating timer that was not cancelled is restarted and back in both indexes, any other is deleted, once |
| TimerQueues.TimerQueue.Reset | docs/Muduo/4 muduo中的定时器.md:278-308 | the same for all expired timers, and the timerfd is armed for whatever is queued then |
| TimerQueues.TimerQueue.CallExpired | docs/Muduo/4 muduo中的定时器.md:242-251 | whatever the callbacks add and cancel, the expired timers stay alive and exactly the cancelled ones are remembered |
| TimerQueues.TimerQueue.HandleRead | docs/Muduo/4 muduo中的定时器.md:234-254 | the exact queue after a round in which each due timer's callback runs once, in order of expiration, with whatever it adds and cancels; the due timers are exactly those with expiration <= now; afterwards each is back, restarted from now, if and only if it repeats and no callback cancelled it, and deleted otherwise; the others are queued if and only if not cancelled; the timerfd is armed for the earliest |
| TimerFates.AddedInRound | docs/Muduo/4 muduo中的定时器.md:234-254 | a timer that a callback adds is queued when the round is over, exactly as it was asked for, if and only if no later operation of the callbacks of that round cancels it; otherwise it is deleted |
| MysqlPackets.NumbersCountPackets | docs/源码阅读_sourcecode/python/PyMySQL_read.py:396-436 | a payload takes one packet per full length plus always a shorter one, and the next sequence number counts them modulo 256 |
| MysqlPackets.ReadBack | docs/源码阅读_sourcecode/python/PyMySQL_read.py:486-523 | a reader recovers the payload from its packets, whatever its length, with the rest of the stream untouched |
| MysqlPackets.ReadOnly | docs/源码阅读_sourcecode/python/PyMySQL_read.py:486-523 | what the reader accepts is exactly the packets of what it returns |
| MysqlPackets.ReadIffSent | docs/源码阅读_sourcecode/python/PyMySQL_read.py:455-541 | reading returns a payload, a rest and a next number if and only if the stream is that payload's packets followed by that rest |
| MysqlPackets.OneFailsIff | docs/源码阅读_sourcecode/python/PyMySQL_read.py:486-541 | by header bytes and length: reading one packet is a lost connection if and only if fewer than 4 bytes are left, the number is 0 and not the expected one, or the number is right and the payload is cut short; and a wrong number if and only if it is neither 0 nor the expected one |
| MysqlPackets.ReadFailsIff | docs/源码阅读_sourcecode/python/PyMySQL_read.py:486-523 | _read_packet fails with an error if and only if the stream is some full packets in sequence and then bytes at which one packet fails with that error |
| MysqlPackets.Connection.WritePacket | docs/源码阅读_sourcecode/python/PyMySQL_read.py:455-476 | 24-bit length, sequence number and payload are sent, and the number advances modulo 256 |
| MysqlPackets.Connection.ExecuteCommand | docs/源码阅读_sourcecode/python/PyMySQL_read.py:396-436 | the hand-built first packet and the loop together send exactly the packets of command byte and sql |
| MysqlPackets.Connection.SendRest | docs/源码阅读_sourcecode/python/PyMySQL_read.py:418-436 | the loop terminates and ends only after a packet that is not full |
| MysqlPackets.Connection.ReadPacket | docs/源码阅读_sourcecode/python/PyMySQL_read.py:486-523 | the reading loop agrees with the specification on payload, rest, number and both errors; what that accepts is said by ReadIffSent, how it fails by ReadFailsIff and OneFailsIff |
| MysqlPackets.CommandArrives | docs/源码阅读_sourcecode/python/PyMySQL_read.py:396-523 | client and server joined: the server gets command byte and sql for every length, and both ends have the same next number |
| SocketBuffers.ReadIgnoresChunksIff | docs/源码阅读_sourcecode/python/redispy_read.py:217-232 | read(length) is a function of the unconsumed stream alone, whatever is buffered, if and only if length >= -2 |
| SocketBuffers.SocketBuffer.Recv | docs/源码阅读_sourcecode/python/redispy_read.py:197-199 | the socket delivers chunks of any size, times out, or is closed; the stream is only moved |
| SocketBuffers.SocketBuffer.ReadFromSocket | docs/源码阅读_sourcecode/python/redispy_read.py:191-215 | enough bytes arrive, the socket times out, or it is closed with fewer left than asked for; the unconsumed stream never changes |
| SocketBuffers.SocketBuffer.Consume | docs/源码阅读_sourcecode/python/redispy_read.py:223-230 | the stream moves on by exactly the bytes returned; the purge happens only when nothing is unread |
| SocketBuffers.SocketBuffer.Read | docs/源码阅读_sourcecode/python/redispy_read.py:217-232 | for every chunking: the bytes and the rest that the whole stream determines, ConnectionError only when it is too short, and on a timeout or error nothing is consumed |
| SocketBuffers.SocketBuffer.Readline | docs/源码阅读_sourcecode/python/redispy_read.py:234-249 | for every chunking: the first line of the whole stream if CR precedes its LF, ConnectionError otherwise, and on a timeout or error nothing is consumed |
| SocketBuffers.SocketBuffer.ReadResponse | docs/源码阅读_sourcecode/python/redispy_read.py:297-344 | for every delivery: one of the answers that the whole stream allows, which is the one it parses to unless a bulk length below -2 is met with bytes behind it; such a length, when its header is buffered, gets exactly what is buffered behind that; it terminates |
| SocketBuffers.OneAnswer | docs/源码阅读_sourcecode/python/redispy_read.py:297-344 | unless a bulk length below -2 is met with bytes behind it, all deliveries of a stream have the same answer: what it parses to |
| SocketBuffers.ByFirstLine | docs/源码阅读_sourcecode/python/redispy_read.py:297-344 | what each kind of first line gives: a text, a number, null, an empty list for a list length below -1, or which exception |
| SocketBuffers.NoFirstLine | docs/源码阅读_sourcecode/python/redispy_read.py:234-249 | a stream without LF, or whose first LF has no CR before it, is read to its end and raises ConnectionError |
| SocketBuffers.TextBody | docs/源码阅读_sourcecode/python/redispy_read.py:329-334 | behind a bulk header of length n: the next n bytes and whatever follows the two after them, or ConnectionError if fewer than n + 2 are left |
| SocketBuffers.ListFails | docs/源码阅读_sourcecode/python/redispy_read.py:335-341 | a list raises what its first failing item raises |
| SocketBuffers.BulkSettledIff | docs/源码阅读_sourcecode/python/redispy_read.py:329-334 | a bulk response is the same for all deliveries if and only if its length is at least -2 or nothing follows the header |
| SocketBuffers.Delivered | docs/源码阅读_sourcecode/python/redispy_read.py:297-344 | every answer that the relation allows for a length below -2 is returned by read_response for some delivery |
| SocketBuffers.SocketBuffer.ReadItems | docs/源码阅读_sourcecode/python/redispy_read.py:335-341 | for every delivery: the items of one of the lists that the stream allows, in order, bulk lengths below -2 included |
| SocketBuffers.ResponseRoundTrip | docs/源码阅读_sourcecode/python/redispy_read.py:297-344 | read_response returns a server's nested reply, simple and bulk strings both as bytes, and leaves what follows it, if and only if it holds no error and no simple string with an LF |
| SocketBuffers.NegativeLengthsDependOnChunks | docs/源码阅读_sourcecode/python/redispy_read.py:297-344 | for every bulk length below -2 and every stream behind its header, two readers whose read_response differ: in what they leave as soon as something follows the header, and in the text from three bytes on |
| CommandPackers.SplitIff | docs/源码阅读_sourcecode/python/redispy_read.py:534-540 | the words of a command name are the only spaceless words that joined by single spaces give it |
| CommandPackers.PackCommand | docs/源码阅读_sourcecode/python/redispy_read.py:534-551 | one chunk: the RESP2 array of the name's words and the arguments |
| CommandPackers.PackCommands | docs/源码阅读_sourcecode/python/redispy_read.py:553-571 | the chunks concatenate to all commands in order; a chunk is flushed as soon as it passes 6000 bytes and no earlier, except the last; and a RESP2 reader parses the concatenated chunks back to exactly these commands |
| RateLimiter.NewIsSane | docs/源码阅读_sourcecode/go/ratelimit/ratelimit.go:39-69 | for a positive rate the interval is a second divided by the rate and the slack is never positive |
| RateLimiter.NewState | docs/源码阅读_sourcecode/go/ratelimit/ratelimit.go:77-96 | one round of the loop computes the state that the specification names |
| RateLimiter.GrantIsMax | docs/源码阅读_sourcecode/go/ratelimit/ratelimit.go:77-96 | that state is max(now, last + interval), whatever the slack: it is never carried over; sleeping from now leads exactly to the grant |
| RateLimiter.SwapRefines | docs/源码阅读_sourcecode/go/ratelimit/ratelimit.go:85-97 | a swap installs that maximum of the current state or fails and changes nothing, stale reads included |
| RateLimiter.StepKeepsInv | docs/源码阅读_sourcecode/go/ratelimit/ratelimit.go:72-101 | every step of every taker keeps the invariant of state, history and takers |
| RateLimiter.GrantsAreSpaced | docs/源码阅读_sourcecode/go/ratelimit/ratelimit.go:72-101 | in every interleaving k+1 consecutive grants span at least k intervals, and no Take returns before its grant |
| RateLimiter.WindowBound | docs/源码阅读_sourcecode/go/ratelimit/ratelimit.go:72-101 | a window of a given width holds at most (width-1)/interval + 1 such grants |
| RateLimiter.OneSecondBound | docs/源码阅读_sourcecode/go/ratelimit/ratelimit.go:41-43 | for rates from 1 to 10^9 a half-open one-second window holds at most that many grants |
| RateLimiter.CapIsRate | docs/源码阅读_sourcecode/go/ratelimit/ratelimit.go:41-43 | that bound is at least the rate, and equal to it if and only if the rate divides 10^9 |
| RateLimiter.CapIsReached | docs/源码阅读_sourcecode/go/ratelimit/ratelimit.go:72-101 | the bound is tight: a reachable state attains it |
| RateLimiter.NoIntervalNoCap | docs/源码阅读_sourcecode/go/ratelimit/ratelimit.go:39-56 | above 10^9 the interval is 0, and reachable states have any number of grants at one instant |
| RateLimiter.RateIsKeptIff | docs/源码阅读_sourcecode/go/ratelimit/ratelimit.go:38-56 | for every rate from 1 on, `rate` operations per second is kept in every run and every one-second window if and only if the rate divides 10^9 |
| QuickSort.Partition2 | docs/基本手写代码/快速排序.cpp:38-67 | for every pivot choice the range is permuted, nothing else is touched, and the returned position holds a final pivot: nothing left of it is larger, nothing right of it smaller, equal keys included |
| QuickSort.Partition | docs/基本手写代码/快速排序.cpp:77-104 | the one-way scan: strictly smaller elements before the pivot, all others after it |
| QuickSort.QuickSortOffer | docs/基本手写代码/快速排序.cpp:106-114 | it terminates, sorts the range, permutes it and touches nothing outside it |
| QuickSort.SortedIsUnique | docs/基本手写代码/快速排序.cpp:106-114 | two sorted arrays with the same elements are equal, so the outcome does not depend on the random pivots |

## Left out

- Sockets, TLS, dialling, deadlines, authentication, logging and printing: the network is byte streams, and Dial,
  TestOnBorrow, clock readings, scheduling and random numbers are nondeterministic.
- redigo `writeArg` for float64, for `Argument` and for values printed through fmt: library formatting that is not in
  the file. Failing writes and flushes, allocation failure on huge lengths and bufio's fallback for lines longer than
  its buffer are not modelled either.
- redigo's interned `OK` and `PONG` replies: equal as values to any other simple string.
- `activeConn.Close`'s DISCARD, UNWATCH and UNSUBSCRIBE clean-up and the bits that steer it: whether a connection is put
  back or closed is an arbitrary choice in `PoolProtocol`.
- `Pools.Pool` objects run one critical section at a time; interleaving is in `PoolProtocol`, on values.
- Connections that a client closes without the pool, and `Pool` fields changed while the pool is in use.
- hystrix metrics other than the send that tells them of a returned ticket, and the open or closed decision of the circuit (an arbitrary boolean), the error path of GetCircuit,
  the synchronous `DoC`, panics in user functions, and which event name an error maps to.
- Hystrix.NeverStuck: takes the user's function and fallback to return, as the code cannot make them, and the metrics
  goroutine to come back for the next update, as its loop does.
- muduo `quit()`, thread creation, events other than wakeup and timers, and `poll` revents. Channel interest is 16 bits.
- PollPollers.PollPoller.UpdateChannel: a removed channel must not come back, since its index is stale; the source
  resets no index on removal. A channel's interest changes only through `update`.
- TimerQueues.TimerQueue.AddTimer: the part on the loop thread; handing a timer over from another thread is what
  `EventLoops` models. `Timer::restart` is not in the notes and is taken to set now plus interval; timestamps and
  intervals are integer microseconds, and the address space is never exhausted.
- `time.Sub` saturation at about 292 years in the rate limiter, its mock clock, and `unlimited`. `New(0)` panics.
- PyMySQL's pending-result draining, interpretation of packets, result decoding and connection state; a server's error
  packets.
- redis-py's text encoding and decoding, connection set-up and pool. Python's `int()` is a parameter of the model that
  only has to read back decimal text in the round trip. A `socket_read_size` of 0, which asks the socket for nothing.
- SocketBuffers.SocketBuffer.ReadResponse: once a bulk length below -2 is met with bytes behind it, the contract gives the
  set of possible answers (`May`), not one; and nothing about the position after an error inside an array.
- `EventLoops.EventLoop` and `Hystrix.ExecutorPool` run one method at a time; interleaving is in the protocols.
- The go-cache map, the fatih channel pool, base62, counters, the task runner, tree traversals, the smart pointer,
  wsgiref and the web applications: they would only add easier members, or are incomplete where they stand.
