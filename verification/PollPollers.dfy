/** muduo's PollPoller: the vector handed to poll(2) and the map from fds to channels,
    kept in step through the index that each channel stores. */
module PollPollers {

  /** struct pollfd, without revents. */
  datatype PollFd = PollFd(fd: int, events: bv16)

  class Channel {
    const fd: int
    var events: bv16
    var index: int   // -1: never added

    constructor (fd: int)
      requires fd >= 0
      ensures this.fd == fd && events == 0 && index == -1
    {
      this.fd, events, index := fd, 0, -1;
    }

    predicate IsNoneEvent()
      reads this`events
    {
      events == 0
    }
  }

  /** The encoding that makes poll(2) ignore an entry. */
  function Ignored(fd: int): int { -fd - 1 }

  /** The descriptor that an entry stands for, ignored or not. */
  function Decoded(fd: int): int { if fd < 0 then -fd - 1 else fd }

  /** poll(2) skips every entry without interest. */
  ghost predicate Quiet(pollfds: seq<PollFd>) {
    forall i :: 0 <= i < |pollfds| && pollfds[i].events == 0 ==> pollfds[i].fd < 0
  }

  /** Swap-remove: the last element takes the place of the removed one, if it is another. */
  function SwapRemoved<T>(xs: seq<T>, i: nat): (r: seq<T>)
    requires i < |xs|
    ensures |r| == |xs| - 1 && forall k :: 0 <= k < |r| ==> r[k] == if k == i then xs[|xs| - 1] else xs[k]
  {
    xs[i := xs[|xs| - 1]][..|xs| - 1]
  }

  // ---- what a poller was told, call by call ----

  datatype Call =
    | Register(channel: Channel, events: bv16)   // updateChannel, for a new channel
    | Update(channel: Channel, events: bv16)     // updateChannel, for one that is registered
    | Remove(channel: Channel)                   // removeChannel

  /** The last call about a channel. */
  datatype Latest = NoCall | Latest(call: Call)

  ghost function Last(calls: seq<Call>, c: Channel): (r: Latest)
    ensures r.Latest? ==> r.call in calls && r.call.channel == c
  {
    if calls == [] then NoCall
    else if calls[|calls| - 1].channel == c then Latest(calls[|calls| - 1])
    else Last(calls[..|calls| - 1], c)
  }

  /** The channel gave up all interest, by an update after the call that registered it. */
  ghost predicate Quieted(calls: seq<Call>, c: Channel) {
    calls != [] &&
    var x, before := calls[|calls| - 1], calls[..|calls| - 1];
    if x.channel != c then Quieted(before, c)
    else x.Update? && (x.events == 0 || Quieted(before, c))
  }

  ghost predicate QuietedAt(calls: seq<Call>, c: Channel, k: nat)
    requires k < |calls|
  {
    calls[k] == Update(c, 0) && forall j :: k < j < |calls| && calls[j].channel == c ==> calls[j].Update?
  }

  /** Said over the whole list of calls: some update asked for no events, and the channel
      was neither registered nor removed since. */
  lemma {:induction false} QuietedIff(calls: seq<Call>, c: Channel)
    ensures Quieted(calls, c) <==> exists k: nat :: k < |calls| && QuietedAt(calls, c, k)
  {
    if calls != [] {
      var n := |calls| - 1;
      QuietedIff(calls[..n], c);
      if Quieted(calls, c) {
        if calls[n] == Update(c, 0) {
          assert QuietedAt(calls, c, n);
        } else {
          var k: nat :| k < n && QuietedAt(calls[..n], c, k);
          assert QuietedAt(calls, c, k);
        }
      }
      if k: nat :| k < |calls| && QuietedAt(calls, c, k) {
        assert k < n ==> QuietedAt(calls[..n], c, k);
      }
    }
  }

  /** An entry shows what its channel was told. */
  ghost predicate Recorded(calls: seq<Call>, c: Channel, pfd: PollFd) {
    && (pfd.fd < 0 <==> Quieted(calls, c))
    && var last := Last(calls, c); last.Latest? && !last.call.Remove? && last.call.events == pfd.events
  }

  lemma RecordedNext(calls: seq<Call>, x: Call, c: Channel, pfd: PollFd)
    requires if x.channel != c then Recorded(calls, c, pfd)
             else !x.Remove? && x.events == pfd.events
                  && (pfd.fd < 0 <==> x.Update? && (x.events == 0 || Quieted(calls, c)))
    ensures Recorded(calls + [x], c, pfd)
  {
    assert (calls + [x])[..|calls|] == calls;
  }

  class PollPoller {
    var pollfds: seq<PollFd>
    var channels: map<int, Channel>
    ghost var owners: seq<Channel>   // whose entry each one is
    ghost var calls: seq<Call>       // every call so far

    /** Vector and map are in bijection through the indexes that the channels store, and
        each entry shows its channel's interest and history. */
    ghost predicate Valid()
      reads this, owners
    {
      && |owners| == |pollfds|
      && (forall i :: 0 <= i < |owners| ==> Owns(i))
      && (forall fd <- channels :: channels[fd] in owners && channels[fd].fd == fd)
    }

    ghost predicate Owns(i: nat)
      reads this, owners
      requires i < |owners| == |pollfds|
    {
      var c := owners[i];
      && c.index == i && c.fd >= 0 && Registered(c)
      && Decoded(pollfds[i].fd) == c.fd && pollfds[i].events == c.events
      && Recorded(calls, c, pollfds[i])
    }

    ghost predicate Registered(channel: Channel)
      reads this
    {
      channel.fd in channels && channels[channel.fd] == channel
    }

    /** A registered channel's index leads to its entry. */
    lemma EntryOf(channel: Channel)
      requires Valid() && Registered(channel)
      ensures 0 <= channel.index < |owners| && owners[channel.index] == channel && Owns(channel.index)
    {
      var k: nat :| k < |owners| && owners[k] == channel;
      assert Owns(k);
    }

    lemma EntryIsRecorded(channel: Channel)
      requires Valid() && Registered(channel)
      ensures 0 <= channel.index < |pollfds| && (pollfds[channel.index].fd < 0 <==> Quieted(calls, channel))
    {
      EntryOf(channel);
    }

    constructor ()
      ensures Valid() && calls == [] && pollfds == [] && channels == map[]
    {
      pollfds, channels, owners, calls := [], map[], [], [];
    }

    /** updateChannel, called through Channel::update right after the channel's interest
        became `events`.  A channel that was removed must not come back: its index is stale.
        None of the asserts can fail. */
    method UpdateChannel(channel: Channel, events: bv16)
      requires Valid() && channel.fd >= 0
      requires if channel.index < 0 then channel.fd !in channels else Registered(channel)
      modifies this, channel
      ensures Valid() && channel.events == events
      ensures channels == old(channels)[channel.fd := channel]
      ensures channel.index == if old(channel.index) < 0 then old(|pollfds|) else old(channel.index)
      ensures old(channel.index) < old(|pollfds|)
      ensures pollfds == if old(channel.index) < 0 then old(pollfds) + [PollFd(channel.fd, events)]
                         else old(pollfds)[old(channel.index) := PollFd(
                           if events == 0 then Ignored(channel.fd) else old(pollfds[channel.index].fd), events)]
      ensures old(Quiet(pollfds)) && (old(channel.index) >= 0 || events != 0) ==> Quiet(pollfds)
      ensures calls == old(calls) + [if old(channel.index) < 0 then Register(channel, events) else Update(channel, events)]
    {
      hide Recorded;
      ghost var x := if channel.index < 0 then Register(channel, events) else Update(channel, events);
      if channel.index >= 0 {
        EntryOf(channel);
        EntryIsRecorded(channel);
      }
      forall k: nat | k < |owners| ensures Owns(k) && (owners[k] == channel ==> k == channel.index) {
      }
      channel.events := events;
      calls := calls + [x];
      if channel.index < 0 {
        assert channel.fd !in channels;
        var pfd := PollFd(channel.fd, channel.events);
        pollfds := pollfds + [pfd];
        var idx := |pollfds| - 1;
        channel.index := idx;
        channels := channels[pfd.fd := channel];
        owners := owners + [channel];
        forall k: nat | k < |owners| ensures Owns(k) {
          assert k < idx ==> old(Owns(k));
          RecordedNext(old(calls), x, owners[k], pollfds[k]);
        }
        assert owners[idx] == channel;
        assert forall k :: 0 <= k < idx ==> owners[k] == old(owners)[k];
      } else {
        assert channel.fd in channels;
        assert channels[channel.fd] == channel;
        var idx := channel.index;
        assert 0 <= idx < |pollfds|;
        var pfd := pollfds[idx];
        assert pfd.fd == channel.fd || pfd.fd == -channel.fd - 1;
        pfd := pfd.(events := channel.events);
        if channel.IsNoneEvent() {
          pfd := pfd.(fd := -channel.fd - 1);
        }
        pollfds := pollfds[idx := pfd];
        forall k: nat | k < |owners| ensures Owns(k) {
          assert old(Owns(k));
          RecordedNext(old(calls), x, owners[k], pollfds[k]);
        }
      }
    }

    /** An entry is polled exactly when its channel wants events and never gave up all
        interest since it was registered, whatever happened to the other channels. */
    lemma PolledIff(channel: Channel)
      requires Valid() && Registered(channel)
      ensures 0 <= channel.index < |pollfds| && var pfd := pollfds[channel.index];
        && (pfd.fd >= 0 <==> !Quieted(calls, channel))
        && (pfd.fd == channel.fd && pfd.events != 0 <==> channel.events != 0 && !Quieted(calls, channel))
    {
      EntryOf(channel);
    }

    /** removeChannel's assert on the entry of a channel without interest holds exactly when
        an update gave that interest up; it fails exactly for a channel that was registered
        without interest and never updated since. */
    lemma RemovalAssertIff(channel: Channel)
      requires Valid() && Registered(channel) && channel.IsNoneEvent()
      ensures 0 <= channel.index < |pollfds| && var pfd := pollfds[channel.index];
        && (pfd.fd == -channel.fd - 1 && pfd.events == channel.events <==> Quieted(calls, channel))
        && (Quieted(calls, channel) <==> Last(calls, channel) != Latest(Register(channel, 0)))
    {
      EntryOf(channel);
      LastUpdateQuiets(calls, channel);
    }

    /** removeChannel; after any calls none of its asserts can fail for a channel that gave
        up its interest by an update, and the moved channel's index is repaired whether or not its own entry is. */
    method RemoveChannel(channel: Channel)
      requires Valid() && Registered(channel) && channel.IsNoneEvent()
      requires Quieted(calls, channel)
      modifies this, owners`index
      ensures Valid() && channels == old(channels) - {channel.fd}
      ensures 0 <= old(channel.index) < |old(pollfds)|
      ensures pollfds == SwapRemoved(old(pollfds), old(channel.index))
      ensures old(Quiet(pollfds)) ==> Quiet(pollfds)
      ensures calls == old(calls) + [Remove(channel)]
    {
      hide Recorded, SwapRemoved;
      EntryOf(channel);
      EntryIsRecorded(channel);
      assert channel.fd in channels;
      assert channels[channel.fd] == channel;
      assert channel.IsNoneEvent();
      var idx := channel.index;
      assert 0 <= idx < |pollfds|;
      var pfd := pollfds[idx];
      assert pfd.fd == -channel.fd - 1 && pfd.events == channel.events;
      channels := channels - {channel.fd};
      calls := calls + [Remove(channel)];
      ghost var last := owners[|owners| - 1];
      assert old(Owns(|owners| - 1)) && (last != channel ==> last.fd != channel.fd);
      owners := SwapRemoved(owners, idx);
      if idx == |pollfds| - 1 {
        pollfds := pollfds[..|pollfds| - 1];
      } else {
        assert Registered(last);
        var channelAtEnd := pollfds[|pollfds| - 1].fd;
        pollfds := pollfds[idx := pollfds[|pollfds| - 1]][|pollfds| - 1 := pollfds[idx]];
        if channelAtEnd < 0 {
          channelAtEnd := -channelAtEnd - 1;
        }
        channels[channelAtEnd].index := idx;
        pollfds := pollfds[..|pollfds| - 1];
      }
      forall k: nat | k < |owners| ensures Owns(k) {
        assert old(Owns(k)) && owners[k] != channel;
        RecordedNext(old(calls), Remove(channel), owners[k], pollfds[k]);
      }
      forall f | f in channels ensures channels[f] in owners {
        var k: nat :| k < old(|owners|) && old(owners)[k] == channels[f];
        assert owners[if k == |owners| then idx else k] == channels[f];
      }
    }
  }

  lemma LastUpdateQuiets(calls: seq<Call>, c: Channel)
    requires Last(calls, c).Latest? && Last(calls, c).call.channel == c
    ensures Last(calls, c) == Latest(Update(c, 0)) ==> Quieted(calls, c)
    ensures !Last(calls, c).call.Update? ==> !Quieted(calls, c)
  {
  }

  /** Once quiet, a channel stays so through any calls that do not register or remove it. */
  lemma {:induction false} QuietedForGood(calls: seq<Call>, more: seq<Call>, c: Channel)
    requires Quieted(calls, c) && forall x <- more :: x.channel == c ==> x.Update?
    ensures Quieted(calls + more, c)
  {
    if more == [] {
      assert calls + more == calls;
    } else {
      var n := |more| - 1;
      QuietedForGood(calls, more[..n], c);
      assert (calls + more)[..|calls| + n] == calls + more[..n];
    }
  }

  /** The calls that registered a channel with `first` and then updated it to each of `us`. */
  ghost function Told(c: Channel, first: bv16, us: seq<bv16>): seq<Call> {
    if us == [] then [Register(c, first)] else Told(c, first, us[..|us| - 1]) + [Update(c, us[|us| - 1])]
  }

  /** The entry of a channel that was told this. */
  function Shown(fd: int, first: bv16, us: seq<bv16>): PollFd {
    PollFd(if 0 in us then Ignored(fd) else fd, if us == [] then first else us[|us| - 1])
  }

  lemma ShownNext(fd: int, first: bv16, us: seq<bv16>, u: bv16)
    ensures Shown(fd, first, []) == PollFd(fd, first)
    ensures Shown(fd, first, us + [u]) == PollFd(if u == 0 then Ignored(fd) else Shown(fd, first, us).fd, u)
  {
  }

  /** For every channel and every sequence of updates: in the end its entry is polled for
      what it last asked, unless one of the updates asked for nothing.  So a channel that
      was disabled once stays ignored, and one registered with nothing does not. */
  method UpdateAll(fd: int, first: bv16, us: seq<bv16>) returns (poller: PollPoller, channel: Channel)
    requires fd >= 0
    ensures poller.Valid() && poller.Registered(channel) && channel.fd == fd && channel.index == 0
    ensures poller.calls == Told(channel, first, us)
    ensures poller.pollfds == [Shown(fd, first, us)]
  {
    hide Shown, PollPoller.Owns;
    poller := new PollPoller();
    channel := new Channel(fd);
    poller.UpdateChannel(channel, first);
    ShownNext(fd, first, [], 0);
    for i := 0 to |us|
      invariant fresh(poller) && fresh(channel) && poller.Valid() && poller.Registered(channel)
      invariant channel.fd == fd && channel.index == 0 && poller.calls == Told(channel, first, us[..i])
      invariant poller.pollfds == [Shown(fd, first, us[..i])]
    {
      ShownNext(fd, first, us[..i], us[i]);
      poller.UpdateChannel(channel, us[i]);
      assert us[..i + 1] == us[..i] + [us[i]] && us[..i + 1][..i] == us[..i];
    }
    assert us[..|us|] == us;
  }

  /** The failing input: a channel registered without interest and never updated.  Its
      entry does not pass removeChannel's assert. */
  method RegisteredWithoutInterest(fd: int) returns (poller: PollPoller, channel: Channel)
    requires fd >= 0
    ensures poller.Valid() && poller.Registered(channel) && channel.IsNoneEvent()
    ensures !Quieted(poller.calls, channel) && channel.index == 0
    ensures |poller.pollfds| == 1 && poller.pollfds[0].fd != -channel.fd - 1
  {
    poller, channel := UpdateAll(fd, 0, []);
    assert channel.events == 0 by {
      poller.EntryOf(channel);
    }
    poller.PolledIff(channel);
  }
}
