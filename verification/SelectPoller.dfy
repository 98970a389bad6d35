// The select poller: the descriptor map, the array of polled descriptors and the index kept in each
// channel agree under swap-remove, and every ready channel is reported once.
module SelectPoller {
  type Fd = nat
  type Events = bv8

  const READ_EVENT: Events := 0x01
  const WRITE_EVENT: Events := 0x08
  const ERROR_EVENT: Events := 0x10

  datatype PollFd = PollFd(fd: Fd, ev: Events)

  /** A channel: its index is negative until it is first registered, and not reset when it is removed. */
  class Channel {
    const fd: Fd
    var events: Events
    var revents: Events
    var index: int

    constructor (fd: Fd)
      ensures this.fd == fd && events == 0 && revents == 0 && index == -1
    {
      this.fd := fd;
      events, revents, index := 0, 0, -1;
    }
  }

  /** What select() leaves in the three sets, with the total number of descriptors in them. */
  datatype Selected = Selected(count: int, rfds: set<Fd>, wfds: set<Fd>, efds: set<Fd>)

  /** The RETURN VALUE section of select() in POSIX.1-2017: the bits of all three sets, which only lose members. */
  predicate Answers(s: Selected, rfds: set<Fd>, wfds: set<Fd>, efds: set<Fd>) {
    s.count > 0 ==> s.rfds <= rfds && s.wfds <= wfds && s.efds <= efds && s.count == |s.rfds| + |s.wfds| + |s.efds|
  }

  function Revents(s: Selected, fd: Fd): Events {
    (if fd in s.rfds then READ_EVENT else 0) |
    (if fd in s.wfds then WRITE_EVENT else 0) |
    (if fd in s.efds then ERROR_EVENT else 0)
  }

  predicate Ready(s: Selected, fd: Fd) {
    fd in s.rfds || fd in s.wfds || fd in s.efds
  }

  lemma ReadyRevents(s: Selected, fd: Fd)
    ensures Revents(s, fd) != 0 <==> Ready(s, fd)
    ensures Revents(s, fd) & 0x01 != 0 <==> fd in s.rfds
    ensures Revents(s, fd) & 0x08 != 0 <==> fd in s.wfds
    ensures Revents(s, fd) & 0x10 != 0 <==> fd in s.efds
    ensures Revents(s, fd) & 0xe6 == 0
  {
  }

  /** The ready descriptors among those polled, in order. */
  function ReadyFds(pollfds: seq<PollFd>, s: Selected): (r: seq<Fd>) {
    if pollfds == [] then [] else
    (if Ready(s, pollfds[0].fd) then [pollfds[0].fd] else []) + ReadyFds(pollfds[1..], s)
  }

  predicate Distinct(pollfds: seq<PollFd>) {
    forall i, j :: 0 <= i < j < |pollfds| ==> pollfds[i].fd != pollfds[j].fd
  }

  /** Each ready descriptor polled is there once, and no other. */
  lemma {:induction false} ReadyOnce(pollfds: seq<PollFd>, s: Selected)
    requires Distinct(pollfds)
    ensures forall fd :: fd in ReadyFds(pollfds, s) <==>
            Ready(s, fd) && exists i :: 0 <= i < |pollfds| && pollfds[i].fd == fd
    ensures forall i, j :: 0 <= i < j < |ReadyFds(pollfds, s)| ==> ReadyFds(pollfds, s)[i] != ReadyFds(pollfds, s)[j]
  {
    if pollfds != [] {
      ReadyOnce(pollfds[1..], s);
      var rest := ReadyFds(pollfds[1..], s);
      assert forall fd :: fd in rest ==> exists i :: 0 < i < |pollfds| && pollfds[i].fd == fd;
      forall fd
        ensures fd in ReadyFds(pollfds, s) <==> Ready(s, fd) && exists i :: 0 <= i < |pollfds| && pollfds[i].fd == fd
      {
        if i :| 0 < i < |pollfds| && pollfds[i].fd == fd {
          assert pollfds[1..][i - 1].fd == fd;
        }
      }
    }
  }

  /** There are no more ready descriptors than bits set. */
  lemma {:induction false} ReadyBound(pollfds: seq<PollFd>, s: Selected)
    requires Distinct(pollfds)
    ensures |ReadyFds(pollfds, s)| <= |s.rfds| + |s.wfds| + |s.efds|
  {
    ReadyOnce(pollfds, s);
    var fds := ReadyFds(pollfds, s);
    DistinctBound(fds, s.rfds + s.wfds + s.efds);
    assert |s.rfds + s.wfds| <= |s.rfds| + |s.wfds|;
    assert |(s.rfds + s.wfds) + s.efds| <= |s.rfds + s.wfds| + |s.efds|;
  }

  lemma {:induction false} DistinctBound(fds: seq<Fd>, all: set<Fd>)
    requires forall i, j :: 0 <= i < j < |fds| ==> fds[i] != fds[j]
    requires forall fd :: fd in fds ==> fd in all
    ensures |fds| <= |all|
  {
    if fds != [] {
      var last := |fds| - 1;
      DistinctBound(fds[..last], all - {fds[last]});
    }
  }

  /** The descriptors polled for an event. */
  function Wanting(pollfds: seq<PollFd>, mask: Events): set<Fd> {
    if pollfds == [] then {} else
    Wanting(pollfds[..|pollfds| - 1], mask) +
      if Wants(pollfds[|pollfds| - 1], mask) then {pollfds[|pollfds| - 1].fd} else {}
  }

  predicate Wants(p: PollFd, mask: Events) {
    mask == ERROR_EVENT || p.ev & mask != 0
  }

  /** A descriptor is asked about for reading and writing exactly if its events say so, and always for errors. */
  lemma {:induction false} WantingExactly(pollfds: seq<PollFd>, fd: Fd)
    ensures fd in Wanting(pollfds, READ_EVENT) <==> exists p :: p in pollfds && p.fd == fd && p.ev & 0x01 != 0
    ensures fd in Wanting(pollfds, WRITE_EVENT) <==> exists p :: p in pollfds && p.fd == fd && p.ev & 0x08 != 0
    ensures fd in Wanting(pollfds, ERROR_EVENT) <==> exists p :: p in pollfds && p.fd == fd
  {
    if pollfds != [] {
      var init, last := pollfds[..|pollfds| - 1], pollfds[|pollfds| - 1];
      WantingExactly(init, fd);
      assert pollfds == init + [last];
      assert forall p :: p in pollfds <==> p in init || p == last;
      assert Wants(last, ERROR_EVENT);
    }
  }

  lemma WantingNone()
    ensures forall mask :: Wanting([], mask) == {}
  {
  }

  lemma WantsBits(p: PollFd)
    ensures Wants(p, READ_EVENT) <==> p.ev & READ_EVENT != 0
    ensures Wants(p, WRITE_EVENT) <==> p.ev & WRITE_EVENT != 0
    ensures Wants(p, ERROR_EVENT)
  {
  }

  lemma WantingNext(pollfds: seq<PollFd>, i: nat, mask: Events)
    requires i < |pollfds|
    ensures Wanting(pollfds[..i + 1], mask) == Wanting(pollfds[..i], mask) +
            if Wants(pollfds[i], mask) then {pollfds[i].fd} else {}
  {
    assert pollfds[..i + 1][..i] == pollfds[..i];
  }

  class SelectPoller {
    var pollfds: seq<PollFd>
    var channels: map<Fd, Channel>
    /** The events of each registered channel at its last update. */
    ghost var registered: map<Fd, Events>

    /** The map, the array and the indices are in bijection, and the array has the registered events. */
    ghost predicate Valid()
      reads this, channels.Values
    {
      && channels.Keys == registered.Keys
      && (forall fd :: fd in channels ==> Slotted(fd))
      && (forall i :: 0 <= i < |pollfds| ==> pollfds[i].fd in channels && channels[pollfds[i].fd].index == i)
    }

    ghost predicate Slotted(fd: Fd)
      requires fd in channels && channels.Keys == registered.Keys
      reads this, channels.Values
    {
      var c := channels[fd];
      c.fd == fd && 0 <= c.index < |pollfds| && pollfds[c.index] == PollFd(fd, registered[fd])
    }

    /** The assertions of updateChannel: a channel never registered whose descriptor is free, or a registered one. */
    predicate Updatable(c: Channel)
      reads this, c
    {
      if c.index < 0 then c.fd !in channels else c.fd in channels && channels[c.fd] == c
    }

    constructor ()
      ensures Valid() && channels == map[] && registered == map[]
    {
      pollfds, channels, registered := [], map[], map[];
    }

    /** Registers the channel's events. */
    method UpdateChannel(c: Channel)
      requires Valid() && Updatable(c)
      modifies this, c`index
      ensures Valid() && channels == old(channels)[c.fd := c] && registered == old(registered)[c.fd := c.events]
    {
      hide Valid;
      if c.index < 0 {
        AddPollFd(c);
      } else {
        SetPollFd(c);
      }
    }

    method AddPollFd(c: Channel)
      requires Valid() && c.index < 0 && c.fd !in channels
      modifies this, c`index
      ensures Valid() && channels == old(channels)[c.fd := c] && registered == old(registered)[c.fd := c.events]
    {
      assert forall fd :: fd in channels ==> Slotted(fd) && channels[fd] != c;
      pollfds := pollfds + [PollFd(c.fd, c.events)];
      c.index := |pollfds| - 1;
      channels := channels[c.fd := c];
      registered := registered[c.fd := c.events];
    }

    method SetPollFd(c: Channel)
      requires Valid() && c.fd in channels && channels[c.fd] == c
      modifies this
      ensures Valid() && channels == old(channels) == old(channels)[c.fd := c]
      ensures registered == old(registered)[c.fd := c.events]
    {
      assert Slotted(c.fd);
      pollfds := pollfds[c.index := PollFd(c.fd, c.events)];
      assert channels[c.fd := c] == channels;
      registered := registered[c.fd := c.events];
    }

    /**
     * Takes the channel out, moving the last descriptor into its slot. The removed channel keeps its
     * index, so it cannot be updated again.
     */
    method RemoveChannel(c: Channel)
      requires Valid() && c.fd in channels && channels[c.fd] == c
      requires c.events == 0 && registered[c.fd] == c.events
      modifies this, channels.Values`index
      ensures Valid() && channels == old(channels) - {c.fd} && registered == old(registered) - {c.fd}
      ensures c.index == old(c.index) && !Updatable(c)
    {
      assert Slotted(c.fd);
      var idx := c.index;
      channels := channels - {c.fd};
      registered := registered - {c.fd};
      var last := |pollfds| - 1;
      if idx == last {
        pollfds := pollfds[..last];
      } else {
        var channelAtEndFd := pollfds[last].fd;
        pollfds := pollfds[idx := pollfds[last]][last := pollfds[idx]];
        channels[channelAtEndFd].index := idx;
        pollfds := pollfds[..last];
      }
    }

    /** What select is asked for: reading and writing as registered, errors of every registered descriptor. */
    lemma AsksAsRegistered(fd: Fd)
      requires Valid()
      ensures fd in Wanting(pollfds, READ_EVENT) <==> fd in registered && registered[fd] & 0x01 != 0
      ensures fd in Wanting(pollfds, WRITE_EVENT) <==> fd in registered && registered[fd] & 0x08 != 0
      ensures fd in Wanting(pollfds, ERROR_EVENT) <==> fd in registered
    {
      WantingExactly(pollfds, fd);
      hide Wanting;
      if fd in channels {
        assert Slotted(fd) && pollfds[channels[fd].index] in pollfds;
      }
      forall p | p in pollfds && p.fd == fd
        ensures fd in registered && p == PollFd(fd, registered[fd])
      {
        var i :| 0 <= i < |pollfds| && pollfds[i] == p;
        assert fd in channels && channels[fd].index == i && Slotted(fd);
      }
    }

    lemma FdsDistinct()
      requires Valid()
      ensures Distinct(pollfds)
    {
    }

    /**
     * Reports each ready channel once, in the order of the array, with its events; the count, which may
     * be larger than the number of ready channels, only ends the scan when none is left.
     */
    method FillActiveChannels(s: Selected) returns (active: seq<Channel>)
      requires Valid() && s.count == |s.rfds| + |s.wfds| + |s.efds|
      modifies channels.Values`revents
      ensures Valid() && Reported(active, ReadyFds(pollfds, s), s)
    {
      hide Valid;
      active := [];
      var it, numEvents := 0, s.count;
      ghost var fds: seq<Fd> := [];
      FdsDistinct();
      ReadyBound(pollfds, s);
      assert pollfds[0..] == pollfds && fds + ReadyFds(pollfds, s) == ReadyFds(pollfds, s);
      while it < |pollfds| && numEvents > 0
        invariant it <= |pollfds| && Valid() && |ReadyFds(pollfds[it..], s)| <= numEvents
        invariant Reported(active, fds, s)
        invariant fds + ReadyFds(pollfds[it..], s) == ReadyFds(pollfds, s)
      {
        ReadyNext(pollfds, it, s);
        Assoc(fds, [pollfds[it].fd], ReadyFds(pollfds[it + 1..], s));
        var revents := Revents(s, pollfds[it].fd);
        ReadyRevents(s, pollfds[it].fd);
        hide Revents;
        if revents > 0 {
          numEvents := numEvents - 1;
          ChannelOf(it);
          var channel := channels[pollfds[it].fd];
          SetRevents(channel, s, active, fds);
          active := active + [channel];
          fds := fds + [pollfds[it].fd];
        }
        it := it + 1;
      }
    }

    /** The assertions of the scan: the map has the descriptor, and its channel is the descriptor's. */
    lemma ChannelOf(i: nat)
      requires Valid() && i < |pollfds|
      ensures pollfds[i].fd in channels && channels[pollfds[i].fd].fd == pollfds[i].fd
    {
    }

    method SetRevents(c: Channel, s: Selected, ghost active: seq<Channel>, ghost fds: seq<Fd>)
      requires Valid() && c.fd in channels && channels[c.fd] == c && Reported(active, fds, s)
      modifies c`revents
      ensures Valid() && Reported(active + [c], fds + [c.fd], s)
    {
      c.revents := Revents(s, c.fd);
    }

    /** The channels of these descriptors, each with the events select reported for it. */
    ghost predicate Reported(active: seq<Channel>, fds: seq<Fd>, s: Selected)
      reads this, channels.Values
    {
      && |active| == |fds|
      && forall i :: 0 <= i < |active| ==>
           fds[i] in channels && active[i] == channels[fds[i]] && active[i].fd == fds[i] &&
           active[i].revents == Revents(s, fds[i])
    }

    /** What is reported: the registered channels with a ready descriptor, each once. */
    lemma EachReadyOnce(s: Selected, active: seq<Channel>)
      requires Valid() && Reported(active, ReadyFds(pollfds, s), s)
      ensures forall fd :: fd in channels && Ready(s, fd) ==> channels[fd] in active
      ensures forall c :: c in active ==> c.fd in channels && channels[c.fd] == c && Ready(s, c.fd)
      ensures forall i, j :: 0 <= i < j < |active| ==> active[i] != active[j]
    {
      FdsDistinct();
      ReadyOnce(pollfds, s);
      var fds := ReadyFds(pollfds, s);
      forall fd | fd in channels && Ready(s, fd)
        ensures channels[fd] in active
      {
        assert Slotted(fd);
        var i :| 0 <= i < |fds| && fds[i] == fd;
        assert active[i] == channels[fd];
      }
    }

    /**
     * Asks the kernel about every registered descriptor, by its events, and reports what is ready; on a
     * timeout or an error, nothing.
     */
    method Poll(select: (nat, set<Fd>, set<Fd>, set<Fd>) -> Selected)
      returns (active: seq<Channel>, ghost s: Selected, ghost nfds: nat)
      requires Valid()
      requires forall n, r, w, e :: Answers(select(n, r, w, e), r, w, e)
      modifies channels.Values`revents
      ensures Valid()
      ensures pollfds == [] ==> active == []
      ensures pollfds != [] ==> forall i :: 0 <= i < |pollfds| ==> pollfds[i].fd < nfds
      ensures pollfds != [] ==>
                s == select(nfds, Wanting(pollfds, READ_EVENT), Wanting(pollfds, WRITE_EVENT),
                    Wanting(pollfds, ERROR_EVENT))
      ensures pollfds != [] && s.count > 0 ==> Reported(active, ReadyFds(pollfds, s), s)
      ensures pollfds != [] && s.count <= 0 ==> active == []
    {
      hide Valid, Reported, Answers, Wanting;
      active := [];
      s, nfds := Selected(0, {}, {}, {}), 0;
      if pollfds == [] {
        return;
      }
      var rfds, wfds, efds, maxfd := BuildSets();
      var selected := select(maxfd + 1, rfds, wfds, efds);
      s, nfds := selected, maxfd + 1;
      if selected.count > 0 {
        assert Answers(selected, rfds, wfds, efds);
        Counted(selected, rfds, wfds, efds);
        active := FillActiveChannels(selected);
      }
    }

    /** The sets passed to select and the greatest descriptor in them. */
    method BuildSets() returns (rfds: set<Fd>, wfds: set<Fd>, efds: set<Fd>, maxfd: nat)
      ensures rfds == Wanting(pollfds, READ_EVENT) && wfds == Wanting(pollfds, WRITE_EVENT)
      ensures efds == Wanting(pollfds, ERROR_EVENT)
      ensures forall k :: 0 <= k < |pollfds| ==> pollfds[k].fd <= maxfd
    {
      hide Wants, Wanting;
      WantingNone();
      rfds, wfds, efds, maxfd := {}, {}, {}, 0;
      for i := 0 to |pollfds|
        invariant rfds == Wanting(pollfds[..i], READ_EVENT) && wfds == Wanting(pollfds[..i], WRITE_EVENT)
        invariant efds == Wanting(pollfds[..i], ERROR_EVENT)
        invariant forall k :: 0 <= k < i ==> pollfds[k].fd <= maxfd
      {
        var elem := pollfds[i];
        WantsBits(elem);
        WantingNext(pollfds, i, READ_EVENT);
        WantingNext(pollfds, i, WRITE_EVENT);
        WantingNext(pollfds, i, ERROR_EVENT);
        if elem.ev & READ_EVENT != 0 {
          rfds := rfds + {elem.fd};
        }
        if elem.ev & WRITE_EVENT != 0 {
          wfds := wfds + {elem.fd};
        }
        efds := efds + {elem.fd};
        if elem.fd > maxfd {
          maxfd := elem.fd;
        }
      }
      assert pollfds[..|pollfds|] == pollfds;
    }

    lemma Counted(s: Selected, rfds: set<Fd>, wfds: set<Fd>, efds: set<Fd>)
      requires Answers(s, rfds, wfds, efds) && s.count > 0
      ensures s.count == |s.rfds| + |s.wfds| + |s.efds|
    {
    }
  }

  lemma ReadyNext(pollfds: seq<PollFd>, it: nat, s: Selected)
    requires it < |pollfds|
    ensures ReadyFds(pollfds[it..], s) ==
            (if Ready(s, pollfds[it].fd) then [pollfds[it].fd] else []) + ReadyFds(pollfds[it + 1..], s)
  {
  }

  lemma Assoc(a: seq<Fd>, b: seq<Fd>, c: seq<Fd>)
    ensures a + (b + c) == a + b + c
    ensures a + ([] + c) == a + c
  {
  }
}
