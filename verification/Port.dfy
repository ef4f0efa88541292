/**
 * The sockets of one epoll port: the poll status of each of them, the update and the deleted queue, and the
 * poll groups. Every method runs with the port's lock held.
 */
module Port {
  import opened Sequences
  import Maps
  import opened Queues
  import opened PollGroups
  import opened SockEvents

  datatype PollStatus = Idle | Pending | Cancelled
  datatype Event = Event(data: int, events: Mask)

  /** How a poll request ended, as the completion packet tells. */
  datatype Completion = WasCancelled | Failed | NoHandles | Happened(afd: Mask)

  /** What afd_poll answered to a request. */
  datatype Submission = Submitted | SocketClosed | Rejected

  /** An added socket, an error return, or the assertion in port_get_iocp_handle failing. */
  datatype AddResult = Added | Refused | AssertionFailed

  const INVALID_SOCKET: int := 0xFFFF_FFFF_FFFF_FFFF

  predicate ValidSocket(socket: int) {
    socket != 0 && socket != INVALID_SOCKET
  }

  class Sock {
    const socket: int
    const group: PollGroup
    var userData: int
    var userEvents: Mask
    var pendingEvents: Mask
    var status: PollStatus
    var deletePending: bool

    constructor (socket: int, group: PollGroup)
      ensures this.socket == socket && this.group == group
      ensures userEvents == pendingEvents == {} && status == Idle && !deletePending
    {
      this.socket, this.group := socket, group;
      userData, userEvents, pendingEvents, status, deletePending := 0, {}, {}, Idle, false;
    }
  }

  /** The sockets that hold a slot of `g`. */
  ghost function Members(live: set<Sock>, g: PollGroup): set<Sock> {
    set s | s in live && s.group == g
  }

  lemma {:induction false} MembersPlus(live: set<Sock>, s: Sock, g: PollGroup)
    requires s !in live
    ensures |Members(live + {s}, g)| == |Members(live, g)| + if s.group == g then 1 else 0
  {
    if s.group == g {
      assert Members(live + {s}, g) == Members(live, g) + {s};
    } else {
      assert Members(live + {s}, g) == Members(live, g);
    }
  }

  lemma {:induction false} MembersMinus(live: set<Sock>, s: Sock, g: PollGroup)
    requires s in live
    ensures |Members(live - {s}, g)| == |Members(live, g)| - if s.group == g then 1 else 0
  {
    assert live - {s} + {s} == live;
    MembersPlus(live - {s}, s, g);
  }

  lemma {:induction false} MembersElsewhere(live: set<Sock>, h: PollGroup, g: PollGroup)
    requires g != h
    ensures Members(live - Members(live, h), g) == Members(live, g)
  {
  }

  /** `Counted(q, live)`: the counters of the groups in `q` tell how many sockets hold their slots. */
  ghost predicate Counted(q: seq<PollGroup>, live: set<Sock>)
    reads q
  {
    forall g | g in q :: g.size == |Members(live, g)|
  }

  /** Every socket holds exactly one slot, so the slots in use are the sockets. */
  lemma {:induction false} SlotsAreSockets(q: seq<PollGroup>, live: set<Sock>)
    requires NoDup(q) && Counted(q, live) && forall s | s in live :: s.group in q
    ensures Slots(q) == |live|
  {
    if q == [] {
      assert live == {};
    } else {
      var rest := live - Members(live, q[0]);
      Tail(q);
      forall g | g in q[1..] ensures g.size == |Members(rest, g)| {
        MembersElsewhere(live, q[0], g);
      }
      SlotsAreSockets(q[1..], rest);
      assert live == rest + Members(live, q[0]);
    }
  }

  lemma {:induction false} Tail(q: seq<PollGroup>)
    requires NoDup(q) && q != []
    ensures NoDup(q[1..]) && q[0] !in q[1..] && forall g | g in q && g != q[0] :: g in q[1..]
  {
    assert forall i | 0 <= i < |q| - 1 :: q[1..][i] == q[i + 1];
    assert q == [q[0]] + q[1..];
  }

  lemma {:induction false} Holding(live: set<Sock>, s: Sock)
    requires s in live
    ensures |Members(live, s.group)| > 0
  {
    assert s in Members(live, s.group);
  }

  lemma {:induction false} CountedMinus(q: seq<PollGroup>, live: set<Sock>, s: Sock)
    requires s in live && forall g | g in q :: g.size == |Members(live, g)| - if s.group == g then 1 else 0
    ensures Counted(q, live - {s})
  {
    forall g | g in q ensures g.size == |Members(live - {s}, g)| {
      MembersMinus(live, s, g);
    }
  }

  lemma {:induction false} CountedPlus(q: seq<PollGroup>, live: set<Sock>, s: Sock)
    requires s !in live && forall g | g in q :: g.size == |Members(live, g)| + if s.group == g then 1 else 0
    ensures Counted(q, live + {s})
  {
    forall g | g in q ensures g.size == |Members(live + {s}, g)| {
      MembersPlus(live, s, g);
    }
  }

  ghost predicate ListedIn(s: Sock, tree: map<int, Sock>, update: seq<Sock>, deleted: seq<Sock>)
    reads s
  {
    && (s.deletePending <==> s in deleted)
    && (!s.deletePending <==> s.socket in tree && tree[s.socket] == s)
    && (s in update ==> !s.deletePending)
  }

  lemma {:induction false} ListedAfterAdd(t: Sock, s: Sock, tree: map<int, Sock>, update: seq<Sock>, deleted: seq<Sock>)
    requires ListedIn(t, tree, update, deleted) && s.socket !in tree && s != t
    ensures ListedIn(t, tree[s.socket := s], update, deleted)
  {
  }

  /** What a completion says about the socket, before looking at what the user asked for. */
  function Found(c: Completion): Mask {
    match c
    case WasCancelled => {}
    case Failed => {EPOLLERR}
    case NoHandles => {}
    case Happened(afd) => ToEpoll(afd)
  }

  /** The completion leads to `s` being freed. */
  predicate Gone(s: Sock, c: Completion)
    reads s
  {
    s.deletePending || (c.Happened? && AFD_POLL_LOCAL_CLOSE in c.afd)
  }

  /** The event that the completion is turned into: requested events only, and nothing about a freed socket. */
  ghost function Reports(s: Sock, c: Completion): seq<Event>
    reads s
  {
    if Gone(s, c) || Found(c) * s.userEvents == {} then [] else [Event(s.userData, Found(c) * s.userEvents)]
  }

  /**
   * The completion calls for `e` to be reported: `e` is asked for, and an AFD event that a poll for `e` looks for has
   * happened, or the connect has failed, which counts as six events; or the request failed, which is an error.
   */
  ghost predicate Owed(s: Sock, c: Completion, e: nat)
    reads s
  {
    && !Gone(s, c) && e in s.userEvents
    && match c
       case Happened(afd) =>
         exists a | a in afd && a != AFD_POLL_LOCAL_CLOSE ::
           if a == AFD_POLL_CONNECT_FAIL
             then e in {EPOLLIN, EPOLLOUT, EPOLLERR, EPOLLRDNORM, EPOLLWRNORM, EPOLLRDHUP}
             else a in ToAfd({e})
       case Failed => e == EPOLLERR
       case _ => false
  }

  /** What is reported of an AFD mask, event by event. */
  lemma {:induction false} OwedIsReported(afd: Mask, e: nat)
    ensures e in ToEpoll(afd) <==>
      exists a | a in afd && a != AFD_POLL_LOCAL_CLOSE ::
        if a == AFD_POLL_CONNECT_FAIL
          then e in {EPOLLIN, EPOLLOUT, EPOLLERR, EPOLLRDNORM, EPOLLWRNORM, EPOLLRDHUP}
          else a in ToAfd({e})
  {
    hide ToEpoll, ToAfd;
    ReportsJoin(afd, e);
    forall a | a in afd
      ensures a == AFD_POLL_LOCAL_CLOSE ==> e !in ToEpoll({a})
      ensures a != AFD_POLL_LOCAL_CLOSE ==>
        (e in ToEpoll({a}) <==>
          if a == AFD_POLL_CONNECT_FAIL
            then e in {EPOLLIN, EPOLLOUT, EPOLLERR, EPOLLRDNORM, EPOLLWRNORM, EPOLLRDHUP}
            else a in ToAfd({e}))
    {
      ReportedFor(a, e);
      if a != AFD_POLL_LOCAL_CLOSE {
        AskedIsReported(a, e);
      }
    }
  }

  /** Exactly the events that are owed are reported. */
  lemma {:induction false} ReportsAreOwed(s: Sock, c: Completion)
    ensures |Reports(s, c)| <= 1
    ensures Reports(s, c) != [] ==> Reports(s, c)[0].data == s.userData && Reports(s, c)[0].events != {}
    ensures forall e :: Owed(s, c, e) <==> Reports(s, c) != [] && e in Reports(s, c)[0].events
  {
    hide ToEpoll, ToAfd;
    forall e ensures Owed(s, c, e) <==> Reports(s, c) != [] && e in Reports(s, c)[0].events {
      if c.Happened? {
        OwedIsReported(c.afd, e);
      }
      assert e in Found(c) && e in s.userEvents ==> e in Found(c) * s.userEvents;
    }
  }

  /** The event of a socket of a batch is among those of the batch. */
  lemma {:induction false} ReportsAmongAll(cs: seq<(Sock, Completion)>, i: nat)
    requires i < |cs|
    ensures forall v | v in Reports(cs[i].0, cs[i].1) :: v in AllReports(cs)
  {
    if i > 0 {
      ReportsAmongAll(cs[1..], i - 1);
    }
  }

  /** What is reported of a batch is owed to one of its sockets. */
  lemma {:induction false} AllReportsFrom(cs: seq<(Sock, Completion)>, v: Event)
    requires v in AllReports(cs)
    ensures exists i :: 0 <= i < |cs| && v in Reports(cs[i].0, cs[i].1)
  {
    if v in Reports(cs[0].0, cs[0].1) {
    } else {
      AllReportsFrom(cs[1..], v);
      var i :| 0 <= i < |cs[1..]| && v in Reports(cs[1..][i].0, cs[1..][i].1);
      assert v in Reports(cs[i + 1].0, cs[i + 1].1);
    }
  }

  /** `v` tells of what is owed to `s`, and of no more. */
  ghost predicate Settles(s: Sock, c: Completion, v: Event)
    reads s
  {
    v.data == s.userData && v.events != {} && forall e :: Owed(s, c, e) <==> e in v.events
  }

  /** Each socket that is owed something gets an event, and each event is that of a socket. */
  ghost predicate AllSettled(cs: seq<(Sock, Completion)>, events: seq<Event>)
    reads Socks(cs)
  {
    && (forall i, e | 0 <= i < |cs| && Owed(cs[i].0, cs[i].1, e) :: exists v | v in events :: Settles(cs[i].0, cs[i].1, v))
    && (forall v | v in events :: exists i | 0 <= i < |cs| :: Settles(cs[i].0, cs[i].1, v))
  }

  lemma {:induction false} AllReportsSettle(cs: seq<(Sock, Completion)>)
    ensures AllSettled(cs, AllReports(cs))
  {
    hide AllReports, Reports, Owed;
    var events := AllReports(cs);
    forall i, e | 0 <= i < |cs| && Owed(cs[i].0, cs[i].1, e)
      ensures exists v | v in events :: Settles(cs[i].0, cs[i].1, v)
    {
      ReportsAreOwed(cs[i].0, cs[i].1);
      ReportsAmongAll(cs, i);
      assert Settles(cs[i].0, cs[i].1, Reports(cs[i].0, cs[i].1)[0]);
    }
    forall v | v in events ensures exists i | 0 <= i < |cs| :: Settles(cs[i].0, cs[i].1, v) {
      AllReportsFrom(cs, v);
      var i :| 0 <= i < |cs| && v in Reports(cs[i].0, cs[i].1);
      ReportsAreOwed(cs[i].0, cs[i].1);
      assert Settles(cs[i].0, cs[i].1, v);
    }
  }

  function Socks(cs: seq<(Sock, Completion)>): set<Sock> {
    set c | c in cs :: c.0
  }

  /** At most one packet for each socket. */
  ghost predicate Batch(cs: seq<(Sock, Completion)>) {
    forall i, j | 0 <= i < j < |cs| :: cs[i].0 != cs[j].0
  }

  /** The events that a batch of packets is turned into, in order. */
  ghost function AllReports(cs: seq<(Sock, Completion)>): seq<Event>
    reads Socks(cs)
  {
    if cs == [] then [] else Reports(cs[0].0, cs[0].1) + AllReports(cs[1..])
  }

  /** What the user still asks for: nothing, after a report to a one-shot socket. */
  ghost function Left(s: Sock, c: Completion): Mask
    reads s
  {
    if Reports(s, c) != [] && EPOLLONESHOT in s.userEvents then {} else s.userEvents
  }

  /** The sockets that the packets lead to being freed. */
  ghost function GoneSocks(cs: seq<(Sock, Completion)>): set<Sock>
    reads Socks(cs)
  {
    set c | c in cs && Gone(c.0, c.1) :: c.0
  }

  lemma {:induction false} GoneAre(cs: seq<(Sock, Completion)>)
    requires Batch(cs)
    ensures forall i | 0 <= i < |cs| :: Gone(cs[i].0, cs[i].1) <==> cs[i].0 in GoneSocks(cs)
  {
    forall i | 0 <= i < |cs| ensures Gone(cs[i].0, cs[i].1) <==> cs[i].0 in GoneSocks(cs) {
      assert cs[i] in cs;
    }
  }

  /** What a completion does to its socket. */
  datatype Fate = Fate(gone: bool, left: Mask, told: seq<Event>)

  ghost function FateOf(s: Sock, c: Completion): Fate
    reads s
  {
    Fate(Gone(s, c), Left(s, c), Reports(s, c))
  }

  function Joined(fates: seq<Fate>): seq<Event> {
    if fates == [] then [] else fates[0].told + Joined(fates[1..])
  }

  /** What the packets of a batch will do, one by one. */
  lemma {:induction false} Foretell(cs: seq<(Sock, Completion)>) returns (fates: seq<Fate>)
    ensures |fates| == |cs| && AllReports(cs) == Joined(fates)
    ensures forall i | 0 <= i < |cs| :: fates[i] == FateOf(cs[i].0, cs[i].1)
  {
    fates := [];
    if cs != [] {
      fates := Foretell(cs[1..]);
      fates := [FateOf(cs[0].0, cs[0].1)] + fates;
      assert forall i | 0 < i < |cs| :: cs[i] == cs[1..][i - 1];
    }
  }

  lemma {:induction false} JoinedNext(done: seq<Event>, fates: seq<Fate>, i: nat)
    requires i < |fates|
    ensures done + Joined(fates[i..]) == done + fates[i].told + Joined(fates[i + 1..])
  {
    assert fates[i..][1..] == fates[i + 1..];
    Assoc(done, fates[i].told, Joined(fates[i + 1..]));
  }

  lemma {:induction false} FeedsApart(cs: seq<(Sock, Completion)>, i: nat)
    requires Batch(cs) && i < |cs|
    ensures cs[i].0 !in Socks(cs[..i]) && Socks(cs[..i + 1]) == Socks(cs[..i]) + {cs[i].0}
    ensures forall j | i < j < |cs| :: cs[j].0 != cs[i].0
  {
    assert cs[..i + 1] == cs[..i] + [cs[i]];
  }

  // ----- what the operations do to the sockets as a whole -----

  /** The sockets that exist, where they are listed, and what the system has been asked and has answered. */
  datatype Picture = Picture(
    live: set<Sock>, tree: map<int, Sock>, update: seq<Sock>, deleted: seq<Sock>,
    requests: multiset<Sock>, shut: multiset<Sock>)

  /**
   * What bringing the poll requests up to date does: the sockets that turn out to be closed are freed, and these
   * are `idle` ones; other idle ones may get a request. Every other socket is kept, with its request.
   */
  ghost predicate Updated(p: Picture, q: Picture, idle: set<Sock>) {
    && q.live <= p.live && p.live - idle <= q.live
    && p.shut <= q.shut && (forall s | s in p.live :: s in q.live <==> q.shut[s] == p.shut[s])
    && (forall s | s in p.live - idle :: q.requests[s] == p.requests[s])
    && (forall k | k in q.tree :: k in p.tree && q.tree[k] == p.tree[k])
    && (forall k | k in p.tree && p.tree[k] in q.live :: k in q.tree)
    && q.deleted == p.deleted
  }

  lemma {:induction false} UpdatedNothing(p: Picture, q: Picture, idle: set<Sock>)
    requires q.(update := p.update) == p
    ensures Updated(p, q, idle)
  {
  }

  /** Something happens to the request of an idle socket, or to the socket. */
  lemma {:induction false} UpdatedOne(p: Picture, q: Picture, s: Sock, idle: set<Sock>)
    requires q.deleted == p.deleted && s.socket in p.tree && p.tree[s.socket] == s && s in p.live
    requires (q.live == p.live && q.tree == p.tree && q.shut == p.shut)
      || (s in idle && q.live == p.live - {s} && q.tree == p.tree - {s.socket} && q.shut == p.shut + multiset{s})
    requires forall k | k in p.tree :: p.tree[k].socket == k
    requires q.requests == p.requests || (s in idle && q.requests == p.requests[s := 1])
    ensures Updated(p, q, idle)
  {
    if q.live != p.live {
      assert forall t | t in p.live :: t in q.live <==> t != s;
    }
  }

  lemma {:induction false} UpdatedTwice(p: Picture, q: Picture, r: Picture, idle: set<Sock>, still: set<Sock>)
    requires Updated(p, q, idle) && Updated(q, r, still) && still <= idle
    ensures Updated(p, r, idle)
  {
    forall s | s in p.live - idle ensures s in r.live {
      assert s in q.live - still;
    }
  }

  /** What the completion packets for the sockets in `fed` do: the `gone` ones are freed, the others ask for an update. */
  ghost predicate Fed(p: Picture, q: Picture, gone: set<Sock>, fed: set<Sock>) {
    && q.live == p.live - gone * fed
    && (forall s | s in p.live :: q.requests[s] == if s in fed then 0 else p.requests[s])
    && (forall k :: k in q.tree <==> k in p.tree && p.tree[k] !in gone * fed)
    && (forall k | k in q.tree :: q.tree[k] == p.tree[k])
    && (forall s | s in q.live :: s in q.update <==> s in p.update || s in fed)
    && (forall s | s in q.live :: s in q.deleted <==> s in p.deleted) && q.shut == p.shut
  }

  lemma {:induction false} FedNothing(p: Picture, q: Picture, gone: set<Sock>)
    requires p == q
    ensures Fed(p, q, gone, {})
  {
  }

  /** One more packet. */
  lemma {:induction false} FedMore(p: Picture, q: Picture, r: Picture, gone: set<Sock>, fed: set<Sock>, s: Sock)
    requires Fed(p, q, gone, fed) && s in q.live && s !in fed
    requires r.live == (if s in gone then q.live - {s} else q.live) && r.requests == q.requests[s := 0] && r.shut == q.shut
    requires forall k | k in q.tree :: q.tree[k].socket == k
    requires r.tree == if s in gone && s.socket in q.tree && q.tree[s.socket] == s then q.tree - {s.socket} else q.tree
    requires r.update == if s in gone then Without(q.update, s) else if s in q.update then q.update else q.update + [s]
    requires r.deleted == if s in gone then Without(q.deleted, s) else q.deleted
    requires NoDup(q.update) && NoDup(q.deleted)
    ensures Fed(p, r, gone, fed + {s})
  {
    WithoutMembers(q.update, s);
    WithoutMembers(q.deleted, s);
  }

  class Port {
    const groups: GroupQueue
    var sockTree: map<int, Sock>
    var updateQueue: seq<Sock>
    var deletedQueue: seq<Sock>
    var activePolls: nat
    var iocpOpen: bool
    ghost var live: set<Sock>            // allocated and not freed
    ghost var inFlight: multiset<Sock>   // AFD requests submitted and not delivered yet
    ghost var stale: bool                // the last update of all sockets stopped at an error
    ghost var refusals: nat              // how often the system has refused a request or a cancellation
    ghost var shut: multiset<Sock>       // for which sockets it has answered that they are closed

    /** A request is outstanding exactly when the status says so, and at most one is. */
    ghost predicate Kernel(s: Sock)
      reads this, s
    {
      && inFlight[s] == (if s.status == Idle then 0 else 1)
      && (s.status != Pending ==> s.pendingEvents == {})
      && Interest(s.userEvents)
    }

    /** Registered, or deleted and waiting in the deleted queue; only registered sockets ask for updates. */
    ghost predicate Listed(s: Sock)
      reads this, s
    {
      ListedIn(s, sockTree, updateQueue, deletedQueue)
    }

    /** A poll in progress looks for everything the user asked for. */
    ghost predicate Watched(s: Sock)
      reads s
    {
      s.status == Pending && Unmet(s.userEvents, s.pendingEvents) == {}
    }

    /** No interest is lost, and a deleted socket is kept only for the request it waits for. */
    ghost predicate Settled(s: Sock)
      reads this, s
    {
      if s.deletePending then s.status != Idle else s in updateQueue || s.status == Cancelled || Watched(s)
    }

    ghost predicate SockOk(s: Sock)
      reads this, s
    {
      Kernel(s) && Listed(s) && Settled(s)
    }

    ghost predicate Structure()
      reads this
    {
      && (forall k | k in sockTree :: sockTree[k] in live && sockTree[k].socket == k)
      && NoDup(updateQueue) && (forall s | s in updateQueue :: s in live)
      && NoDup(deletedQueue) && (forall s | s in deletedQueue :: s in live)
      && (forall s | s in inFlight :: s in live)
    }

    ghost function Groups(): set<PollGroup>
      reads groups
    {
      set g | g in groups.queue
    }

    ghost predicate Grouped()
      reads this, groups, groups.queue
    {
      && groups.Valid()
      && (forall s | s in live :: s.group in groups.queue)
      && Counted(groups.queue, live)
    }

    /** Everything in order, except that `e` may be on its way from one state to another. */
    ghost predicate ValidBut(e: Sock?)
      reads this, live, groups, groups.queue
    {
      Structure() && Grouped() && forall s | s in live && s != e :: SockOk(s)
    }

    ghost predicate Valid()
      reads this, live, groups, groups.queue
    {
      ValidBut(null)
    }

    /** port_new */
    constructor ()
      ensures Valid() && iocpOpen && sockTree == map[] && live == {} && activePolls == 0
      ensures fresh(groups) && groups.queue == [] && groups.peak == 0 && !stale
    {
      groups := new GroupQueue();
      sockTree, updateQueue, deletedQueue, activePolls, iocpOpen := map[], [], [], 0, true;
      live, inFlight, stale, refusals, shut := {}, multiset{}, false, 0, multiset{};
    }

    ghost function View(): Picture
      reads this
    {
      Picture(live, sockTree, updateQueue, deletedQueue, inFlight, shut)
    }

    ghost function IdleSocks(): set<Sock>
      reads this, live
    {
      set s | s in live && s.status == Idle
    }

    /** queue_remove on the node of `s`, wherever it is enqueued. */
    method Dequeue(s: Sock)
      requires ValidBut(s)
      modifies this`updateQueue, this`deletedQueue
      ensures ValidBut(s) && s !in updateQueue && s !in deletedQueue
      ensures updateQueue == Without(old(updateQueue), s) && deletedQueue == Without(old(deletedQueue), s)
    {
      WithoutMembers(updateQueue, s);
      WithoutMembers(deletedQueue, s);
      updateQueue, deletedQueue := Without(updateQueue, s), Without(deletedQueue, s);
      forall t | t in live && t != s ensures SockOk(t) {
        assert old(SockOk(t));
      }
    }

    /** port_request_socket_update */
    method RequestUpdate(s: Sock)
      requires ValidBut(s) && s in live && Kernel(s) && Listed(s) && !s.deletePending
      modifies this`updateQueue
      ensures Valid() && s in updateQueue
      ensures updateQueue == if s in old(updateQueue) then old(updateQueue) else old(updateQueue) + [s]
    {
      if s in updateQueue || s in deletedQueue {
        return;
      }
      updateQueue := updateQueue + [s];
      forall t | t in live && t != s ensures SockOk(t) {
        assert old(SockOk(t));
      }
    }

    /** sock__cancel_poll; CancelIoEx may fail. */
    method CancelPoll(s: Sock) returns (ok: bool)
      requires ValidBut(s) && s in live && Kernel(s) && s.status == Pending
      modifies s`status, s`pendingEvents, this`refusals
      ensures ValidBut(s) && Kernel(s)
      ensures ok ==> s.status == Cancelled && s.pendingEvents == {} && refusals == old(refusals)
      ensures !ok ==> unchanged(s) && refusals == old(refusals) + 1
    {
      ok := *;
      if ok {
        s.status, s.pendingEvents := Cancelled, {};
      } else {
        refusals := refusals + 1;
      }
    }

    method ReleaseSlot(s: Sock)
      requires Grouped() && s in live
      modifies groups`queue, s.group
      ensures groups.Valid() && Counted(groups.queue, live - {s})
      ensures forall t | t in live :: t.group in groups.queue
      ensures Groups() == old(Groups())
    {
      Holding(live, s);
      groups.Release(s.group);
      CountedMinus(groups.queue, live, s);
    }

    /** The packet for `s` will not be taken from the completion port any more. */
    ghost method Forget(s: Sock)
      requires ValidBut(s) && s in live
      modifies this`inFlight
      ensures ValidBut(s) && inFlight == old(inFlight)[s := 0]
    {
      inFlight := inFlight[s := 0];
      forall t | t in live && t != s ensures SockOk(t) {
        assert old(SockOk(t));
      }
    }

    /** The last part of sock__delete: the slot and the memory are given back. */
    method Free(s: Sock)
      requires ValidBut(s) && s in live && s !in updateQueue && s !in deletedQueue && inFlight[s] == 0
      requires forall k | k in sockTree :: sockTree[k] != s
      modifies this`live, groups`queue, s.group
      ensures Valid() && live == old(live) - {s}
      ensures Groups() == old(Groups())
    {
      ReleaseSlot(s);
      live := live - {s};
      forall t | t in live && t != s ensures SockOk(t) {
        assert old(SockOk(t));
      }
    }

    /** The first part of sock__delete: `s` leaves the tree and the update queue. */
    method Withdraw(s: Sock)
      requires ValidBut(s) && s in live && Kernel(s) && Listed(s) && !s.deletePending
      modifies this`sockTree, this`updateQueue, this`deletedQueue, this`refusals
      modifies s`status, s`pendingEvents, s`deletePending
      ensures ValidBut(s) && Kernel(s) && s.deletePending && s !in updateQueue && s !in deletedQueue
      ensures s.socket !in sockTree && sockTree == old(sockTree) - {s.socket}
      ensures updateQueue == Without(old(updateQueue), s) && deletedQueue == old(deletedQueue)
      ensures s.status == Idle <==> old(s.status) == Idle
      ensures s.status == Idle ==> refusals == old(refusals)
    {
      if s.status == Pending {
        var _ := CancelPoll(s);
      }
      WithoutAbsent(deletedQueue, s);
      Dequeue(s);
      Unregister(s);
    }

    /** port_unregister_socket, and the mark. */
    method Unregister(s: Sock)
      requires ValidBut(s) && s in live && Kernel(s) && s !in updateQueue && s !in deletedQueue
      requires s.socket in sockTree && sockTree[s.socket] == s
      modifies this`sockTree, s`deletePending
      ensures ValidBut(s) && Kernel(s) && s.deletePending
      ensures sockTree == old(sockTree) - {s.socket}
    {
      sockTree := sockTree - {s.socket};
      s.deletePending := true;
      forall t | t in live && t != s ensures SockOk(t) {
        assert old(SockOk(t));
      }
    }

    /** The last part of sock__delete: `s` is freed at once, or as soon as its request completes. */
    method Discard(s: Sock, force: bool)
      requires ValidBut(s) && s in live && Kernel(s) && s.deletePending && s !in updateQueue
      requires forall k | k in sockTree :: sockTree[k] != s
      modifies this`updateQueue, this`deletedQueue, this`live, this`inFlight, groups`queue, s.group
      ensures Valid() && updateQueue == old(updateQueue)
      ensures live == if force || s.status == Idle then old(live) - {s} else old(live)
      ensures inFlight == if force then old(inFlight)[s := 0] else old(inFlight)
      ensures deletedQueue == if force || s.status == Idle then Without(old(deletedQueue), s)
                              else if s in old(deletedQueue) then old(deletedQueue) else old(deletedQueue) + [s]
      ensures Groups() == old(Groups())
    {
      if force || s.status == Idle {
        WithoutAbsent(updateQueue, s);
        Dequeue(s);
        if force {
          Forget(s);
        }
        Free(s);
      } else {
        AddDeleted(s);
      }
    }

    /** port_add_deleted_socket */
    method AddDeleted(s: Sock)
      requires ValidBut(s) && s in live && Kernel(s) && s.deletePending && s.status != Idle && s !in updateQueue
      requires forall k | k in sockTree :: sockTree[k] != s
      modifies this`deletedQueue
      ensures Valid() && deletedQueue == if s in old(deletedQueue) then old(deletedQueue) else old(deletedQueue) + [s]
    {
      if s !in updateQueue && s !in deletedQueue {
        deletedQueue := deletedQueue + [s];
      }
    }

    /** sock__delete, by sock_delete and, with `force`, by sock_force_delete. */
    method Delete(s: Sock, force: bool)
      requires ValidBut(s) && s in live && Kernel(s) && Listed(s)
      modifies this`sockTree, this`updateQueue, this`deletedQueue, this`live, this`inFlight, this`refusals
      modifies s`status, s`pendingEvents, s`deletePending, groups`queue, s.group
      ensures Valid()
      ensures sockTree == if old(s.deletePending) then old(sockTree) else old(sockTree) - {s.socket}
      ensures updateQueue == Without(old(updateQueue), s)
      ensures live == if force || old(s.status) == Idle then old(live) - {s} else old(live)
      ensures inFlight == if force then old(inFlight)[s := 0] else old(inFlight)
      ensures deletedQueue == if force || old(s.status) == Idle then Without(old(deletedQueue), s)
                              else if s in old(deletedQueue) then old(deletedQueue) else old(deletedQueue) + [s]
      ensures old(s.status) == Idle ==> refusals == old(refusals)
      ensures Groups() == old(Groups())
    {
      hide Counted, Members, Orderly, Without;
      if !s.deletePending {
        Withdraw(s);
      } else {
        WithoutAbsent(updateQueue, s);
      }
      Discard(s, force);
    }

    ghost predicate AllFull()
      reads groups, groups.queue
    {
      forall g | g in groups.queue :: g.size == MAX_GROUP_SIZE
    }

    /**
     * Whether a socket is added: not twice, and only with a slot. A full set of groups calls for a new one,
     * which is refused for lack of memory and must not be asked for once the completion port is closed.
     */
    ghost function AddVerdict(socket: int, baseKnown: bool, canGroup: bool, canAllocate: bool): AddResult
      reads this, groups, groups.queue
    {
      if !ValidSocket(socket) || !baseKnown then Refused
      else if AllFull() && !iocpOpen then AssertionFailed
      else if (AllFull() && !canGroup) || !canAllocate || socket in sockTree then Refused
      else Added
    }

    /** A slot is taken for the new socket, which may turn out not to be made. */
    ghost predicate Claims(socket: int, baseKnown: bool, canGroup: bool)
      reads this, groups, groups.queue
    {
      ValidSocket(socket) && baseKnown && (!AllFull() || (iocpOpen && canGroup))
    }

    /** The most slots in use, when one more is taken. */
    ghost function PeakAfter(socket: int, baseKnown: bool, canGroup: bool): nat
      reads this, groups, groups.queue
    {
      if Claims(socket, baseKnown, canGroup) then Max(groups.peak, |live| + 1) else groups.peak
    }

    /** A slot of `g` is taken for a socket that does not exist yet. */
    ghost predicate Reserved(g: PollGroup)
      reads this, groups, groups.queue
    {
      && groups.Valid() && g in groups.queue
      && (forall s | s in live :: s.group in groups.queue)
      && (forall h | h in groups.queue :: h.size == |Members(live, h)| + if h == g then 1 else 0)
    }

    method Reserve(canAllocate: bool) returns (g: PollGroup?)
      requires Valid()
      modifies groups, Groups()
      ensures g == null <==> !canAllocate && old(AllFull())
      ensures g == null ==> Valid()
      ensures g != null ==> Reserved(g) && Structure() && forall s | s in live :: SockOk(s)
      ensures fresh(Groups() - old(Groups()))
      ensures groups.peak == if g != null then Max(old(groups.peak), |live| + 1) else old(groups.peak)
    {
      hide Slots;
      SlotsAreSockets(groups.queue, live);
      g := groups.Acquire(canAllocate);
      forall t | t in live ensures SockOk(t) {
        assert old(SockOk(t));
      }
      if g != null && g !in old(groups.queue) {
        assert Members(live, g) == {};
      }
    }

    method GiveBack(g: PollGroup)
      requires Reserved(g) && Structure() && forall s | s in live :: SockOk(s)
      modifies groups`queue, g
      ensures Valid() && Groups() == old(Groups())
    {
      groups.Release(g);
    }

    /** port_register_socket on a key that is free. */
    method Register(s: Sock)
      requires Reserved(s.group) && Structure() && (forall t | t in live :: SockOk(t))
      requires s !in live && s.socket !in sockTree && s.userEvents == s.pendingEvents == {} && s.status == Idle
      requires !s.deletePending
      modifies this`sockTree, this`live
      ensures ValidBut(s) && Kernel(s) && Listed(s) && s !in updateQueue
      ensures sockTree == old(sockTree)[s.socket := s] && live == old(live) + {s}
    {
      CountedPlus(groups.queue, live, s);
      sockTree, live := sockTree[s.socket := s], live + {s};
      forall t | t in live && t != s ensures SockOk(t) {
        assert old(SockOk(t));
        ListedAfterAdd(t, s, old(sockTree), updateQueue, deletedQueue);
      }
    }

    /** The checks of sock_new, up to a slot in a poll group. */
    method Claim(socket: int, baseKnown: bool, canGroup: bool) returns (failed: bool, g: PollGroup?)
      requires Valid()
      modifies groups, Groups()
      ensures failed <==> ValidSocket(socket) && baseKnown && !iocpOpen && old(AllFull())
      ensures g != null <==> old(Claims(socket, baseKnown, canGroup))
      ensures groups.peak == old(PeakAfter(socket, baseKnown, canGroup))
      ensures g == null ==> Valid()
      ensures g != null ==> Reserved(g) && Structure() && forall s | s in live :: SockOk(s)
      ensures fresh(Groups() - old(Groups()))
    {
      failed, g := false, null;
      if ValidSocket(socket) && baseKnown {
        failed := !iocpOpen && forall h | h in groups.queue :: h.size == MAX_GROUP_SIZE;
        if !failed {
          g := Reserve(canGroup);
        }
      }
    }

    /** The rest of sock_new: a socket for the slot, or the slot given back. */
    method Occupy(socket: int, g: PollGroup, canAllocate: bool) returns (s: Sock?)
      requires Reserved(g) && Structure() && (forall t | t in live :: SockOk(t))
      modifies this`sockTree, this`live, groups`queue, g
      ensures s != null <==> canAllocate && socket !in old(sockTree)
      ensures s == null ==> Valid() && sockTree == old(sockTree) && live == old(live)
      ensures s != null ==>
        && fresh(s) && ValidBut(s) && Kernel(s) && Listed(s) && s !in updateQueue && s.socket == socket
        && sockTree == old(sockTree)[socket := s] && live == old(live) + {s}
      ensures Groups() == old(Groups())
    {
      s := null;
      if !canAllocate || socket in sockTree {
        GiveBack(g);
      } else {
        s := MakeSock(socket, g);
      }
    }

    /**
     * sock_new. `baseKnown`: the base socket was found; `canGroup`, `canAllocate`: a new group and the socket
     * can be made. Making a group asserts that the completion port has not been closed.
     */
    method NewSock(socket: int, baseKnown: bool, canGroup: bool, canAllocate: bool) returns (r: AddResult, s: Sock?)
      requires Valid()
      modifies this`sockTree, this`live, groups, Groups()
      ensures r == old(AddVerdict(socket, baseKnown, canGroup, canAllocate))
      ensures r == Added <==> s != null
      ensures groups.peak == old(PeakAfter(socket, baseKnown, canGroup))
      ensures s == null ==> Valid() && sockTree == old(sockTree) && live == old(live)
      ensures s != null ==>
        && fresh(s) && ValidBut(s) && Kernel(s) && Listed(s) && s !in updateQueue && s.socket == socket
        && sockTree == old(sockTree)[socket := s] && live == old(live) + {s}
      ensures fresh(Groups() - old(Groups()))
    {
      s := null;
      var failed, g := Claim(socket, baseKnown, canGroup);
      if g != null {
        s := Occupy(socket, g, canAllocate);
      }
      r := if failed then AssertionFailed else if s == null then Refused else Added;
    }

    method MakeSock(socket: int, g: PollGroup) returns (s: Sock)
      requires Reserved(g) && Structure() && (forall t | t in live :: SockOk(t)) && socket !in sockTree
      modifies this`sockTree, this`live
      ensures fresh(s) && ValidBut(s) && Kernel(s) && Listed(s) && s !in updateQueue && s.socket == socket
      ensures sockTree == old(sockTree)[socket := s] && live == old(live) + {s}
    {
      s := new Sock(socket, g);
      Register(s);
    }

    /** What the user asks for `s`; errors and hang-ups are always asked for. */
    ghost predicate Asks(s: Sock, events: Mask, data: int)
      reads s`userEvents, s`userData
    {
      s.userEvents == events + {EPOLLERR, EPOLLHUP} && s.userData == data
    }

    /** sock_set_event */
    method SetEvent(s: Sock, events: Mask, data: int)
      requires ValidBut(s) && s in live && Kernel(s) && Listed(s) && !s.deletePending
      modifies s`userEvents, s`userData, this`updateQueue
      ensures Valid() && Asks(s, events, data)
      ensures updateQueue ==
        if s in old(updateQueue) || Unmet(s.userEvents, s.pendingEvents) == {} then old(updateQueue)
        else old(updateQueue) + [s]
    {
      s.userEvents, s.userData := events + {EPOLLERR, EPOLLHUP}, data;
      FreshInterest(events);
      if Unmet(s.userEvents, s.pendingEvents) != {} {
        RequestUpdate(s);
      }
    }

    /** sock_update, for the socket at the front of the update queue. */
    method UpdateSock(s: Sock) returns (ok: bool)
      requires Valid() && s in updateQueue
      modifies this`sockTree, this`updateQueue, this`deletedQueue, this`live, this`inFlight, this`refusals, this`shut
      modifies s`status, s`pendingEvents, s`deletePending, groups`queue, s.group
      ensures Valid() && old(refusals) <= refusals && (ok <==> refusals == old(refusals)) && deletedQueue == old(deletedQueue)
      ensures !ok ==> View() == old(View()) && unchanged(s) && groups.queue == old(groups.queue)
      ensures ok ==> updateQueue == Without(old(updateQueue), s)
      ensures (live == old(live) && sockTree == old(sockTree) && shut == old(shut))
        || (ok && live == old(live) - {s} && sockTree == old(sockTree) - {s.socket} && shut == old(shut) + multiset{s}
            && old(s.status) == Idle)
      ensures inFlight == if ok && s in live && old(s.status) == Idle then old(inFlight)[s := 1] else old(inFlight)
      ensures ok && s in live ==> Watched(s) || s.status == Cancelled
      ensures Groups() == old(Groups())
    {
      assert SockOk(s);
      if s.status == Idle {
        ok := StartPoll(s);
      } else {
        ok := ReviewPoll(s);
      }
    }

    /** sock_update while a request is outstanding: a poll that looks for too little is cancelled. */
    method ReviewPoll(s: Sock) returns (ok: bool)
      requires Valid() && s in updateQueue && s.status != Idle
      modifies this`updateQueue, this`deletedQueue, this`refusals, s`status, s`pendingEvents
      ensures Valid() && old(refusals) <= refusals && (ok <==> refusals == old(refusals)) && deletedQueue == old(deletedQueue)
      ensures !ok ==> updateQueue == old(updateQueue) && unchanged(s)
      ensures ok ==> updateQueue == Without(old(updateQueue), s) && (Watched(s) || s.status == Cancelled)
    {
      assert SockOk(s);
      ok := true;
      if s.status == Pending && Unmet(s.userEvents, s.pendingEvents) != {} {
        ok := CancelPoll(s);
      }
      if !ok {
        return;
      }
      WithoutAbsent(deletedQueue, s);
      Dequeue(s);
      assert SockOk(s);
    }

    /** sock_update without a request outstanding: a new poll, unless the socket turns out to be closed. */
    method StartPoll(s: Sock) returns (ok: bool)
      requires Valid() && s in updateQueue && s.status == Idle
      modifies this`sockTree, this`updateQueue, this`deletedQueue, this`live, this`inFlight, this`refusals, this`shut
      modifies s`status, s`pendingEvents, s`deletePending, groups`queue, s.group
      ensures Valid() && old(refusals) <= refusals && (ok <==> refusals == old(refusals)) && deletedQueue == old(deletedQueue)
      ensures !ok ==> View() == old(View()) && unchanged(s) && groups.queue == old(groups.queue)
      ensures ok ==> updateQueue == Without(old(updateQueue), s)
      ensures (live == old(live) && sockTree == old(sockTree) && shut == old(shut))
        || (ok && live == old(live) - {s} && sockTree == old(sockTree) - {s.socket} && shut == old(shut) + multiset{s})
      ensures inFlight == if ok && s in live then old(inFlight)[s := 1] else old(inFlight)
      ensures ok && s in live ==> Watched(s)
      ensures Groups() == old(Groups())
    {
      hide Counted, Members, Orderly, Without;
      assert SockOk(s);
      WithoutAbsent(deletedQueue, s);
      var answer: Submission := *;
      match answer {
        case SocketClosed =>
          shut := shut + multiset{s};
          Delete(s, false);
          return true;
        case Rejected =>
          refusals := refusals + 1;
          return false;
        case Submitted =>
          Launch(s);
          return true;
      }
    }

    method Launch(s: Sock)
      requires Valid() && s in updateQueue && s.status == Idle
      modifies this`updateQueue, this`deletedQueue, this`inFlight, s`status, s`pendingEvents
      ensures Valid() && Watched(s) && updateQueue == Without(old(updateQueue), s)
      ensures inFlight == old(inFlight)[s := 1] && deletedQueue == Without(old(deletedQueue), s)
    {
      assert SockOk(s);
      Submit(s);
      Dequeue(s);
      assert SockOk(s);
    }

    /** The request for an idle socket is on its way. */
    method Submit(s: Sock)
      requires ValidBut(s) && s in live && Kernel(s) && s.status == Idle
      modifies this`inFlight, s`status, s`pendingEvents
      ensures ValidBut(s) && Kernel(s) && Watched(s) && inFlight == old(inFlight)[s := 1]
    {
      NoneUnmet(s.userEvents);
      inFlight := inFlight[s := 1];
      s.status, s.pendingEvents := Pending, s.userEvents;
      forall t | t in live && t != s ensures SockOk(t) {
        assert old(SockOk(t));
      }
    }

    ghost method Note(failed: bool)
      requires Valid()
      modifies this`stale
      ensures Valid() && stale == failed
    {
      stale := failed;
    }

    /** While threads wait in the completion port, no socket waits for an update, unless one has failed. */
    ghost predicate Awake()
      reads this
    {
      activePolls == 0 || stale || updateQueue == []
    }

    /**
     * port__update_events: ends with an empty queue or, if the system refuses something, at once. Nothing happens to
     * a socket that is not queued.
     */
    method UpdateEvents() returns (ok: bool)
      requires Valid()
      modifies this`sockTree, this`updateQueue, this`deletedQueue, this`live, this`inFlight
      modifies this`stale, this`refusals, this`shut
      modifies live`status, live`pendingEvents, live`deletePending, groups`queue, Groups()
      ensures Valid() && stale == !ok && old(refusals) <= refusals && (ok <==> refusals == old(refusals))
      ensures ok ==> updateQueue == [] && forall k | k in sockTree :: Watched(sockTree[k]) || sockTree[k].status == Cancelled
      ensures Updated(old(View()), View(), old(IdleSocks())) && IdleSocks() <= old(IdleSocks()) && live <= old(live)
      ensures forall s | s in updateQueue :: s in old(updateQueue)
      ensures forall s | s in old(live) && s !in old(updateQueue) :: unchanged(s)
      ensures Groups() == old(Groups())
    {
      hide Port.Valid, Updated;
      ghost var idle := IdleSocks();
      UpdatedNothing(View(), View(), idle);
      while updateQueue != []
        invariant Valid() && Updated(old(View()), View(), idle) && IdleSocks() <= idle && live <= old(live)
        invariant refusals == old(refusals)
        invariant forall s | s in updateQueue :: s in old(updateQueue)
        invariant forall s | s in old(live) && s !in old(updateQueue) :: unchanged(s)
        invariant Groups() == old(Groups())
        decreases |updateQueue|
      {
        ok := UpdateNext(idle, old(View()));
        if !ok {
          Note(true);
          return;
        }
      }
      ok := true;
      Note(false);
      NothingQueued();
    }

    lemma {:induction false} NothingQueued()
      requires Valid() && updateQueue == []
      ensures forall k | k in sockTree :: Watched(sockTree[k]) || sockTree[k].status == Cancelled
    {
      forall k | k in sockTree ensures Watched(sockTree[k]) || sockTree[k].status == Cancelled {
        assert SockOk(sockTree[k]);
      }
    }

    lemma {:induction false} FirstQueued()
      requires Valid() && updateQueue != []
      ensures
        var s := updateQueue[0];
        && s in live && s.socket in sockTree && sockTree[s.socket] == s && s.group in Groups() && NoDup(updateQueue)
      ensures forall k | k in sockTree :: sockTree[k].socket == k
    {
      assert SockOk(updateQueue[0]);
    }

    /** One turn of the loop. */
    method UpdateNext(ghost idle: set<Sock>, ghost before: Picture) returns (ok: bool)
      requires Valid() && updateQueue != [] && Updated(before, View(), idle) && IdleSocks() <= idle
      modifies this`sockTree, this`updateQueue, this`deletedQueue, this`live, this`inFlight, this`refusals, this`shut
      modifies live`status, live`pendingEvents, live`deletePending, groups`queue, Groups()
      ensures Valid() && Updated(before, View(), idle) && IdleSocks() <= idle && Groups() == old(Groups())
      ensures live <= old(live) && forall t | t in old(live) && t != old(updateQueue[0]) :: unchanged(t)
      ensures old(refusals) <= refusals && (ok <==> refusals == old(refusals))
      ensures (ok ==> |updateQueue| < |old(updateQueue)|) && forall s | s in updateQueue :: s in old(updateQueue)
    {
      hide Port.Valid, Updated;
      var s := updateQueue[0];
      ghost var p := View();
      FirstQueued();
      WithoutMembers(updateQueue, s);
      ok := UpdateSock(s);
      UpdatedOne(p, View(), s, idle);
      UpdatedTwice(before, p, View(), idle, idle);
    }

    /** A completion packet for `s` arrives: its request is not outstanding any more. */
    method Arrive(s: Sock)
      requires Valid() && s in inFlight
      modifies this`inFlight, s`status, s`pendingEvents
      ensures s in live && ValidBut(s) && Kernel(s) && Listed(s) && s.status == Idle
      ensures inFlight == old(inFlight)[s := 0]
    {
      assert SockOk(s);
      inFlight := inFlight[s := 0];
      s.status, s.pendingEvents := Idle, {};
      forall t | t in live && t != s ensures SockOk(t) {
        assert old(SockOk(t));
      }
    }

    /** Requeue the socket, and tell the user what was asked for. */
    method Report(s: Sock, found: Mask) returns (events: seq<Event>)
      requires ValidBut(s) && s in live && Kernel(s) && Listed(s) && !s.deletePending
      modifies this`updateQueue, s`userEvents
      ensures Valid() && s in updateQueue
      ensures updateQueue == if s in old(updateQueue) then old(updateQueue) else old(updateQueue) + [s]
      ensures
        var asked := old(s.userEvents);
        && events == (if found * asked == {} then [] else [Event(s.userData, found * asked)])
        && s.userEvents == if events != [] && EPOLLONESHOT in asked then {} else asked
    {
      RequestUpdate(s);
      var asked := found * s.userEvents;
      if asked == {} {
        return [];
      }
      events := [Event(s.userData, asked)];
      if EPOLLONESHOT in s.userEvents {
        SilenceSock(s);
      }
    }

    /** A one-shot event turns everything off, errors and hang-ups included. */
    method SilenceSock(s: Sock)
      requires Valid() && s in updateQueue
      modifies s`userEvents
      ensures Valid() && s.userEvents == {}
    {
      assert SockOk(s);
      s.userEvents := {};
      forall t | t in live && t != s ensures SockOk(t) {
        assert old(SockOk(t));
      }
    }

    /** sock_feed_event */
    method FeedEvent(s: Sock, c: Completion) returns (events: seq<Event>)
      requires Valid() && s in inFlight
      modifies this`sockTree, this`updateQueue, this`deletedQueue, this`live, this`inFlight, this`refusals
      modifies s`status, s`pendingEvents, s`deletePending, s`userEvents, groups`queue, s.group
      ensures Valid() && inFlight == old(inFlight)[s := 0] && refusals == old(refusals) && Groups() == old(Groups())
      ensures live == if old(Gone(s, c)) then old(live) - {s} else old(live)
      ensures events == old(Reports(s, c)) && |events| <= 1
      ensures forall e :: old(Owed(s, c, e)) <==> events != [] && e in events[0].events
      ensures events != [] ==> events[0].data == old(s.userData) && events[0].events != {}
      ensures s in live <==> !old(s.deletePending) && !(c.Happened? && AFD_POLL_LOCAL_CLOSE in c.afd)
      ensures s in live ==>
        s.userEvents == if events != [] && EPOLLONESHOT in old(s.userEvents) then {} else old(s.userEvents)
      ensures sockTree == if old(Gone(s, c) && !s.deletePending) then old(sockTree) - {s.socket} else old(sockTree)
      ensures updateQueue == if old(Gone(s, c)) then Without(old(updateQueue), s)
                             else if s in old(updateQueue) then old(updateQueue) else old(updateQueue) + [s]
      ensures deletedQueue == if old(Gone(s, c)) then Without(old(deletedQueue), s) else old(deletedQueue)
      ensures !old(Gone(s, c)) ==> s in updateQueue && s.status == Idle && s.userEvents == old(Left(s, c))
    {
      hide Counted, Found, Members, Orderly, Owed, Without;
      ReportsAreOwed(s, c);
      Arrive(s);
      if s.deletePending || (c.Happened? && AFD_POLL_LOCAL_CLOSE in c.afd) {
        Delete(s, false);
        events := [];
      } else {
        events := Report(s, Found(c));
      }
    }

    /** One packet for each of some sockets with an outstanding request. */
    ghost predicate Awaited(cs: seq<(Sock, Completion)>)
      reads this`inFlight
    {
      Batch(cs) && forall i | 0 <= i < |cs| :: cs[i].0 in inFlight
    }

    /** The packets from `i` on have not been fed: what they will do is known. */
    ghost predicate Ahead(cs: seq<(Sock, Completion)>, i: nat, fates: seq<Fate>)
      requires |fates| == |cs|
      reads this`inFlight, Socks(cs)
    {
      forall j | i <= j < |cs| :: cs[j] in cs && cs[j].0 in inFlight && FateOf(cs[j].0, cs[j].1) == fates[j]
    }

    /** The packets before `i` have been fed. */
    ghost predicate Behind(cs: seq<(Sock, Completion)>, i: nat, fates: seq<Fate>)
      requires i <= |fates| == |cs|
      reads Socks(cs)
    {
      forall j | 0 <= j < i ::
        cs[j] in cs && (!fates[j].gone ==> cs[j].0.status == Idle && cs[j].0.userEvents == fates[j].left)
    }

    /** A completion packet refers to a socket that exists, and is listed. */
    lemma {:induction false} Delivered(s: Sock)
      requires Valid() && s in inFlight
      ensures s in live && s.group in Groups() && NoDup(updateQueue) && NoDup(deletedQueue)
      ensures !s.deletePending <==> s.socket in sockTree && sockTree[s.socket] == s
      ensures forall k | k in sockTree :: sockTree[k].socket == k
    {
      assert SockOk(s);
    }

    /** One packet of a batch is fed; the others are not affected. */
    method FeedAt(cs: seq<(Sock, Completion)>, i: nat, ghost before: Picture, ghost gone: set<Sock>, ghost fates: seq<Fate>)
      returns (events: seq<Event>)
      requires Valid() && i < |cs| == |fates| && Batch(cs) && (fates[i].gone <==> cs[i].0 in gone)
      requires Ahead(cs, i, fates) && Behind(cs, i, fates) && Fed(before, View(), gone, Socks(cs[..i]))
      modifies this`sockTree, this`updateQueue, this`deletedQueue, this`live, this`inFlight, this`refusals
      modifies {cs[i].0}`status, {cs[i].0}`pendingEvents, {cs[i].0}`deletePending, {cs[i].0}`userEvents
      modifies groups`queue, Groups()
      ensures Valid() && refusals == old(refusals) && Groups() == old(Groups()) && live <= old(live)
      ensures Ahead(cs, i + 1, fates) && Behind(cs, i + 1, fates)
      ensures Fed(before, View(), gone, Socks(cs[..i + 1])) && events == fates[i].told
    {
      hide Fed, Gone, Left, Reports, Port.Valid, Without;
      var (s, c) := cs[i];
      ghost var p := View();
      FeedsApart(cs, i);
      assert FateOf(s, c) == fates[i];
      Delivered(s);
      events := FeedEvent(s, c);
      FedMore(before, p, View(), gone, Socks(cs[..i]), s);
    }

    /** port__feed_events, on a batch of completion packets. */
    method FeedEvents(cs: seq<(Sock, Completion)>) returns (events: seq<Event>)
      requires Valid() && Awaited(cs)
      modifies this`sockTree, this`updateQueue, this`deletedQueue, this`live, this`inFlight, this`refusals
      modifies Socks(cs)`status, Socks(cs)`pendingEvents, Socks(cs)`deletePending, Socks(cs)`userEvents
      modifies groups`queue, Groups()
      ensures Valid() && events == old(AllReports(cs)) && refusals == old(refusals) && Groups() == old(Groups())
      ensures old(AllSettled(cs, events))
      ensures live <= old(live) && Fed(old(View()), View(), old(GoneSocks(cs)), Socks(cs))
      ensures forall i | 0 <= i < |cs| && !old(Gone(cs[i].0, cs[i].1)) ::
        cs[i].0.status == Idle && cs[i].0.userEvents == old(Left(cs[i].0, cs[i].1))
    {
      hide AllReports, AllSettled, Fed, Left, Port.Valid, Reports;
      AllReportsSettle(cs);
      events := [];
      ghost var before, gone := View(), GoneSocks(cs);
      ghost var fates := Foretell(cs);
      GoneAre(cs);
      FedNothing(before, View(), gone);
      assert Socks(cs[..0]) == {} && fates[0..] == fates;
      for i := 0 to |cs|
        invariant Valid() && refusals == old(refusals) && Groups() == old(Groups()) && live <= old(live)
        invariant Ahead(cs, i, fates) && Behind(cs, i, fates) && Fed(before, View(), gone, Socks(cs[..i]))
        invariant events + Joined(fates[i..]) == Joined(fates)
      {
        assert cs[i] in cs;
        JoinedNext(events, fates, i);
        var more := FeedAt(cs, i, before, gone, fates);
        events := events + more;
      }
      assert cs[..|cs|] == cs && fates[|cs|..] == [];
    }

    /** port__update_events_if_polling */
    method UpdateEventsIfPolling()
      requires Valid()
      modifies this`sockTree, this`updateQueue, this`deletedQueue, this`live, this`inFlight
      modifies this`stale, this`refusals, this`shut
      modifies live`status, live`pendingEvents, live`deletePending, groups`queue, Groups()
      ensures Valid() && Awake() && Groups() == old(Groups()) && old(refusals) <= refusals
      ensures Updated(old(View()), View(), old(IdleSocks())) && IdleSocks() <= old(IdleSocks()) && live <= old(live)
      ensures forall s | s in old(live) && s !in old(updateQueue) :: unchanged(s)
      ensures forall s | s in old(live) :: s.userEvents == old(s.userEvents) && s.userData == old(s.userData)
      ensures activePolls == 0 ==> unchanged(this) && unchanged(live)
    {
      hide Port.Valid, Updated;
      UpdatedNothing(View(), View(), IdleSocks());
      if activePolls > 0 {
        var _ := UpdateEvents();
      }
    }

    /** port__ctl_add, up to the update. */
    method AddSock(socket: int, events: Mask, data: int, baseKnown: bool, canGroup: bool, canAllocate: bool)
      returns (r: AddResult, s: Sock?)
      requires Valid()
      modifies this`sockTree, this`live, this`updateQueue, groups, Groups()
      ensures Valid() && r == old(AddVerdict(socket, baseKnown, canGroup, canAllocate))
      ensures s != null <==> r == Added
      ensures groups.peak == old(PeakAfter(socket, baseKnown, canGroup))
      ensures s == null ==> sockTree == old(sockTree) && live == old(live) && updateQueue == old(updateQueue)
      ensures s != null ==>
        && fresh(s) && Asks(s, events, data)
        && sockTree == old(sockTree)[socket := s] && live == old(live) + {s} && updateQueue == old(updateQueue) + [s]
      ensures fresh(Groups() - old(Groups()))
    {
      r, s := NewSock(socket, baseKnown, canGroup, canAllocate);
      if s != null {
        SetEvent(s, events, data);
        FreshInterest(events);
      }
    }

    /** port__ctl_add */
    method CtlAdd(socket: int, events: Mask, data: int, baseKnown: bool, canGroup: bool, canAllocate: bool)
      returns (r: AddResult, ghost s: Sock?)
      requires Valid()
      modifies this`sockTree, this`updateQueue, this`deletedQueue, this`live, this`inFlight
      modifies this`stale, this`refusals, this`shut
      modifies live`status, live`pendingEvents, live`deletePending, groups, Groups()
      ensures Valid() && r == old(AddVerdict(socket, baseKnown, canGroup, canAllocate))
      ensures old(Awake()) ==> Awake()
      ensures s != null <==> r == Added
      ensures groups.peak == old(PeakAfter(socket, baseKnown, canGroup))
      ensures s == null ==> unchanged(this) && unchanged(old(live))
      ensures s != null ==>
        var p := old(View()).(live := old(live) + {s}, tree := old(sockTree)[socket := s], update := old(updateQueue) + [s]);
        && fresh(s) && Asks(s, events, data) && Updated(p, View(), old(IdleSocks()) + {s})
        && (activePolls == 0 ==> View() == p)
      ensures forall t | t in old(live) && t !in old(updateQueue) :: unchanged(t)
    {
      hide Port.Valid, Updated;
      var made: Sock?;
      r, made := AddSock(socket, events, data, baseKnown, canGroup, canAllocate);
      s := made;
      if made != null {
        ghost var p, idle := View(), IdleSocks();
        UpdatedNothing(p, p, old(IdleSocks()) + {made});
        UpdateEventsIfPolling();
        UpdatedTwice(p, p, View(), old(IdleSocks()) + {made}, idle);
      }
    }

    /** The socket that is registered under `socket`. */
    lemma {:induction false} FoundSocket(socket: int)
      requires Valid() && socket in sockTree
      ensures
        var s := sockTree[socket];
        s in live && Kernel(s) && Listed(s) && !s.deletePending
    {
      assert SockOk(sockTree[socket]);
    }

    function Registered(socket: int): set<Sock>
      reads this`sockTree
    {
      if socket in sockTree then {sockTree[socket]} else {}
    }

    /** The update queue when `events` are asked for: the socket joins it if nobody looks for some of them. */
    ghost function QueueAfter(socket: int, events: Mask): seq<Sock>
      reads this`sockTree, this`updateQueue, Registered(socket)
    {
      if socket !in sockTree || sockTree[socket] in updateQueue
        || Unmet(events + {EPOLLERR, EPOLLHUP}, sockTree[socket].pendingEvents) == {} then updateQueue
      else updateQueue + [sockTree[socket]]
    }

    /** port__ctl_mod, up to the update. */
    method ModSock(socket: int, events: Mask, data: int) returns (ok: bool)
      requires Valid()
      modifies this`updateQueue, Registered(socket)`userEvents, Registered(socket)`userData
      ensures Valid()
      ensures ok <==> socket in sockTree
      ensures !ok ==> unchanged(this) && unchanged(live)
      ensures ok ==> Asks(sockTree[socket], events, data)
      ensures updateQueue == old(QueueAfter(socket, events)) && IdleSocks() == old(IdleSocks())
    {
      ok := socket in sockTree;
      if ok {
        FoundSocket(socket);
        SetEvent(sockTree[socket], events, data);
      }
    }

    /** port__ctl_mod */
    method CtlMod(socket: int, events: Mask, data: int) returns (ok: bool)
      requires Valid()
      modifies this`sockTree, this`updateQueue, this`deletedQueue, this`live, this`inFlight
      modifies this`stale, this`refusals, this`shut
      modifies live`status, live`pendingEvents, live`deletePending, groups`queue, Groups()
      modifies Registered(socket)`userEvents, Registered(socket)`userData
      ensures Valid() && Updated(old(View()), View(), old(IdleSocks()))
      ensures forall t | t in old(live) && t !in old(updateQueue) && t !in old(Registered(socket)) :: unchanged(t)
      ensures old(Awake()) ==> Awake()
      ensures ok <==> socket in old(sockTree)
      ensures !ok ==> unchanged(this) && unchanged(live)
      ensures ok && socket in sockTree ==>
        Asks(sockTree[socket], events, data)
      ensures activePolls == 0 ==> View() == old(View()).(update := old(QueueAfter(socket, events)))
    {
      hide Port.Valid, Updated;
      ghost var p, idle := View(), IdleSocks();
      ok := ModSock(socket, events, data);
      ghost var q := View();
      UpdatedNothing(p, q, idle);
      if ok {
        UpdateEventsIfPolling();
        UpdatedTwice(p, q, View(), idle, idle);
      }
    }

    /** port__ctl_del */
    method CtlDel(socket: int) returns (ok: bool)
      requires Valid()
      modifies this`sockTree, this`updateQueue, this`deletedQueue, this`live, this`refusals, this`inFlight
      modifies Registered(socket)`status, Registered(socket)`pendingEvents, Registered(socket)`deletePending
      modifies groups`queue, Groups()
      ensures Valid()
      ensures old(Awake()) ==> Awake()
      ensures ok <==> socket in old(sockTree)
      ensures sockTree == old(sockTree) - {socket} && inFlight == old(inFlight)
      ensures !ok ==> unchanged(this) && unchanged(live)
      ensures ok ==>
        var s := old(sockTree[socket]);
        if old(s.status) == Idle then
          live == old(live) - {s} && deletedQueue == old(deletedQueue)
        else
          live == old(live) && deletedQueue == old(deletedQueue) + [s] && s.deletePending && s.status != Idle
      ensures ok ==> updateQueue == Without(old(updateQueue), old(sockTree[socket]))
    {
      ok := socket in sockTree;
      if ok {
        FoundSocket(socket);
        WithoutAbsent(deletedQueue, sockTree[socket]);
        Delete(sockTree[socket], false);
      }
    }

    /** The first locked section of port__poll: everything is brought up to date before the thread waits. */
    method BeginPoll() returns (ok: bool)
      requires Valid()
      modifies this`sockTree, this`updateQueue, this`deletedQueue, this`live, this`inFlight, this`activePolls
      modifies this`stale, this`refusals, this`shut
      modifies live`status, live`pendingEvents, live`deletePending, groups`queue, Groups()
      ensures Valid() && Groups() == old(Groups()) && old(refusals) <= refusals && (ok <==> refusals == old(refusals))
      ensures Updated(old(View()), View(), old(IdleSocks())) && IdleSocks() <= old(IdleSocks()) && live <= old(live)
      ensures forall s | s in updateQueue :: s in old(updateQueue)
      ensures forall s | s in old(live) && s !in old(updateQueue) :: unchanged(s)
      ensures activePolls == old(activePolls) + if ok then 1 else 0
      ensures ok ==> updateQueue == [] && forall k | k in sockTree :: Watched(sockTree[k]) || sockTree[k].status == Cancelled
    {
      hide Port.Valid, Updated;
      ok := UpdateEvents();
      if ok {
        Polling(activePolls + 1);
      }
    }

    method Polling(n: nat)
      requires Valid()
      modifies this`activePolls
      ensures Valid() && activePolls == n
    {
      activePolls := n;
    }

    /** The second locked section of port__poll, with what the thread took from the completion port. */
    method EndPoll(dequeued: bool, cs: seq<(Sock, Completion)>) returns (ok: bool, events: seq<Event>)
      requires Valid() && activePolls > 0 && Awaited(cs)
      modifies this`sockTree, this`updateQueue, this`deletedQueue, this`live, this`inFlight, this`activePolls
      modifies this`refusals, Socks(cs)`status, Socks(cs)`pendingEvents, Socks(cs)`deletePending, Socks(cs)`userEvents
      modifies groups`queue, Groups()
      ensures Valid() && activePolls == old(activePolls) - 1 && ok == dequeued
      ensures refusals == old(refusals) && Groups() == old(Groups())
      ensures events == if dequeued then old(AllReports(cs)) else []
      ensures dequeued ==> old(AllSettled(cs, events))
      ensures if dequeued then Fed(old(View()), View(), old(GoneSocks(cs)), Socks(cs)) else View() == old(View())
      ensures !dequeued ==> forall s | s in Socks(cs) :: unchanged(s)
      ensures live <= old(live) && IdleSocks() <= old(IdleSocks()) + if dequeued then Socks(cs) else {}
      ensures forall s | s in updateQueue && s in live :: s in old(updateQueue) || s in Socks(cs)
      ensures forall i | dequeued && 0 <= i < |cs| && !old(Gone(cs[i].0, cs[i].1)) ::
        cs[i].0.status == Idle && cs[i].0.userEvents == old(Left(cs[i].0, cs[i].1))
    {
      hide AllSettled, Port.Valid, Reports;
      Polling(activePolls - 1);
      assert forall s | s in Socks(cs) :: unchanged(s);
      if !dequeued {
        return false, [];
      }
      ok := true;
      events := FeedEvents(cs);
    }

    /** port_wait, up to where the thread waits, or fails because some socket could not be updated. */
    method EnterWait() returns (waiting: bool)
      requires Valid()
      modifies this`sockTree, this`updateQueue, this`deletedQueue, this`live, this`inFlight, this`activePolls
      modifies this`stale, this`refusals, this`shut
      modifies live`status, live`pendingEvents, live`deletePending, groups`queue, Groups()
      ensures Valid() && Awake() && activePolls == old(activePolls) + if waiting then 1 else 0
      ensures old(refusals) <= refusals && (waiting <==> refusals == old(refusals))
      ensures Updated(old(View()), View(), old(IdleSocks())) && IdleSocks() <= old(IdleSocks()) && live <= old(live)
      ensures forall s | s in old(live) && s !in old(updateQueue) :: unchanged(s)
      ensures waiting ==> updateQueue == [] && forall k | k in sockTree :: Watched(sockTree[k]) || sockTree[k].status == Cancelled
    {
      hide Port.Valid, Updated;
      ghost var p, idle := View(), IdleSocks();
      waiting := BeginPoll();
      if !waiting {
        ghost var q, still := View(), IdleSocks();
        UpdateEventsIfPolling();
        UpdatedTwice(p, q, View(), idle, still);
      }
    }

    /**
     * port_wait, from where the thread wakes up: it waits again if nothing of interest has happened and there is
     * time left, or it leaves, having seen to it that the others that wait do not miss what it has taken note of.
     */
    method LeaveWait(dequeued: bool, cs: seq<(Sock, Completion)>, timeLeft: bool)
      returns (waiting: bool, events: seq<Event>, ghost fed: Picture)
      requires Valid() && activePolls > 0 && Awaited(cs)
      modifies this`sockTree, this`updateQueue, this`deletedQueue, this`live, this`inFlight, this`activePolls
      modifies this`stale, this`refusals, this`shut
      modifies live`status, live`pendingEvents, live`deletePending, groups`queue, Groups()
      modifies Socks(cs)`status, Socks(cs)`pendingEvents, Socks(cs)`deletePending, Socks(cs)`userEvents
      ensures Valid() && Awake() && activePolls == old(activePolls) - if waiting then 0 else 1
      ensures events == if dequeued then old(AllReports(cs)) else []
      ensures dequeued ==> old(AllSettled(cs, events))
      ensures waiting <==> dequeued && events == [] && timeLeft && refusals == old(refusals)
      ensures waiting ==> updateQueue == []
      ensures if dequeued then Fed(old(View()), fed, old(GoneSocks(cs)), Socks(cs)) else fed == old(View())
      ensures Updated(fed, View(), old(IdleSocks()) + if dequeued then Socks(cs) else {})
      ensures forall s | s in old(live) && s !in old(updateQueue) && (dequeued ==> s !in Socks(cs)) :: unchanged(s)
      ensures forall i | dequeued && 0 <= i < |cs| && !old(Gone(cs[i].0, cs[i].1)) ::
        cs[i].0.userEvents == old(Left(cs[i].0, cs[i].1))
      ensures !dequeued ==> forall s | s in Socks(cs) :: s.userEvents == old(s.userEvents)
    {
      hide AllReports, AllSettled, Fed, Port.Valid, Updated;
      var ok;
      ok, events := EndPoll(dequeued, cs);
      fed := View();
      ghost var idle, all := IdleSocks(), old(IdleSocks()) + if dequeued then Socks(cs) else {};
      UpdatedNothing(fed, fed, all);
      waiting := false;
      if ok && events == [] && timeLeft {
        waiting := EnterWait();
      } else {
        UpdateEventsIfPolling();
      }
      UpdatedTwice(fed, fed, View(), all, idle);
    }

    /** port_close */
    method Close()
      requires Valid()
      modifies this`iocpOpen
      ensures Valid() && !iocpOpen
    {
      iocpOpen := false;
    }

    /** sock_force_delete, of a registered socket. */
    method ForceDelete(k: int)
      requires Valid() && k in sockTree
      modifies this`sockTree, this`updateQueue, this`deletedQueue, this`live, this`inFlight, this`refusals
      modifies live`status, live`pendingEvents, live`deletePending, groups`queue, Groups()
      ensures Valid() && live < old(live) && Groups() == old(Groups())
    {
      FoundSocket(k);
      Delete(sockTree[k], true);
    }

    /** The loop of port_delete over the registered sockets. */
    method ForceDeleteRegistered()
      requires Valid()
      modifies this`sockTree, this`updateQueue, this`deletedQueue, this`live, this`inFlight, this`refusals
      modifies live`status, live`pendingEvents, live`deletePending, groups`queue, Groups()
      ensures Valid() && sockTree == map[] && live <= old(live) && Groups() == old(Groups())
    {
      while sockTree != map[]
        invariant Valid() && live <= old(live) && Groups() == old(Groups())
        decreases live
      {
        var k := Maps.SomeKey(sockTree);
        ForceDelete(k);
      }
    }

    /** The loop of port_delete over the sockets that were deleted but not freed. */
    method ForceDeleteDeleted()
      requires Valid() && sockTree == map[]
      modifies this`sockTree, this`updateQueue, this`deletedQueue, this`live, this`inFlight, this`refusals
      modifies live`status, live`pendingEvents, live`deletePending, groups`queue, Groups()
      ensures Valid() && sockTree == map[] && deletedQueue == [] && Groups() == old(Groups())
    {
      while deletedQueue != []
        invariant Valid() && sockTree == map[] && live <= old(live) && Groups() == old(Groups())
        decreases live
      {
        var s := deletedQueue[0];
        assert SockOk(s);
        Delete(s, true);
      }
    }

    /** Every socket that has not been freed is registered or in the deleted queue, and the queued ones exist. */
    lemma {:induction false} Accounted()
      requires Valid()
      ensures forall s :: s in live <==> s in sockTree.Values || s in deletedQueue
      ensures updateQueue != [] ==> live != {}
    {
      forall s | s in live ensures s in sockTree.Values || s in deletedQueue {
        assert SockOk(s);
      }
      forall s | s in sockTree.Values ensures s in live {
        var _ := Maps.KeyOf(sockTree, s);
      }
      assert updateQueue != [] ==> updateQueue[0] in live;
    }

    /** port_delete: its three assertions hold, and nothing is left over. */
    method DeletePort()
      requires Valid() && !iocpOpen
      modifies this`sockTree, this`updateQueue, this`deletedQueue, this`live, this`inFlight, this`refusals
      modifies live, groups`queue, Groups()
      ensures live == {} && sockTree == map[] && updateQueue == [] && deletedQueue == [] && groups.queue == []
    {
      ForceDeleteRegistered();
      ForceDeleteDeleted();
      Accounted();
      assert live == {};
      DeleteGroups();
      assert updateQueue == [];
    }

    /** The loop of port_delete over the poll groups. */
    method DeleteGroups()
      requires groups.Valid() && Counted(groups.queue, {})
      modifies groups`queue
      ensures groups.queue == []
    {
      while groups.queue != []
        invariant groups.Valid() && Counted(groups.queue, {})
        decreases |groups.queue|
      {
        assert groups.queue[0].size == 0;
        groups.DeleteFirst();
      }
    }

    /** The slots in use are the sockets that exist, so the groups are no more than the busiest moment called for. */
    lemma {:induction false} SlotsInUse()
      requires Valid()
      ensures Slots(groups.queue) == |live| <= groups.peak
      ensures groups.queue != [] ==> MAX_GROUP_SIZE * (|groups.queue| - 1) < groups.peak
    {
      SlotsAreSockets(groups.queue, live);
    }
  }

  /** An epoll_ctl that is still under way after port_close runs into the assertion in port_get_iocp_handle. */
  method AddAfterClose(socket: int, events: Mask, data: int) returns (r: AddResult)
    requires ValidSocket(socket)
    ensures r == AssertionFailed
  {
    var port := new Port();
    port.Close();
    ghost var s: Sock?;
    r, s := port.CtlAdd(socket, events, data, true, true, true);
  }
}
