/** The two translations between epoll and AFD event masks. A mask is the set of the numbers of its one bits. */
module SockEvents {

  type Mask = set<nat>

  const EPOLLIN: nat := 0
  const EPOLLPRI: nat := 1
  const EPOLLOUT: nat := 2
  const EPOLLERR: nat := 3
  const EPOLLHUP: nat := 4
  const EPOLLRDNORM: nat := 6
  const EPOLLRDBAND: nat := 7
  const EPOLLWRNORM: nat := 8
  const EPOLLWRBAND: nat := 9
  const EPOLLMSG: nat := 10
  const EPOLLRDHUP: nat := 13
  const EPOLLONESHOT: nat := 31

  const KNOWN_EPOLL_EVENTS: Mask :=
    {EPOLLIN, EPOLLPRI, EPOLLOUT, EPOLLERR, EPOLLHUP, EPOLLRDNORM,
     EPOLLRDBAND, EPOLLWRNORM, EPOLLWRBAND, EPOLLMSG, EPOLLRDHUP}

  const AFD_POLL_RECEIVE: nat := 0
  const AFD_POLL_RECEIVE_EXPEDITED: nat := 1
  const AFD_POLL_SEND: nat := 2
  const AFD_POLL_DISCONNECT: nat := 3
  const AFD_POLL_ABORT: nat := 4
  const AFD_POLL_LOCAL_CLOSE: nat := 5
  const AFD_POLL_ACCEPT: nat := 7
  const AFD_POLL_CONNECT_FAIL: nat := 8

  /** `bits` if `m` has one of `any`. */
  function When(m: Mask, any: Mask, bits: Mask): Mask {
    if m * any != {} then bits else {}
  }

  /** sock__epoll_events_to_afd_events */
  function ToAfd(e: Mask): Mask {
    {AFD_POLL_LOCAL_CLOSE}
    + When(e, {EPOLLIN, EPOLLRDNORM}, {AFD_POLL_RECEIVE, AFD_POLL_ACCEPT})
    + When(e, {EPOLLPRI, EPOLLRDBAND}, {AFD_POLL_RECEIVE_EXPEDITED})
    + When(e, {EPOLLOUT, EPOLLWRNORM, EPOLLWRBAND}, {AFD_POLL_SEND})
    + When(e, {EPOLLIN, EPOLLRDNORM, EPOLLRDHUP}, {AFD_POLL_DISCONNECT})
    + When(e, {EPOLLHUP}, {AFD_POLL_ABORT})
    + When(e, {EPOLLERR}, {AFD_POLL_CONNECT_FAIL})
  }

  /** sock__afd_events_to_epoll_events: Linux reports six events after a failed connect. */
  function ToEpoll(a: Mask): Mask {
    When(a, {AFD_POLL_RECEIVE, AFD_POLL_ACCEPT}, {EPOLLIN, EPOLLRDNORM})
    + When(a, {AFD_POLL_RECEIVE_EXPEDITED}, {EPOLLPRI, EPOLLRDBAND})
    + When(a, {AFD_POLL_SEND}, {EPOLLOUT, EPOLLWRNORM, EPOLLWRBAND})
    + When(a, {AFD_POLL_DISCONNECT}, {EPOLLIN, EPOLLRDNORM, EPOLLRDHUP})
    + When(a, {AFD_POLL_ABORT}, {EPOLLHUP})
    + When(a, {AFD_POLL_CONNECT_FAIL}, {EPOLLIN, EPOLLOUT, EPOLLERR, EPOLLRDNORM, EPOLLWRNORM, EPOLLRDHUP})
  }

  /** The requested events that a poll submitted for `pending` does not look for. */
  function Unmet(user: Mask, pending: Mask): Mask {
    user * KNOWN_EPOLL_EVENTS - pending
  }

  /** Error and hang-up are always asked for, until a one-shot event turns everything off. */
  predicate Interest(user: Mask) {
    user == {} || {EPOLLERR, EPOLLHUP} <= user
  }

  lemma {:induction false} NoneUnmet(user: Mask)
    ensures Unmet(user, user) == {}
  {
  }

  /** A fresh interest always has something that no finished poll looks for. */
  lemma {:induction false} FreshInterest(events: Mask)
    ensures Interest(events + {EPOLLERR, EPOLLHUP}) && Unmet(events + {EPOLLERR, EPOLLHUP}, {}) != {}
  {
    assert EPOLLERR in Unmet(events + {EPOLLERR, EPOLLHUP}, {});
  }

  /** Every reported event comes from one of the AFD events. */
  lemma {:induction false} Cause(happened: Mask, e: nat) returns (a: nat)
    requires e in ToEpoll(happened)
    ensures a in happened && e in ToEpoll({a})
  {
    if e in When(happened, {AFD_POLL_RECEIVE, AFD_POLL_ACCEPT}, {EPOLLIN, EPOLLRDNORM}) {
      a :| a in happened * {AFD_POLL_RECEIVE, AFD_POLL_ACCEPT};
      assert a in {a} * {AFD_POLL_RECEIVE, AFD_POLL_ACCEPT};
    } else if e in When(happened, {AFD_POLL_RECEIVE_EXPEDITED}, {EPOLLPRI, EPOLLRDBAND}) {
      a := AFD_POLL_RECEIVE_EXPEDITED;
    } else if e in When(happened, {AFD_POLL_SEND}, {EPOLLOUT, EPOLLWRNORM, EPOLLWRBAND}) {
      a := AFD_POLL_SEND;
    } else if e in When(happened, {AFD_POLL_DISCONNECT}, {EPOLLIN, EPOLLRDNORM, EPOLLRDHUP}) {
      a := AFD_POLL_DISCONNECT;
    } else if e in When(happened, {AFD_POLL_ABORT}, {EPOLLHUP}) {
      a := AFD_POLL_ABORT;
    } else {
      a := AFD_POLL_CONNECT_FAIL;
    }
    assert a in {a} * {a};
  }

  // ----- what single events mean -----

  lemma {:induction false} WhenOne(x: nat, any: Mask, bits: Mask)
    ensures When({x}, any, bits) == if x in any then bits else {}
  {
    assert x in any ==> x in {x} * any;
  }

  /** The AFD events that each event is reported for. */
  lemma {:induction false} ReportedFor(a: nat, e: nat)
    ensures e in ToEpoll({a}) <==>
      || ((e == EPOLLIN || e == EPOLLRDNORM)
          && (a == AFD_POLL_RECEIVE || a == AFD_POLL_ACCEPT || a == AFD_POLL_DISCONNECT || a == AFD_POLL_CONNECT_FAIL))
      || (e == EPOLLRDHUP && (a == AFD_POLL_DISCONNECT || a == AFD_POLL_CONNECT_FAIL))
      || ((e == EPOLLPRI || e == EPOLLRDBAND) && a == AFD_POLL_RECEIVE_EXPEDITED)
      || ((e == EPOLLOUT || e == EPOLLWRNORM) && (a == AFD_POLL_SEND || a == AFD_POLL_CONNECT_FAIL))
      || (e == EPOLLWRBAND && a == AFD_POLL_SEND)
      || (e == EPOLLHUP && a == AFD_POLL_ABORT)
      || (e == EPOLLERR && a == AFD_POLL_CONNECT_FAIL)
  {
    hide When;
    WhenOne(a, {AFD_POLL_RECEIVE, AFD_POLL_ACCEPT}, {EPOLLIN, EPOLLRDNORM});
    WhenOne(a, {AFD_POLL_RECEIVE_EXPEDITED}, {EPOLLPRI, EPOLLRDBAND});
    WhenOne(a, {AFD_POLL_SEND}, {EPOLLOUT, EPOLLWRNORM, EPOLLWRBAND});
    WhenOne(a, {AFD_POLL_DISCONNECT}, {EPOLLIN, EPOLLRDNORM, EPOLLRDHUP});
    WhenOne(a, {AFD_POLL_ABORT}, {EPOLLHUP});
    WhenOne(a, {AFD_POLL_CONNECT_FAIL}, {EPOLLIN, EPOLLOUT, EPOLLERR, EPOLLRDNORM, EPOLLWRNORM, EPOLLRDHUP});
  }

  /** The AFD events that a poll for each event looks for; every poll looks for the socket being closed. */
  lemma {:induction false} LookedForBy(e: nat, a: nat)
    ensures a in ToAfd({e}) <==>
      || a == AFD_POLL_LOCAL_CLOSE
      || ((e == EPOLLIN || e == EPOLLRDNORM) && (a == AFD_POLL_RECEIVE || a == AFD_POLL_ACCEPT || a == AFD_POLL_DISCONNECT))
      || (e == EPOLLRDHUP && a == AFD_POLL_DISCONNECT)
      || ((e == EPOLLPRI || e == EPOLLRDBAND) && a == AFD_POLL_RECEIVE_EXPEDITED)
      || ((e == EPOLLOUT || e == EPOLLWRNORM || e == EPOLLWRBAND) && a == AFD_POLL_SEND)
      || (e == EPOLLHUP && a == AFD_POLL_ABORT)
      || (e == EPOLLERR && a == AFD_POLL_CONNECT_FAIL)
  {
    hide When;
    WhenOne(e, {EPOLLIN, EPOLLRDNORM}, {AFD_POLL_RECEIVE, AFD_POLL_ACCEPT});
    WhenOne(e, {EPOLLPRI, EPOLLRDBAND}, {AFD_POLL_RECEIVE_EXPEDITED});
    WhenOne(e, {EPOLLOUT, EPOLLWRNORM, EPOLLWRBAND}, {AFD_POLL_SEND});
    WhenOne(e, {EPOLLIN, EPOLLRDNORM, EPOLLRDHUP}, {AFD_POLL_DISCONNECT});
    WhenOne(e, {EPOLLHUP}, {AFD_POLL_ABORT});
    WhenOne(e, {EPOLLERR}, {AFD_POLL_CONNECT_FAIL});
  }

  /** Several AFD events are reported as all that each of them is. */
  lemma {:induction false} ReportsJoin(happened: Mask, e: nat)
    ensures e in ToEpoll(happened) <==> exists a :: a in happened && e in ToEpoll({a})
  {
    if e in ToEpoll(happened) {
      var a := Cause(happened, e);
    } else {
      forall a | a in happened ensures e !in ToEpoll({a}) {
        if e in ToEpoll({a}) {
          Contribution(happened, a, e);
        }
      }
    }
  }

  lemma {:induction false} WhenJoins(asked: Mask, any: Mask, bits: Mask, a: nat)
    ensures a in When(asked, any, bits) <==> exists e :: e in asked && a in When({e}, any, bits)
  {
    if asked * any != {} {
      var e :| e in asked * any;
      assert e in {e} * any;
    }
    forall e | e in asked && {e} * any != {} ensures asked * any != {} {
      var x :| x in {e} * any;
      assert x in asked * any;
    }
  }

  /** A poll for several events looks for all that a poll for each of them looks for. */
  lemma {:induction false} RequestsJoin(asked: Mask, a: nat)
    ensures a in ToAfd(asked) <==> a == AFD_POLL_LOCAL_CLOSE || exists e :: e in asked && a in ToAfd({e})
  {
    hide When;
    WhenJoins(asked, {EPOLLIN, EPOLLRDNORM}, {AFD_POLL_RECEIVE, AFD_POLL_ACCEPT}, a);
    WhenJoins(asked, {EPOLLPRI, EPOLLRDBAND}, {AFD_POLL_RECEIVE_EXPEDITED}, a);
    WhenJoins(asked, {EPOLLOUT, EPOLLWRNORM, EPOLLWRBAND}, {AFD_POLL_SEND}, a);
    WhenJoins(asked, {EPOLLIN, EPOLLRDNORM, EPOLLRDHUP}, {AFD_POLL_DISCONNECT}, a);
    WhenJoins(asked, {EPOLLHUP}, {AFD_POLL_ABORT}, a);
    WhenJoins(asked, {EPOLLERR}, {AFD_POLL_CONNECT_FAIL}, a);
  }

  /**
   * What a poll looks for because of an event is reported as that event; and nothing else is, but for the six
   * events of a failed connect.
   */
  lemma {:induction false} AskedIsReported(a: nat, e: nat)
    requires a != AFD_POLL_LOCAL_CLOSE
    ensures a in ToAfd({e}) ==> e in ToEpoll({a})
    ensures a != AFD_POLL_CONNECT_FAIL ==> (e in ToEpoll({a}) <==> a in ToAfd({e}))
  {
    hide ToAfd, ToEpoll;
    ReportedFor(a, e);
    LookedForBy(e, a);
  }

  lemma {:induction false} Contribution(m: Mask, a: nat, e: nat)
    requires a in m && e in ToEpoll({a})
    ensures e in ToEpoll(m)
  {
    assert forall any: Mask | {a} * any != {} :: a in m * any;
  }

  /** A poll for `pending` looks for every AFD event that would be reported as a requested one. */
  lemma {:induction false} LooksFor(user: Mask, pending: Mask, a: nat, e: nat)
    requires Interest(user) && Unmet(user, pending) == {} && e in user && e in ToEpoll({a})
    ensures a in ToAfd(pending)
  {
    assert e in KNOWN_EPOLL_EVENTS;
    assert forall x | x in user * KNOWN_EPOLL_EVENTS :: x in Unmet(user, pending) || x in pending;
    assert EPOLLHUP in pending && EPOLLERR in pending;
    assert forall any: Mask | e in any :: e in pending * any;
    assert EPOLLHUP in pending * {EPOLLHUP} && EPOLLERR in pending * {EPOLLERR};
  }

  /**
   * A poll that covers the interest misses nothing: whatever happens to the socket, reporting only what the
   * poll looks for gives the user the same events as reporting everything.
   */
  lemma {:induction false} CoverMissesNothing(user: Mask, pending: Mask, happened: Mask)
    requires Interest(user) && Unmet(user, pending) == {}
    ensures ToEpoll(happened) * user == ToEpoll(happened * ToAfd(pending)) * user
  {
    var seen := happened * ToAfd(pending);
    forall e | e in ToEpoll(happened) * user ensures e in ToEpoll(seen) {
      var a := Cause(happened, e);
      LooksFor(user, pending, a, e);
      Contribution(seen, a, e);
    }
    forall e | e in ToEpoll(seen) ensures e in ToEpoll(happened) {
      var a := Cause(seen, e);
      Contribution(happened, a, e);
    }
  }
}
