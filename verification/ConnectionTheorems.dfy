/** The results about the connection protocol, for every run from a fresh service. */
module ConnectionTheorems {
  import opened Wrappers
  import opened ConnectionProtocol
  import opened ConnectionSafety

  ghost predicate Reachable(s: State) {
    exists s0, moves :: Init(s0) && Reaches(s0, moves, s)
  }

  lemma ReachableInv(s: State)
    requires Reachable(s)
    ensures Inv(s)
  {
    var s0, moves :| Init(s0) && Reaches(s0, moves, s);
    InitInv(s0);
    RunInv(s0, moves, s);
  }

  ghost predicate Quiescent(s: State) {
    forall t :: t in s.threads ==> s.threads[t] == Idle
  }

  ghost predicate EntryCurrent(s: State, e: nat) {
    e < |s.entries| && s.Current(e)
  }

  /** A connection of an entry that has left the table always has a thread about to close it. */
  lemma DetachedHasCloser(s: State, e: nat)
    requires Reachable(s) && e < |s.entries| && s.entries[e].conn.Some? && !s.Current(e)
    ensures exists t :: t in s.threads && e in PendingEntries(s.threads[t])
  {
    ReachableInv(s);
    hide Mutex, Owned, Counted, Cookies, Pending, Removed, Placed, InRange, PendingEntries;
    assert PendingEntry(s, e);
  }

  /** When no operation is running, every open connection is the shared connection of an entry
      of the table or the cursor of a session in the map: nothing has leaked. */
  lemma NothingLeaks(s: State, c: nat)
    requires Reachable(s) && Quiescent(s) && c in s.owner
    ensures match s.owner[c]
            case ByEntry(e) => EntryCurrent(s, e) && s.entries[e].conn == Some(c)
            case BySession(n) => n in s.live && n < |s.sessions| && s.sessions[n].conn == Some(c)
            case ByThread(_) => false
  {
    ReachableInv(s);
    hide Mutex, Counted, Cookies, Pending, Placed, InRange;
    assert OwnerHas(s, c, s.owner[c]);
  }

  /** An idle thread has disposed of every connection it dialled or took out of a session. */
  lemma IdleOwnsNothing(s: State, t: nat, c: nat)
    requires Reachable(s) && t in s.threads && s.threads[t] == Idle && c in s.owner
    ensures s.owner[c] != ByThread(t)
  {
    ReachableInv(s);
    hide Mutex, AllPlaced, Detached, Counted, Cookies, Pending, Removed;
    assert OwnerHas(s, c, s.owner[c]);
  }

  /** No connection is closed twice, and one that was dialled is closed unless it is open. */
  lemma ClosedAtMostOnce(s: State, c: nat)
    requires Reachable(s)
    ensures s.closes[c] <= 1
    ensures s.closes[c] == 1 <==> c < |s.issued| && c !in s.owner
  {
    ReachableInv(s);
    hide Mutex, AllPlaced, Detached, Owned, Cookies, Pending, Removed;
  }

  /** A session that is not closed is in the map or, exclusively, in the hands of one remover. */
  lemma OneHolderPerSession(s: State, n: nat)
    requires Reachable(s) && n < |s.sessions|
    ensures n in s.live ==> !s.sessions[n].closed && !PendingSession(s, n)
    ensures !s.sessions[n].closed ==> n in s.live || PendingSession(s, n)
    ensures s.sessions[n].closed ==> s.sessions[n].conn == None && !PendingSession(s, n)
    ensures forall t, u :: (t in s.threads && u in s.threads && n in PendingSessions(s.threads[t])
                            && n in PendingSessions(s.threads[u])) ==> t == u
  {
    ReachableInv(s);
    hide Mutex, AllPlaced, Detached, Owned, Counted, Cookies, PendingSessions, Distinct;
  }

  lemma AtMostSixteen(s: State)
    requires Reachable(s)
    ensures |s.live| <= 16
  {
    ReachableInv(s);
    hide Mutex, AllPlaced, Detached, Owned, Counted, Cookies, Pending;
  }

  // --- Requests -------------------------------------------------------------------------

  /** The connection on which the thread has a request in flight. */
  function InFlight(s: State, t: nat): Option<nat>
    requires t in s.threads
  {
    match s.threads[t]
    case Run(RunShared(e, _)) => if e < |s.entries| then s.entries[e].conn else None
    case Run(RunDedicated(_, c, _)) => Some(c)
    case Run(NextRequest(n)) => if n < |s.sessions| then s.sessions[n].conn else None
    case Run(FinishClose(c, cookie, _, _)) => if cookie != "" then Some(c) else None
    case _ => None
  }

  /** Why the thread alone may use the connection. */
  ghost predicate Guarded(s: State, t: nat, c: nat)
    requires t in s.threads
  {
    c in s.owner && match s.owner[c]
                    case ByEntry(e) => EntryMu(e) in Holds(s.threads[t])
                    case BySession(n) => SessionMu(n) in Holds(s.threads[t])
                    case ByThread(u) => u == t
  }

  lemma InFlightGuarded(s: State, t: nat)
    requires Owned(s) && t in s.threads && InFlight(s, t).Some?
    ensures Guarded(s, t, InFlight(s, t).value)
  {
  }

  /** Requests are sent on open connections, and at most one at a time on each. */
  lemma OneRequestInFlight(s: State, t: nat, u: nat)
    requires Reachable(s) && t in s.threads && u in s.threads
    requires InFlight(s, t).Some? && InFlight(s, u) == InFlight(s, t)
    ensures InFlight(s, t).value in s.owner
    ensures t == u
  {
    ReachableInv(s);
    assert Owned(s) && Mutex(s) by {
      hide Owned, Mutex, AllPlaced, Detached, Counted, Cookies, Pending, Removed;
    }
    hide Inv, Holds, InFlight, Owned;
    InFlightGuarded(s, t);
    InFlightGuarded(s, u);
  }

  /** The cookie a thread sends: the paging request's, or the abandon request's. */
  function Sent(s: State, t: nat): Option<(nat, Cookie)>
    requires t in s.threads
  {
    match s.threads[t]
    case Run(NextRequest(n)) =>
      if n < |s.sessions| && s.sessions[n].conn.Some? then Some((s.sessions[n].conn.value, s.sessions[n].cookie))
      else None
    case Run(FinishClose(c, cookie, _, _)) => Some((c, cookie))
    case _ => None
  }

  /** A cookie goes out only on the connection whose last response issued it. */
  lemma CookiesStayOnTheirConnection(s: State, t: nat)
    requires Reachable(s) && t in s.threads && Sent(s, t).Some?
    ensures Sent(s, t).value.0 < |s.issued| && Sent(s, t).value.1 == s.issued[Sent(s, t).value.0]
  {
    ReachableInv(s);
    hide Mutex, AllPlaced, Detached, Pending, Removed;
  }

  // --- Locks ----------------------------------------------------------------------------

  /** A thread only ever waits for a lock that ranks above every lock it holds. */
  lemma WaitsUpwards(th: Thread, h: Lock)
    requires th.Wait? && Entering(th.sec).Some? && h in Holds(th)
    ensures Rank(h) < Rank(Entering(th.sec).value)
  {
  }

  ghost predicate BlockedBy(s: State, t: nat, u: nat) {
    && t in s.threads && u in s.threads && s.threads[t].Wait? && Entering(s.threads[t].sec).Some?
    && Entering(s.threads[t].sec).value in Holds(s.threads[u])
  }

  ghost predicate BlockedWithin(s: State, threads: set<nat>, t: nat) {
    exists u :: u in threads && BlockedBy(s, t, u)
  }

  lemma BlockingRises(s: State, t: nat, u: nat, v: nat)
    requires BlockedBy(s, t, u) && BlockedBy(s, u, v)
    ensures Rank(Entering(s.threads[t].sec).value) == 0 && Rank(Entering(s.threads[u].sec).value) == 1
  {
    WaitsUpwards(s.threads[u], Entering(s.threads[t].sec).value);
  }

  /** In no set of threads does every one wait for another of the set. */
  lemma NoDeadlock(s: State, threads: set<nat>) returns (t: nat)
    requires threads != {}
    ensures t in threads && !BlockedWithin(s, threads, t)
  {
    hide BlockedBy;
    t :| t in threads;
    if BlockedWithin(s, threads, t) {
      var u :| u in threads && BlockedBy(s, t, u);
      if BlockedWithin(s, threads, u) {
        var v :| v in threads && BlockedBy(s, u, v);
        if BlockedWithin(s, threads, v) {
          var w :| w in threads && BlockedBy(s, v, w);
          BlockingRises(s, t, u, v);
          BlockingRises(s, u, v, w);
        }
        t := v;
      } else {
        t := u;
      }
    }
  }

  lemma {:induction false} CanEnumerate(all: set<nat>) returns (order: seq<nat>)
    ensures Enumerates(order, all)
    decreases |all|
  {
    if all == {} {
      order := [];
    } else {
      var x :| x in all;
      var rest := CanEnumerate(all - {x});
      order := [x] + rest;
    }
  }

  /** A running section always finishes, whatever the network does. */
  lemma RunningCanMove(s: State, t: nat)
    requires Inv(s) && t in s.threads && s.threads[t].Run?
    ensures exists o :: Enabled(s, Execute(t, o))
  {
    IsAt(s, t, s.threads[t].sec);
    hide Inv;
    var sec := s.threads[t].sec;
    var o := Oracle(true, Fine, "", [], 0, false, 0, []);
    match sec {
      case CloseAllTable =>
        var order := CanEnumerate(s.table.Values);
        o := o.(order := order);
      case CancelSessions(which) =>
        var order := CanEnumerate(Matching(s, which));
        o := o.(order := order);
      case Prune(todo, _, _) =>
        if todo != {} {
          var n :| n in todo;
          o := o.(pick := n);
        }
      case _ =>
    }
    assert Enabled(s, Execute(t, o));
  }

  /** While any operation is unfinished, some thread can take the next step of its operation. */
  lemma SomeThreadCanMove(s: State, t: nat)
    requires Reachable(s) && t in s.threads && s.threads[t] != Idle
    ensures exists m: Move :: !m.Begin? && Enabled(s, m)
  {
    ReachableInv(s);
    PlacedFacts(s);
    hide Inv, AllPlaced, Mutex, Conns, InRange;
    var x := Unblocked(s, t);
    if s.threads[x].Run? {
      RunningCanMove(s, x);
    } else {
      assert Placed(s, s.threads[x]);
      assert Enabled(s, Acquire(x));
    }
  }

  /** Follow the chain of waiting threads from t to one that is not waiting for a held lock. */
  lemma Unblocked(s: State, t: nat) returns (x: nat)
    requires t in s.threads && s.threads[t] != Idle
    requires forall u :: u in s.threads ==> Placed(s, s.threads[u])
    ensures x in s.threads && s.threads[x] != Idle
    ensures s.threads[x].Wait? ==> Entering(s.threads[x].sec).Some? && s.Free(Entering(s.threads[x].sec).value)
    decreases if s.threads[t].Wait? && Entering(s.threads[t].sec).Some? then 2 - Rank(Entering(s.threads[t].sec).value) else 0
  {
    x := t;
    assert Placed(s, s.threads[t]);
    if s.threads[t].Wait? && !s.Free(Entering(s.threads[t].sec).value) {
      var u :| u in s.threads && Entering(s.threads[t].sec).value in Holds(s.threads[u]);
      assert Placed(s, s.threads[u]);
      if s.threads[u].Wait? {
        WaitsUpwards(s.threads[u], Entering(s.threads[t].sec).value);
      }
      x := Unblocked(s, u);
    }
  }
}
