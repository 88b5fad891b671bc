/** What every run of the connection protocol keeps. */
module ConnectionSafety {
  import opened Wrappers
  import opened ConnectionProtocol

  // --- The invariant --------------------------------------------------------------------

  ghost predicate Mutex(s: State) {
    forall t, u, l :: t in s.threads && u in s.threads && l in Holds(s.threads[t]) && l in Holds(s.threads[u])
      ==> t == u
  }

  /** A position a thread can be in: indices in range, and what its locks protect. */
  ghost predicate Placed(s: State, th: Thread) {
    && (th.Wait? ==> Entering(th.sec).Some?)
    && (th.Idle? || InRange(s, th.sec))
    && (!th.Idle? ==> match th.sec
         case CheckBeforeDial(e, _) => s.entries[e].conn == None
         case DialShared(e, _) => s.entries[e].conn == None
         case CheckAfterDial(e, _, _) => s.entries[e].conn == None
         case Install(e, _, _) => s.entries[e].conn == None
         case NextRequest(n) => !s.sessions[n].closed
         case CloseSession(_, after) => Later(s, after)
         case FinishClose(_, _, ns, after) => Later(s, after) && forall i :: 0 <= i < |ns| ==> ns[i] < |s.sessions|
         case PruneBegin(after) => Later(s, after)
         case Prune(_, expired, after) => Later(s, after) && forall i :: 0 <= i < |expired| ==> expired[i] < |s.sessions|
         case _ => true)
  }

  ghost predicate Later(s: State, after: After) {
    after.ThenStart? ==> after.e < |s.entries|
  }

  ghost predicate AllPlaced(s: State) {
    && (forall id :: id in s.table ==> s.table[id] < |s.entries| && s.entries[s.table[id]].id == id)
    && (forall n :: n in s.live ==> n < |s.sessions|)
    && forall t :: t in s.threads ==> Placed(s, s.threads[t])
  }

  /** Each open connection has exactly the owner the ghost map names. */
  ghost predicate Owned(s: State) {
    && (forall e :: 0 <= e < |s.entries| && s.entries[e].conn.Some?
          ==> s.entries[e].conn.value in s.owner && s.owner[s.entries[e].conn.value] == ByEntry(e))
    && (forall n :: 0 <= n < |s.sessions| && s.sessions[n].conn.Some?
          ==> s.sessions[n].conn.value in s.owner && s.owner[s.sessions[n].conn.value] == BySession(n))
    && (forall t :: t in s.threads && InHand(s.threads[t]).Some?
          ==> InHand(s.threads[t]).value in s.owner && s.owner[InHand(s.threads[t]).value] == ByThread(t))
    && forall c :: c in s.owner ==> OwnerHas(s, c, s.owner[c])
  }

  ghost predicate OwnerHas(s: State, c: nat, o: Owner) {
    match o
    case ByEntry(e) => e < |s.entries| && s.entries[e].conn == Some(c)
    case BySession(n) => n < |s.sessions| && s.sessions[n].conn == Some(c)
    case ByThread(t) => t in s.threads && InHand(s.threads[t]) == Some(c)
  }

  /** Every connection ever dialled is either open or closed exactly once. */
  ghost predicate Counted(s: State) {
    && (forall c :: c in s.owner ==> c < |s.issued|)
    && (forall c: nat :: s.closes[c] == if c < |s.issued| && c !in s.owner then 1 else 0)
  }

  /** The entry a thread is about to give a connection, both identity checks passed. */
  function Installing(th: Thread): Option<nat> {
    if th.Run? && th.sec.Install? then Some(th.sec.e) else None
  }

  ghost predicate PendingEntry(s: State, e: nat) {
    exists t :: t in s.threads && e in PendingEntries(s.threads[t])
  }

  /** A detached entry holds a connection, or is about to, only while a closer is pending. */
  ghost predicate Detached(s: State)
    requires AllPlaced(s)
  {
    && (forall e :: 0 <= e < |s.entries| && s.entries[e].conn.Some? ==> s.Current(e) || PendingEntry(s, e))
    && (forall t :: t in s.threads && Installing(s.threads[t]).Some? ==>
          var e := Installing(s.threads[t]).value; e < |s.entries| && (s.Current(e) || PendingEntry(s, e)))
  }

  ghost predicate PendingSession(s: State, n: nat) {
    exists t :: t in s.threads && n in PendingSessions(s.threads[t])
  }

  /** What a remover still has to close is open, out of the map, and its alone. */
  ghost predicate Pending(s: State) {
    && (forall t, n :: t in s.threads && n in PendingSessions(s.threads[t])
          ==> n < |s.sessions| && !s.sessions[n].closed && n !in s.live)
    && (forall t, u, n :: (t in s.threads && u in s.threads && n in PendingSessions(s.threads[t])
                          && n in PendingSessions(s.threads[u])) ==> t == u)
    && (forall t :: t in s.threads ==> Distinct(PendingSessions(s.threads[t])))
  }

  /** A session is in the map, or closed, or in the hands of a remover. */
  ghost predicate Removed(s: State) {
    && (forall n :: n in s.live ==> n < |s.sessions| && !s.sessions[n].closed)
    && (forall n :: 0 <= n < |s.sessions| ==> (s.sessions[n].closed <==> s.sessions[n].conn.None?))
    && (forall n :: 0 <= n < |s.sessions| && !s.sessions[n].closed ==> n in s.live || PendingSession(s, n))
    && |s.live| <= MAX_SESSIONS
  }

  /** The cookie a thread holds for the connection it has in hand; a connection dialled for
      a session has had no response yet. */
  function CookieInHand(th: Thread): Option<Cookie> {
    if th.Idle? then None else
    match th.sec
    case FinishClose(_, cookie, _, _) => Some(cookie)
    case CheckSession(_, _) => Some("")
    case AddSession(_, _) => Some("")
    case _ => None
  }

  /** The cookie of a session, and the one an abandon request carries, is the last one the
      server gave on that connection. */
  ghost predicate Cookies(s: State) {
    && (forall n :: 0 <= n < |s.sessions| && s.sessions[n].conn.Some? && s.sessions[n].conn.value < |s.issued|
          ==> s.sessions[n].cookie == s.issued[s.sessions[n].conn.value])
    && (forall t :: t in s.threads && CookieInHand(s.threads[t]).Some? && InHand(s.threads[t]).Some?
          && InHand(s.threads[t]).value < |s.issued|
          ==> CookieInHand(s.threads[t]).value == s.issued[InHand(s.threads[t]).value])
  }

  ghost predicate Inv(s: State) {
    Mutex(s) && AllPlaced(s) && Owned(s) && Counted(s) && Detached(s) && Pending(s) && Removed(s) && Cookies(s)
  }

  // --- One step of thread t, from its position to th ------------------------------------

  ghost predicate SameSession(a: Session, b: Session) {
    a.conn == b.conn && a.closed == b.closed
  }

  /** The step changes only what the locks held by t protect. */
  ghost predicate Step(s: State, t: nat, th: Thread, s': State) {
    && t in s.threads && s'.threads == s.threads[t := th]
    && |s.entries| <= |s'.entries| && |s.sessions| <= |s'.sessions| && |s.issued| <= |s'.issued|
    && (forall e :: 0 <= e < |s.entries| ==> s'.entries[e].id == s.entries[e].id)
    && (forall e :: 0 <= e < |s.entries| && s'.entries[e].conn != s.entries[e].conn
          ==> EntryMu(e) in Holds(s.threads[t]))
    && (forall n :: 0 <= n < |s.sessions| && !SameSession(s'.sessions[n], s.sessions[n])
          ==> SessionMu(n) in Holds(s.threads[t]))
  }

  lemma StepMutex(s: State, t: nat, th: Thread, s': State)
    requires Mutex(s) && Step(s, t, th, s') && Holds(th) <= Holds(s.threads[t])
    ensures Mutex(s')
  {
    hide Holds;
  }

  /** What a position relies on is guarded by the locks held there. */
  lemma PlacedStable(s: State, s': State, th: Thread)
    requires Placed(s, th)
    requires |s.entries| <= |s'.entries| && |s.sessions| <= |s'.sessions| && |s.issued| <= |s'.issued|
    requires forall e :: 0 <= e < |s.entries| && EntryMu(e) in Holds(th) ==> s'.entries[e].conn == s.entries[e].conn
    requires forall n :: 0 <= n < |s.sessions| && SessionMu(n) in Holds(th) ==> SameSession(s'.sessions[n], s.sessions[n])
    ensures Placed(s', th)
  {
  }

  lemma StepPlaced(s: State, t: nat, th: Thread, s': State)
    requires Mutex(s) && AllPlaced(s) && Step(s, t, th, s') && Placed(s', th)
    requires forall id :: id in s'.table ==> s'.table[id] < |s'.entries| && s'.entries[s'.table[id]].id == id
    requires forall n :: n in s'.live ==> n < |s'.sessions|
    ensures AllPlaced(s')
  {
    hide Holds, Placed;
    forall u | u in s'.threads ensures Placed(s', s'.threads[u]) {
      if u != t {
        PlacedStable(s, s', s.threads[u]);
      }
    }
  }

  /** A pending close of an entry may end only with the entry's lock held and no connection left. */
  ghost predicate Entries(s: State, t: nat, th: Thread, s': State)
    requires AllPlaced(s) && AllPlaced(s')
  {
    && Step(s, t, th, s')
    && (forall e :: 0 <= e < |s.entries| && s.Current(e) && !s'.Current(e) ==> e in PendingEntries(th))
    && (forall e :: e in PendingEntries(s.threads[t]) && e !in PendingEntries(th)
          ==> e < |s.entries| && EntryMu(e) in Holds(s.threads[t]) && s'.entries[e].conn == None)
    && (forall e :: 0 <= e < |s'.entries| && s'.entries[e].conn.Some?
          ==> e < |s.entries| && (s.entries[e].conn.Some? || Installing(s.threads[t]) == Some(e)))
    && (Installing(th).Some? ==> Installing(th).value < |s.entries| && s'.Current(Installing(th).value))
  }

  lemma StepDetached(s: State, t: nat, th: Thread, s': State)
    requires Mutex(s) && AllPlaced(s) && Detached(s) && AllPlaced(s') && Entries(s, t, th, s')
    ensures Detached(s')
  {
    hide Holds, Placed, PendingEntries, InRange, Installing;
    forall e: nat | e < |s.entries| && (s.Current(e) || PendingEntry(s, e))
      ensures s'.Current(e) || PendingEntry(s', e) || (EntryMu(e) in Holds(s.threads[t]) && s'.entries[e].conn == None)
    {
      if s.Current(e) {
        assert s'.Current(e) || e in PendingEntries(s'.threads[t]);
      } else {
        var u :| u in s.threads && e in PendingEntries(s.threads[u]);
        assert u != t ==> e in PendingEntries(s'.threads[u]);
        assert u == t && e in PendingEntries(th) ==> e in PendingEntries(s'.threads[t]);
      }
    }
    forall u | u in s'.threads && u != t && Installing(s'.threads[u]).Some?
      ensures EntryMu(Installing(s'.threads[u]).value) !in Holds(s.threads[t])
    {
      InstallingHolds(s.threads[u]);
    }
  }

  lemma InstallingHolds(th: Thread)
    requires Installing(th).Some?
    ensures EntryMu(Installing(th).value) in Holds(th)
  {
  }

  /** Sessions leave the map only into the hands of t, and leave the hands of t only closed. */
  ghost predicate Sessions(s: State, t: nat, th: Thread, s': State) {
    && Step(s, t, th, s')
    && (forall n :: n in s'.live ==> n in s.live || n == |s.sessions| < |s'.sessions|)
    && (forall n :: n in s.live && n !in s'.live ==> n in PendingSessions(th))
    && (forall n :: n in PendingSessions(th) ==> n in PendingSessions(s.threads[t]) || (n in s.live && n !in s'.live))
    && (forall n :: n in PendingSessions(s.threads[t]) && n !in PendingSessions(th)
          ==> n < |s'.sessions| && s'.sessions[n].closed)
    && Distinct(PendingSessions(th))
    && (forall n :: 0 <= n < |s.sessions| && !SameSession(s'.sessions[n], s.sessions[n])
          ==> n in PendingSessions(s.threads[t]) && n !in PendingSessions(th) && s'.sessions[n].conn == None
              && s'.sessions[n].closed)
    && (forall n :: |s.sessions| <= n < |s'.sessions|
          ==> n in s'.live && !s'.sessions[n].closed && s'.sessions[n].conn.Some?)
    && |s'.live| <= MAX_SESSIONS
  }

  lemma StepPending(s: State, t: nat, th: Thread, s': State)
    requires Pending(s) && Removed(s) && Sessions(s, t, th, s')
    ensures Pending(s')
  {
    hide Holds, PendingSessions, Distinct;
    forall u, n | u in s'.threads && n in PendingSessions(s'.threads[u])
      ensures n < |s'.sessions| && !s'.sessions[n].closed && n !in s'.live
      ensures u != t ==> n !in PendingSessions(th)
    {
      if u != t {
        assert n in PendingSessions(s.threads[u]);
        assert n < |s.sessions| && !s.sessions[n].closed && n !in s.live && n !in PendingSessions(s.threads[t]);
      } else if n in PendingSessions(s.threads[t]) {
        assert n < |s.sessions| && !s.sessions[n].closed && n !in s.live;
      } else {
        assert n in s.live && n !in s'.live;
      }
      assert SameSession(s'.sessions[n], s.sessions[n]);
    }
  }

  lemma StepRemoved(s: State, t: nat, th: Thread, s': State)
    requires Pending(s) && Removed(s) && Sessions(s, t, th, s')
    ensures Removed(s')
  {
    hide Holds, PendingSessions, Distinct;
    forall n | n in s'.live ensures n < |s'.sessions| && !s'.sessions[n].closed {
      assert n in s.live ==> n !in PendingSessions(s.threads[t]);
    }
    forall n: nat | n < |s.sessions| && PendingSession(s, n)
      ensures PendingSession(s', n) || s'.sessions[n].closed
    {
      var u :| u in s.threads && n in PendingSessions(s.threads[u]);
      assert u != t ==> n in PendingSessions(s'.threads[u]);
      assert n in PendingSessions(th) ==> n in PendingSessions(s'.threads[t]);
    }
    assert forall n :: n in PendingSessions(th) ==> n in PendingSessions(s'.threads[t]);
  }

  // --- Who owns which connection --------------------------------------------------------

  ghost predicate Conns(s: State) {
    Owned(s) && Counted(s) && Cookies(s)
  }

  ghost predicate SameConns(s: State, s': State) {
    && |s.entries| <= |s'.entries|
    && (forall e :: 0 <= e < |s.entries| ==> s'.entries[e].conn == s.entries[e].conn)
    && (forall e :: |s.entries| <= e < |s'.entries| ==> s'.entries[e].conn == None)
    && s'.sessions == s.sessions
    && s'.owner == s.owner && s'.closes == s.closes && s'.issued == s.issued
  }

  lemma ConnsStay(s: State, t: nat, th: Thread, s': State)
    requires Conns(s) && t in s.threads && s'.threads == s.threads[t := th] && SameConns(s, s')
    requires InHand(th) == InHand(s.threads[t])
    requires CookieInHand(th).Some? ==> CookieInHand(th) == CookieInHand(s.threads[t])
    ensures Conns(s')
  {
    hide InHand, CookieInHand;
    forall c | c in s'.owner ensures OwnerHas(s', c, s'.owner[c]) {
      assert OwnerHas(s, c, s.owner[c]);
    }
  }

  lemma ConnsClose(s: State, t: nat, th: Thread)
    requires Conns(s) && t in s.threads && InHand(s.threads[t]).Some?
    requires InHand(th) == None
    ensures Conns(s.Close(InHand(s.threads[t]).value).Go(t, th))
  {
    hide InHand, CookieInHand;
    var s' := s.Close(InHand(s.threads[t]).value).Go(t, th);
    forall c | c in s'.owner ensures OwnerHas(s', c, s'.owner[c]) {
      assert OwnerHas(s, c, s.owner[c]);
    }
  }

  lemma ConnsCloseEntry(s: State, t: nat, th: Thread, e: nat)
    requires Conns(s) && t in s.threads && e < |s.entries| && InHand(s.threads[t]) == None && InHand(th) == None
    ensures Conns(s.CloseLocked(e).Go(t, th))
  {
    hide InHand, CookieInHand;
    var s' := s.CloseLocked(e).Go(t, th);
    forall c | c in s'.owner ensures OwnerHas(s', c, s'.owner[c]) {
      assert OwnerHas(s, c, s.owner[c]);
    }
  }

  lemma ConnsDial(s: State, t: nat, th: Thread)
    requires Conns(s) && t in s.threads && InHand(s.threads[t]) == None && InHand(th) == Some(|s.issued|)
    requires CookieInHand(th) == None || CookieInHand(th) == Some("")
    ensures Conns(s.Dialled(t).Go(t, th))
  {
    hide InHand, CookieInHand;
    var s' := s.Dialled(t).Go(t, th);
    forall c | c in s'.owner ensures OwnerHas(s', c, s'.owner[c]) {
      assert c != |s.issued| ==> OwnerHas(s, c, s.owner[c]);
    }
  }

  lemma OwnedInstall(s: State, t: nat, th: Thread, e: nat, c: nat)
    requires Owned(s) && t in s.threads && InHand(s.threads[t]) == Some(c) && InHand(th) == None
    requires e < |s.entries| && s.entries[e].conn == None
    ensures Owned(s.SetConn(e, Some(c)).Give(c, ByEntry(e)).Go(t, th))
  {
    hide InHand;
    var s' := s.SetConn(e, Some(c)).Give(c, ByEntry(e)).Go(t, th);
    forall x | x in s'.owner ensures OwnerHas(s', x, s'.owner[x]) {
      assert OwnerHas(s, x, s.owner[x]);
    }
  }

  lemma ConnsInstall(s: State, t: nat, th: Thread, e: nat)
    requires Conns(s) && t in s.threads && InHand(s.threads[t]).Some? && InHand(th) == None
    requires e < |s.entries| && s.entries[e].conn == None
    ensures Conns(s.SetConn(e, InHand(s.threads[t])).Give(InHand(s.threads[t]).value, ByEntry(e)).Go(t, th))
  {
    var c := InHand(s.threads[t]).value;
    OwnedInstall(s, t, th, e, c);
    assert c in s.owner;
    hide InHand, CookieInHand, Owned;
  }

  lemma ConnsTake(s: State, t: nat, th: Thread, n: nat, s': State)
    requires Conns(s) && t in s.threads && InHand(s.threads[t]) == None
    requires n < |s.sessions| && s.sessions[n].conn.Some? && InHand(th) == s.sessions[n].conn
    requires CookieInHand(th) == Some(s.sessions[n].cookie)
    requires s' == s.(sessions := s.sessions[n := s.sessions[n].(closed := true, conn := None)])
                    .Give(s.sessions[n].conn.value, ByThread(t)).Go(t, th)
    ensures Conns(s')
  {
    OwnedTake(s, t, th, n, s');
    var c := s.sessions[n].conn.value;
    assert c in s.owner && forall m :: 0 <= m < |s.sessions| && m != n ==> s'.sessions[m] == s.sessions[m];
    hide InHand, CookieInHand, Owned;
  }

  lemma OwnedTake(s: State, t: nat, th: Thread, n: nat, s': State)
    requires Owned(s) && t in s.threads && InHand(s.threads[t]) == None
    requires n < |s.sessions| && s.sessions[n].conn.Some? && InHand(th) == s.sessions[n].conn
    requires s' == s.(sessions := s.sessions[n := s.sessions[n].(closed := true, conn := None)])
                    .Give(s.sessions[n].conn.value, ByThread(t)).Go(t, th)
    ensures Owned(s')
  {
    hide InHand;
    forall c | c in s'.owner ensures OwnerHas(s', c, s'.owner[c]) {
      assert OwnerHas(s, c, s.owner[c]);
    }
  }

  lemma ConnsGive(s: State, t: nat, th: Thread, id: Id, book: Book, s': State)
    requires Conns(s) && t in s.threads && InHand(s.threads[t]).Some? && InHand(th) == None
    requires CookieInHand(s.threads[t]) == Some("")
    requires s'.sessions == s.sessions + [Session(id, InHand(s.threads[t]), "", false, book)]
    requires s'.entries == s.entries && s'.threads == s.threads[t := th]
    requires s'.closes == s.closes && s'.issued == s.issued
    requires s'.owner == s.owner[InHand(s.threads[t]).value := BySession(|s.sessions|)]
    ensures Conns(s')
  {
    hide InHand, CookieInHand;
    forall c | c in s'.owner ensures OwnerHas(s', c, s'.owner[c]) {
      assert OwnerHas(s, c, s.owner[c]);
    }
  }

  lemma ConnsAnswer(s: State, t: nat, th: Thread, n: nat, cookie: Cookie, book: Book, s': State)
    requires Conns(s) && t in s.threads && InHand(s.threads[t]) == None && InHand(th) == None
    requires n < |s.sessions| && s.sessions[n].conn.Some? && s.sessions[n].conn.value < |s.issued|
    requires s' == s.(sessions := s.sessions[n := s.sessions[n].(cookie := cookie, book := book)],
                      issued := s.issued[s.sessions[n].conn.value := cookie]).Go(t, th)
    ensures Conns(s')
  {
    hide InHand, CookieInHand;
    forall c | c in s'.owner ensures OwnerHas(s', c, s'.owner[c]) {
      assert OwnerHas(s, c, s.owner[c]);
    }
  }

  // --- Every section keeps the invariant ------------------------------------------------

  lemma StepInv(s: State, t: nat, th: Thread, s': State)
    requires Inv(s) && Conns(s') && AllPlaced(s') && Sessions(s, t, th, s') && Entries(s, t, th, s')
    requires Holds(th) <= Holds(s.threads[t]) || Mutex(s')
    ensures Inv(s')
  {
    hide Step, Owned, Counted, Cookies, Mutex, AllPlaced, Detached, Pending, Removed, Holds, PendingSessions, Placed;
    if !Mutex(s') {
      StepMutex(s, t, th, s');
    }
    StepDetached(s, t, th, s');
    StepPending(s, t, th, s');
    StepRemoved(s, t, th, s');
  }

  ghost predicate KeepsSessions(s: State, t: nat, th: Thread, s': State) {
    && s'.live == s.live && |s'.sessions| == |s.sessions|
    && (forall n :: 0 <= n < |s.sessions| ==> SameSession(s'.sessions[n], s.sessions[n]))
    && (t in s.threads ==> PendingSessions(th) == PendingSessions(s.threads[t]))
  }

  lemma SessionsStay(s: State, t: nat, th: Thread, s': State)
    requires Inv(s) && Step(s, t, th, s') && KeepsSessions(s, t, th, s')
    ensures Sessions(s, t, th, s')
  {
    hide Holds, Owned, Counted, Cookies, Mutex, AllPlaced, Detached, PendingSessions, Distinct;
  }

  ghost predicate KeepsEntries(s: State, t: nat, th: Thread, s': State) {
    && s'.table == s.table && |s'.entries| == |s.entries|
    && (forall e :: 0 <= e < |s.entries| ==> s'.entries[e] == s.entries[e])
    && (t in s.threads ==> PendingEntries(th) == PendingEntries(s.threads[t]))
  }

  lemma EntriesStay(s: State, t: nat, th: Thread, s': State)
    requires AllPlaced(s) && AllPlaced(s') && Step(s, t, th, s') && KeepsEntries(s, t, th, s')
    requires Installing(th).Some? ==> Installing(th).value < |s.entries| && s.Current(Installing(th).value)
    ensures Entries(s, t, th, s')
  {
    hide Holds, Placed, PendingEntries, InRange, Installing;
  }

  lemma PlacedFacts(s: State)
    requires Inv(s)
    ensures Mutex(s) && AllPlaced(s) && Conns(s) && TablesInRange(s)
    ensures forall id :: id in s.table ==> s.table[id] < |s.entries| && s.entries[s.table[id]].id == id
    ensures forall t :: t in s.threads ==> Placed(s, s.threads[t])
  {
    hide Holds, Placed, Owned, Counted, Cookies, Detached, Pending, Removed, Mutex;
  }

  /** Table, entries, sessions and the thread's pending work unchanged. */
  ghost predicate KeepsData(s: State, t: nat, th: Thread, s': State) {
    && t in s.threads && s'.threads == s.threads[t := th]
    && s'.table == s.table && s'.entries == s.entries && s'.live == s.live && s'.sessions == s.sessions
    && |s.issued| <= |s'.issued|
    && PendingSessions(th) == PendingSessions(s.threads[t])
    && PendingEntries(th) == PendingEntries(s.threads[t])
  }

  lemma DataStays(s: State, t: nat, th: Thread, s': State)
    requires Inv(s) && Conns(s') && KeepsData(s, t, th, s') && Placed(s, th)
    requires Holds(th) <= Holds(s.threads[t]) || Mutex(s')
    requires Installing(th).Some? ==> Installing(th).value < |s.entries| && s.Current(Installing(th).value)
    ensures Inv(s')
  {
    PlacedFacts(s);
    hide Inv, Mutex, AllPlaced, Conns, Holds, PendingSessions, PendingEntries, Installing, Placed;
    assert Step(s, t, th, s');
    PlacedStable(s, s', th);
    StepPlaced(s, t, th, s');
    hide Step, Sessions, Entries;
    SessionsStay(s, t, th, s');
    EntriesStay(s, t, th, s');
    StepInv(s, t, th, s');
  }

  /** Most sections only move the thread. */
  lemma MoveInv(s: State, t: nat, th: Thread)
    requires Inv(s) && t in s.threads && Placed(s, th)
    requires Holds(th) <= Holds(s.threads[t]) || Mutex(s.Go(t, th))
    requires InHand(th) == InHand(s.threads[t])
    requires CookieInHand(th).Some? ==> CookieInHand(th) == CookieInHand(s.threads[t])
    requires PendingSessions(th) == PendingSessions(s.threads[t])
    requires PendingEntries(th) == PendingEntries(s.threads[t])
    requires Installing(th).Some? ==> Installing(th).value < |s.entries| && s.Current(Installing(th).value)
    ensures Inv(s.Go(t, th))
  {
    var s' := s.Go(t, th);
    PlacedFacts(s);
    hide Inv, Mutex, AllPlaced, Conns, Holds, InHand, CookieInHand, PendingSessions, PendingEntries, Installing, Placed;
    ConnsStay(s, t, th, s');
    DataStays(s, t, th, s');
  }

  /** The thread closes the connection it has in hand. */
  lemma CloseInv(s: State, t: nat, th: Thread)
    requires Inv(s) && t in s.threads && InHand(s.threads[t]).Some? && InHand(th) == None
    requires Holds(th) <= Holds(s.threads[t]) && Placed(s, th) && Installing(th) == None
    requires PendingSessions(th) == PendingSessions(s.threads[t])
    requires PendingEntries(th) == PendingEntries(s.threads[t])
    ensures Inv(s.Close(InHand(s.threads[t]).value).Go(t, th))
  {
    var s' := s.Close(InHand(s.threads[t]).value).Go(t, th);
    PlacedFacts(s);
    hide Inv, Mutex, AllPlaced, Conns, Holds, InHand, CookieInHand, PendingSessions, PendingEntries, Installing, Placed;
    ConnsClose(s, t, th);
    DataStays(s, t, th, s');
  }

  lemma DialInv(s: State, t: nat, th: Thread)
    requires Inv(s) && t in s.threads && InHand(s.threads[t]) == None && InHand(th) == Some(|s.issued|)
    requires CookieInHand(th) == None || CookieInHand(th) == Some("")
    requires Holds(th) <= Holds(s.threads[t]) && Placed(s, th) && Installing(th) == None
    requires PendingSessions(th) == PendingSessions(s.threads[t])
    requires PendingEntries(th) == PendingEntries(s.threads[t])
    ensures Inv(s.Dialled(t).Go(t, th))
  {
    var s' := s.Dialled(t).Go(t, th);
    PlacedFacts(s);
    hide Inv, Mutex, AllPlaced, Conns, Holds, InHand, CookieInHand, PendingSessions, PendingEntries, Installing, Placed;
    ConnsDial(s, t, th);
    DataStays(s, t, th, s');
  }

  /** Only the connection of entry e changes, under e's lock. */
  ghost predicate ChangesEntry(s: State, t: nat, th: Thread, e: nat, s': State) {
    && s'.threads == s.threads[t := th] && s'.table == s.table && |s'.entries| == |s.entries|
    && e < |s.entries| && s'.entries[e].id == s.entries[e].id
    && (forall x :: 0 <= x < |s.entries| && x != e ==> s'.entries[x] == s.entries[x])
    && s'.live == s.live && s'.sessions == s.sessions && |s.issued| == |s'.issued|
  }

  lemma EntryInv(s: State, t: nat, th: Thread, e: nat, s': State)
    requires Inv(s) && Conns(s') && t in s.threads && ChangesEntry(s, t, th, e, s')
    requires EntryMu(e) in Holds(s.threads[t]) && Holds(th) <= Holds(s.threads[t])
    requires s'.entries[e].conn == None || Installing(s.threads[t]) == Some(e)
    requires Placed(s', th) && Installing(th) == None
    requires PendingSessions(th) == PendingSessions(s.threads[t])
    requires forall x :: x in PendingEntries(s.threads[t]) && x !in PendingEntries(th)
               ==> x == e && s'.entries[e].conn == None
    ensures Inv(s')
  {
    PlacedFacts(s);
    hide Inv, Mutex, AllPlaced, Conns, Holds, InHand, CookieInHand, PendingSessions, PendingEntries, Installing, Placed;
    EntryStep(s, t, th, e, s');
    StepPlaced(s, t, th, s');
    SessionsStay(s, t, th, s');
    EntryChanges(s, t, th, e, s');
    StepInv(s, t, th, s');
  }

  lemma EntryStep(s: State, t: nat, th: Thread, e: nat, s': State)
    requires t in s.threads && ChangesEntry(s, t, th, e, s')
    requires EntryMu(e) in Holds(s.threads[t]) && Holds(th) <= Holds(s.threads[t])
    ensures Step(s, t, th, s')
  {
    hide Holds;
  }

  lemma EntryChanges(s: State, t: nat, th: Thread, e: nat, s': State)
    requires AllPlaced(s) && AllPlaced(s') && Step(s, t, th, s') && ChangesEntry(s, t, th, e, s')
    requires EntryMu(e) in Holds(s.threads[t]) && Installing(th) == None
    requires s'.entries[e].conn == None || Installing(s.threads[t]) == Some(e)
    requires forall x :: x in PendingEntries(s.threads[t]) && x !in PendingEntries(th)
               ==> x == e && s'.entries[e].conn == None
    ensures Entries(s, t, th, s')
  {
    hide AllPlaced, Holds, Installing, PendingEntries;
    assert forall x :: 0 <= x < |s.entries| ==> s'.entries[x].id == s.entries[x].id;
  }

  lemma InstallInv(s: State, t: nat, th: Thread, e: nat, s': State)
    requires Inv(s) && t in s.threads && InHand(s.threads[t]).Some? && InHand(th) == None
    requires e < |s.entries| && s.entries[e].conn == None && Installing(s.threads[t]) == Some(e)
    requires s' == s.SetConn(e, InHand(s.threads[t])).Give(InHand(s.threads[t]).value, ByEntry(e)).Go(t, th)
    requires Holds(th) <= Holds(s.threads[t]) && Placed(s', th) && Installing(th) == None
    requires PendingSessions(th) == PendingSessions(s.threads[t])
    requires PendingEntries(th) == PendingEntries(s.threads[t])
    ensures Inv(s')
  {
    InstallingHolds(s.threads[t]);
    PlacedFacts(s);
    hide Inv, Mutex, AllPlaced, Conns, Holds, InHand, CookieInHand, PendingSessions, PendingEntries, Installing, Placed;
    ConnsInstall(s, t, th, e);
    EntryInv(s, t, th, e, s');
  }

  /** closeLocked, by the holder of the entry's lock. */
  lemma CloseLockedInv(s: State, t: nat, th: Thread, e: nat, s': State)
    requires Inv(s) && t in s.threads && InHand(s.threads[t]) == None && InHand(th) == None
    requires e < |s.entries| && EntryMu(e) in Holds(s.threads[t]) && s' == s.CloseLocked(e).Go(t, th)
    requires Holds(th) <= Holds(s.threads[t]) && Placed(s', th) && Installing(th) == None
    requires PendingSessions(th) == PendingSessions(s.threads[t])
    requires forall x :: x in PendingEntries(s.threads[t]) && x != e ==> x in PendingEntries(th)
    ensures Inv(s')
  {
    PlacedFacts(s);
    hide Inv, Mutex, AllPlaced, Conns, Holds, InHand, CookieInHand, PendingSessions, PendingEntries, Installing, Placed;
    ConnsCloseEntry(s, t, th, e);
    EntryInv(s, t, th, e, s');
  }

  /** Whatever leaves the table goes into the hands of the thread that took it out. */
  ghost predicate ChangesTable(s: State, t: nat, th: Thread, s': State) {
    && s'.threads == s.threads[t := th] && s.entries <= s'.entries
    && s'.sessions == s.sessions && s'.live == s.live && s'.owner == s.owner && s'.closes == s.closes
    && s'.issued == s.issued
    && (forall e :: |s.entries| <= e < |s'.entries| ==> s'.entries[e].conn == None)
    && (forall id :: id in s'.table ==> s'.table[id] < |s'.entries| && s'.entries[s'.table[id]].id == id)
    && (forall id :: id in s.table && (id !in s'.table || s'.table[id] != s.table[id])
          ==> s.table[id] in PendingEntries(th))
  }

  lemma TableChanges(s: State, t: nat, th: Thread, s': State)
    requires AllPlaced(s) && AllPlaced(s') && Step(s, t, th, s') && ChangesTable(s, t, th, s')
    requires Installing(th) == None && PendingEntries(s.threads[t]) == []
    ensures Entries(s, t, th, s')
  {
    hide AllPlaced, Holds, Installing, PendingEntries;
  }

  lemma TableInv(s: State, t: nat, th: Thread, s': State)
    requires Inv(s) && t in s.threads && ChangesTable(s, t, th, s')
    requires InHand(s.threads[t]) == None && InHand(th) == None && CookieInHand(th) == None
    requires Holds(th) <= Holds(s.threads[t]) && Placed(s', th) && Installing(th) == None
    requires PendingSessions(th) == PendingSessions(s.threads[t]) && PendingEntries(s.threads[t]) == []
    ensures Inv(s')
  {
    PlacedFacts(s);
    hide Inv, Mutex, AllPlaced, Conns, Holds, InHand, CookieInHand, PendingSessions, PendingEntries, Installing, Placed;
    ConnsStay(s, t, th, s');
    assert Step(s, t, th, s');
    StepPlaced(s, t, th, s');
    SessionsStay(s, t, th, s');
    TableChanges(s, t, th, s');
    StepInv(s, t, th, s');
  }

  /** Sessions taken out of the map, each into the hands of the thread. */
  lemma RemovalInv(s: State, t: nat, th: Thread, live: set<nat>)
    requires Inv(s) && t in s.threads && live <= s.live
    requires InHand(th) == InHand(s.threads[t]) && CookieInHand(th) == None
    requires Holds(th) <= Holds(s.threads[t]) && Placed(s, th) && Installing(th) == None
    requires PendingEntries(th) == PendingEntries(s.threads[t])
    requires Distinct(PendingSessions(th))
    requires forall n :: n in PendingSessions(th) <==> n in PendingSessions(s.threads[t]) || n in s.live - live
    ensures Inv(s.(live := live).Go(t, th))
  {
    var s' := s.(live := live).Go(t, th);
    PlacedFacts(s);
    SessionsRemoved(s, t, th, live);
    hide Inv, Mutex, AllPlaced, Conns, Holds, InHand, CookieInHand, PendingSessions, PendingEntries, Installing, Placed, Distinct, Sessions;
    ConnsStay(s, t, th, s');
    PlacedStable(s, s', th);
    StepPlaced(s, t, th, s');
    EntriesStay(s, t, th, s');
    StepInv(s, t, th, s');
  }

  lemma SessionsRemoved(s: State, t: nat, th: Thread, live: set<nat>)
    requires Inv(s) && t in s.threads && live <= s.live && Holds(th) <= Holds(s.threads[t])
    requires Distinct(PendingSessions(th))
    requires forall n :: n in PendingSessions(th) <==> n in PendingSessions(s.threads[t]) || n in s.live - live
    ensures Sessions(s, t, th, s.(live := live).Go(t, th))
  {
    hide Owned, Counted, Cookies, Mutex, AllPlaced, Detached, Pending, Holds, PendingSessions, Distinct;
    assert |live| <= MAX_SESSIONS by {
      CardinalityMonotone(live, s.live);
    }
  }

  lemma CardinalityMonotone(a: set<nat>, b: set<nat>)
    requires a <= b
    ensures |a| <= |b|
  {
    assert b == a + (b - a);
  }

  /** session.close, by the one thread that took the session out of the map. */
  lemma TakeInv(s: State, t: nat, th: Thread, n: nat, s': State)
    requires Inv(s) && t in s.threads && InHand(s.threads[t]) == None
    requires n < |s.sessions| && s.sessions[n].conn.Some? && InHand(th) == s.sessions[n].conn
    requires CookieInHand(th) == Some(s.sessions[n].cookie)
    requires s' == s.(sessions := s.sessions[n := s.sessions[n].(closed := true, conn := None)])
                    .Give(s.sessions[n].conn.value, ByThread(t)).Go(t, th)
    requires SessionMu(n) in Holds(s.threads[t]) && Holds(th) <= Holds(s.threads[t])
    requires Placed(s', th) && Installing(th) == None && PendingEntries(th) == PendingEntries(s.threads[t])
    requires n in PendingSessions(s.threads[t]) && n !in PendingSessions(th) && Distinct(PendingSessions(th))
    requires forall m :: m in PendingSessions(s.threads[t]) && m != n <==> m in PendingSessions(th)
    ensures Inv(s')
  {
    PlacedFacts(s);
    SessionTaken(s, t, th, n, s');
    hide Inv, Mutex, AllPlaced, Conns, Holds, InHand, CookieInHand, PendingSessions, PendingEntries, Installing, Placed, Distinct, Sessions, Step;
    ConnsTake(s, t, th, n, s');
    StepPlaced(s, t, th, s');
    EntriesStay(s, t, th, s');
    StepInv(s, t, th, s');
  }

  lemma SessionTaken(s: State, t: nat, th: Thread, n: nat, s': State)
    requires Inv(s) && t in s.threads && n < |s.sessions| && s.sessions[n].conn.Some?
    requires s' == s.(sessions := s.sessions[n := s.sessions[n].(closed := true, conn := None)])
                    .Give(s.sessions[n].conn.value, ByThread(t)).Go(t, th)
    requires SessionMu(n) in Holds(s.threads[t]) && Holds(th) <= Holds(s.threads[t])
    requires n in PendingSessions(s.threads[t]) && n !in PendingSessions(th) && Distinct(PendingSessions(th))
    requires forall m :: m in PendingSessions(s.threads[t]) && m != n <==> m in PendingSessions(th)
    ensures Step(s, t, th, s') && Sessions(s, t, th, s')
  {
    hide Owned, Counted, Cookies, Mutex, AllPlaced, Detached, Pending, Holds, PendingSessions, Distinct;
    assert forall m :: 0 <= m < |s.sessions| && m != n ==> s'.sessions[m] == s.sessions[m];
  }

  /** A session installed in the map. */
  lemma GiveInv(s: State, t: nat, th: Thread, id: Id, book: Book, s': State)
    requires Inv(s) && t in s.threads && InHand(s.threads[t]).Some? && InHand(th) == None
    requires CookieInHand(s.threads[t]) == Some("") && |s.live| < MAX_SESSIONS
    requires s' == s.(sessions := s.sessions + [Session(id, InHand(s.threads[t]), "", false, book)],
                      live := s.live + {|s.sessions|})
                    .Give(InHand(s.threads[t]).value, BySession(|s.sessions|)).Go(t, th)
    requires Holds(th) <= Holds(s.threads[t]) && Placed(s', th) && Installing(th) == None
    requires PendingEntries(th) == PendingEntries(s.threads[t])
    requires PendingSessions(th) == [] && PendingSessions(s.threads[t]) == []
    ensures Inv(s')
  {
    PlacedFacts(s);
    hide Inv, Mutex, AllPlaced, Conns, Holds, InHand, CookieInHand, PendingSessions, PendingEntries, Installing, Placed;
    SessionGiven(s, t, th, id, book, s');
    hide Sessions, Step;
    ConnsGive(s, t, th, id, book, s');
    StepPlaced(s, t, th, s');
    EntriesStay(s, t, th, s');
    StepInv(s, t, th, s');
  }

  lemma SessionGiven(s: State, t: nat, th: Thread, id: Id, book: Book, s': State)
    requires Inv(s) && t in s.threads && InHand(s.threads[t]).Some? && |s.live| < MAX_SESSIONS
    requires s' == s.(sessions := s.sessions + [Session(id, InHand(s.threads[t]), "", false, book)],
                      live := s.live + {|s.sessions|})
                    .Give(InHand(s.threads[t]).value, BySession(|s.sessions|)).Go(t, th)
    requires Holds(th) <= Holds(s.threads[t]) && PendingSessions(th) == [] && PendingSessions(s.threads[t]) == []
    ensures Step(s, t, th, s') && Sessions(s, t, th, s')
  {
    hide Inv, Holds, PendingSessions, InHand;
    assert forall m :: 0 <= m < |s.sessions| ==> s'.sessions[m] == s.sessions[m];
  }

  lemma AnswerInv(s: State, t: nat, th: Thread, n: nat, cookie: Cookie, book: Book, s': State)
    requires Inv(s) && t in s.threads && InHand(s.threads[t]) == None && InHand(th) == None
    requires n < |s.sessions| && s.sessions[n].conn.Some? && s.sessions[n].conn.value < |s.issued|
    requires s' == s.(sessions := s.sessions[n := s.sessions[n].(cookie := cookie, book := book)],
                      issued := s.issued[s.sessions[n].conn.value := cookie]).Go(t, th)
    requires Holds(th) <= Holds(s.threads[t]) && Placed(s', th) && Installing(th) == None
    requires PendingSessions(th) == PendingSessions(s.threads[t])
    requires PendingEntries(th) == PendingEntries(s.threads[t])
    ensures Inv(s')
  {
    PlacedFacts(s);
    hide Inv, Mutex, AllPlaced, Conns, Holds, InHand, CookieInHand, PendingSessions, PendingEntries, Installing, Placed;
    AnswerStep(s, t, th, n, cookie, book, s');
    ConnsAnswer(s, t, th, n, cookie, book, s');
    hide Step, KeepsSessions, KeepsEntries, Sessions, Entries;
    StepPlaced(s, t, th, s');
    SessionsStay(s, t, th, s');
    EntriesStay(s, t, th, s');
    StepInv(s, t, th, s');
  }

  lemma AnswerStep(s: State, t: nat, th: Thread, n: nat, cookie: Cookie, book: Book, s': State)
    requires t in s.threads && n < |s.sessions| && s.sessions[n].conn.Some? && s.sessions[n].conn.value < |s.issued|
    requires s' == s.(sessions := s.sessions[n := s.sessions[n].(cookie := cookie, book := book)],
                      issued := s.issued[s.sessions[n].conn.value := cookie]).Go(t, th)
    requires PendingSessions(th) == PendingSessions(s.threads[t])
    requires PendingEntries(th) == PendingEntries(s.threads[t])
    ensures Step(s, t, th, s') && KeepsSessions(s, t, th, s') && KeepsEntries(s, t, th, s')
  {
    hide Holds, PendingSessions, PendingEntries;
  }

  /** The invariant as seen by a thread running a section. */
  ghost predicate At(s: State, t: nat, sec: Section) {
    && Inv(s) && t in s.threads && s.threads[t] == Run(sec)
    && TablesInRange(s) && Placed(s, Run(sec)) && Distinct(PendingSessions(Run(sec)))
    && (forall id :: id in s.table ==> s.table[id] < |s.entries| && s.entries[s.table[id]].id == id)
  }

  lemma IsAt(s: State, t: nat, sec: Section)
    requires Inv(s) && t in s.threads && s.threads[t] == Run(sec)
    ensures At(s, t, sec)
  {
    hide Owned, Counted, Cookies, Mutex, Detached, Placed, InRange, PendingSessions, Holds, Distinct;
  }

  lemma ConnectInv(s: State, t: nat, id: Id, config: Config)
    requires At(s, t, ConnectTable(id, config))
    ensures Inv(DoConnect(s, t, id, config))
  {
    hide Inv;
    var s' := DoConnect(s, t, id, config);
    if id in s.table && s.entries[s.table[id]].config == config {
      MoveInv(s, t, Idle);
    } else {
      TableInv(s, t, s'.threads[t], s');
    }
  }

  lemma DisconnectInv(s: State, t: nat, id: Id)
    requires At(s, t, DisconnectTable(id))
    ensures Inv(DoDisconnect(s, t, id))
  {
    hide Inv;
    var s' := DoDisconnect(s, t, id);
    if id in s.table {
      TableInv(s, t, s'.threads[t], s');
    } else {
      MoveInv(s, t, Idle);
    }
  }

  lemma DoCloseAllInv(s: State, t: nat, order: seq<nat>)
    requires At(s, t, CloseAllTable) && Enumerates(order, s.table.Values)
    ensures Inv(DoCloseAll(s, t, order))
  {
    hide Inv;
    var s' := DoCloseAll(s, t, order);
    forall id | id in s.table ensures s.table[id] in order {
      assert s.table[id] in s.table.Values;
    }
    forall i | 0 <= i < |order| ensures order[i] < |s.entries| {
      assert order[i] in s.table.Values;
    }
    TableInv(s, t, s'.threads[t], s');
  }

  lemma CloseEntryInv(s: State, t: nat, es: seq<nat>, cancel: Option<Id>)
    requires At(s, t, CloseEntry(es, cancel))
    ensures Inv(DoCloseEntry(s, t, es, cancel))
  {
    hide Inv;
    var s' := DoCloseEntry(s, t, es, cancel);
    assert |es| > 1 ==> Entering(CloseEntry(es[1..], cancel)).Some?;
    CloseLockedInv(s, t, s'.threads[t], es[0], s');
  }

  lemma CancelSessionsInv(s: State, t: nat, which: Option<Id>, order: seq<nat>)
    requires At(s, t, CancelSessions(which)) && Enumerates(order, Matching(s, which))
    ensures Inv(DoCancelSessions(s, t, which, order))
  {
    hide Inv;
    forall i | 0 <= i < |order| ensures order[i] < |s.sessions| {
      assert order[i] in Matching(s, which);
    }
    RemovalInv(s, t, CloseAllOf(order, Return), s.live - Matching(s, which));
  }

  lemma CloseSessionInv(s: State, t: nat, ns: seq<nat>, after: After)
    requires At(s, t, CloseSession(ns, after)) && s.sessions[ns[0]].conn.Some? && !s.sessions[ns[0]].closed
    ensures Inv(DoCloseSession(s, t, ns, after))
  {
    hide Inv;
    var s' := DoCloseSession(s, t, ns, after);
    assert ns == [ns[0]] + ns[1..];
    TakeInv(s, t, s'.threads[t], ns[0], s');
  }

  lemma PendingIsOpen(s: State, t: nat, ns: seq<nat>, after: After)
    requires Inv(s) && t in s.threads && s.threads[t] == Run(CloseSession(ns, after)) && ns != []
    ensures ns[0] < |s.sessions| && s.sessions[ns[0]].conn.Some? && !s.sessions[ns[0]].closed
  {
    assert Pending(s) && Removed(s) by {
      hide Owned, Counted, Cookies, Mutex, Detached, Placed, AllPlaced;
    }
    hide Inv;
    assert ns[0] in PendingSessions(s.threads[t]);
  }

  lemma FinishCloseInv(s: State, t: nat, c: nat, cookie: Cookie, ns: seq<nat>, after: After)
    requires At(s, t, FinishClose(c, cookie, ns, after))
    ensures Inv(DoFinishClose(s, t, c, ns, after))
  {
    hide Inv;
    CloseInv(s, t, CloseAllOf(ns, after));
  }

  lemma CheckInv(s: State, t: nat, sec: Section, e: nat, c: nat, current: Thread)
    requires At(s, t, sec) && e < |s.entries| && InHand(Run(sec)) == Some(c)
    requires PendingSessions(Run(sec)) == [] && PendingEntries(Run(sec)) == []
    requires PendingSessions(current) == [] && PendingEntries(current) == [] && InHand(current) == Some(c)
    requires CookieInHand(current).Some? ==> CookieInHand(current) == CookieInHand(Run(sec))
    requires Holds(current) <= Holds(Run(sec)) && Placed(s, current)
    requires Installing(current).Some? ==> Installing(current) == Some(e)
    ensures Inv(DoCheck(s, t, e, c, current))
  {
    hide Inv;
    if s.Current(e) {
      MoveInv(s, t, current);
    } else {
      CloseInv(s, t, Idle);
    }
  }

  lemma DoDialInv(s: State, t: nat, sec: Section, dialOk: bool, dialled: Thread, failed: Thread)
    requires At(s, t, sec) && InHand(Run(sec)) == None && InHand(dialled) == Some(|s.issued|) && InHand(failed) == None
    requires PendingSessions(Run(sec)) == [] && PendingEntries(Run(sec)) == []
    requires PendingSessions(dialled) == [] && PendingEntries(dialled) == [] && Installing(dialled) == None
    requires PendingSessions(failed) == [] && PendingEntries(failed) == [] && Installing(failed) == None
    requires CookieInHand(dialled) == None || CookieInHand(dialled) == Some("")
    requires CookieInHand(failed) == None && Holds(failed) <= Holds(Run(sec)) && Placed(s, failed)
    requires Holds(dialled) <= Holds(Run(sec)) && Placed(s, dialled)
    ensures Inv(DoDial(s, t, dialOk, dialled, failed))
  {
    hide Inv;
    if dialOk {
      DialInv(s, t, dialled);
    } else {
      MoveInv(s, t, failed);
    }
  }

  lemma DoInstallInv(s: State, t: nat, e: nat, c: nat, attempt: Attempt)
    requires At(s, t, Install(e, c, attempt))
    ensures Inv(DoInstall(s, t, e, c, attempt))
  {
    hide Inv;
    InstallInv(s, t, Run(RunShared(e, attempt)), e, DoInstall(s, t, e, c, attempt));
  }

  lemma RunSharedInv(s: State, t: nat, e: nat, attempt: Attempt, outcome: Outcome)
    requires At(s, t, RunShared(e, attempt))
    ensures Inv(DoRunShared(s, t, e, attempt, outcome))
  {
    hide Inv;
    var s' := DoRunShared(s, t, e, attempt, outcome);
    if outcome != Broken || attempt == Retried {
      MoveInv(s, t, Idle);
    } else {
      CloseLockedInv(s, t, s'.threads[t], e, s');
    }
  }

  lemma RunDedicatedInv(s: State, t: nat, e: nat, c: nat, again: bool, outcome: Outcome)
    requires At(s, t, RunDedicated(e, c, again))
    ensures Inv(DoRunDedicated(s, t, e, c, again, outcome))
  {
    hide Inv;
    CloseInv(s, t, if outcome == Broken && !again then Run(DialDedicated(e, true)) else Idle);
  }

  lemma PruneTakeInv(s: State, t: nat, todo: set<nat>, expired: seq<nat>, after: After, n: nat)
    requires At(s, t, Prune(todo, expired, after)) && n in s.live
    ensures Inv(s.(live := s.live - {n}).Go(t, Run(Prune(todo - {n}, expired + [n], after))))
  {
    hide Inv;
    PendingNotLive(s, t, n);
    RemovalInv(s, t, Run(Prune(todo - {n}, expired + [n], after)), s.live - {n});
  }

  lemma PruneInv(s: State, t: nat, todo: set<nat>, expired: seq<nat>, after: After, o: Oracle)
    requires At(s, t, Prune(todo, expired, after))
    ensures Inv(DoPrune(s, t, todo, expired, after, o))
  {
    hide Inv;
    if todo != {} && s.Free(SessionMu(o.pick)) && o.expired && o.pick in s.live {
      PruneTakeInv(s, t, todo, expired, after, o.pick);
    } else {
      MoveInv(s, t, if todo == {} then CloseAllOf(expired, after) else Run(Prune(todo - {o.pick}, expired, after)));
    }
  }

  lemma PendingNotLive(s: State, t: nat, n: nat)
    requires Inv(s) && t in s.threads && n in s.live
    ensures n !in PendingSessions(s.threads[t])
  {
    hide Owned, Counted, Cookies, Mutex, Detached, Placed, AllPlaced, PendingSessions;
  }

  lemma AddSessionInv(s: State, t: nat, e: nat, c: nat, limit: nat)
    requires At(s, t, AddSession(e, c))
    ensures Inv(DoAddSession(s, t, e, c, limit))
  {
    hide Inv, Opened, TablesInRange;
    var s' := DoAddSession(s, t, e, c, limit);
    if |s.live| >= MAX_SESSIONS {
      CloseInv(s, t, Idle);
    } else {
      assert Placed(s', s'.threads[t]);
      GiveInv(s, t, s'.threads[t], s.entries[e].id, Opened(limit), s');
    }
  }

  lemma SessionConnDialled(s: State, n: nat)
    requires Inv(s) && n < |s.sessions|
    ensures s.sessions[n].conn.Some? ==> s.sessions[n].conn.value < |s.issued|
  {
    hide Mutex, AllPlaced, Detached, Pending, Removed, Cookies;
  }

  lemma NextCheckInv(s: State, t: nat, n: nat, expired: bool)
    requires At(s, t, NextCheck(n))
    ensures Inv(s.Go(t, AfterNextCheck(s, n, expired)))
  {
    hide Inv;
    SessionConnDialled(s, n);
    MoveInv(s, t, AfterNextCheck(s, n, expired));
  }

  lemma NextRequestInv(s: State, t: nat, n: nat, o: Oracle)
    requires At(s, t, NextRequest(n))
    ensures Inv(DoNextRequest(s, t, n, o))
  {
    hide Inv;
    var s' := DoNextRequest(s, t, n, o);
    if o.outcome != Fine {
      MoveInv(s, t, Wait(RemoveSession(n)));
    } else {
      AnswerInv(s, t, s'.threads[t], n, o.cookie, s'.sessions[n].book, s');
    }
  }

  lemma RemoveInv(s: State, t: nat, sec: Section, n: nat, wanted: bool)
    requires At(s, t, sec) && (sec.RemoveSession? || sec.CancelOne?)
    ensures Inv(DoRemove(s, t, n, wanted))
  {
    hide Inv;
    if n in s.live && wanted {
      RemovalInv(s, t, Wait(CloseSession([n], Return)), s.live - {n});
    } else {
      MoveInv(s, t, Idle);
    }
  }

  lemma LookupInv(s: State, t: nat, sec: Section, th: Thread)
    requires At(s, t, sec)
    requires (sec.Lookup? && th == AfterLookup(s, sec.id, sec.use))
      || (sec.Snapshot? && th == AfterSnapshot(sec.e, sec.use))
      || (sec.SharedStart? && th == AfterSharedStart(s, sec.e, sec.attempt))
    ensures Inv(s.Go(t, th))
  {
    hide Inv;
    MoveInv(s, t, th);
  }

  lemma CheckBeforeInv(s: State, t: nat, e: nat, attempt: Attempt)
    requires At(s, t, CheckBeforeDial(e, attempt))
    ensures Inv(s.Go(t, if s.Current(e) then Run(DialShared(e, attempt)) else Idle))
  {
    hide Inv;
    MoveInv(s, t, if s.Current(e) then Run(DialShared(e, attempt)) else Idle);
  }

  lemma CountInv(s: State, t: nat, sec: Section, th: Thread)
    requires At(s, t, sec)
    requires (sec.PruneBegin? && th == Run(Prune(s.live, [], sec.after)))
      || (sec.CountSessions? && (th == Idle || th == Run(DialSession(sec.e))))
      || (sec.FindSession? && (th == Idle || (th == Wait(NextCheck(sec.n)) && sec.n in s.live)))
    ensures Inv(s.Go(t, th))
  {
    hide Inv;
    MoveInv(s, t, th);
  }

  predicate TableSection(sec: Section) {
    sec.ConnectTable? || sec.DisconnectTable? || sec.CloseAllTable? || sec.CloseEntry? || sec.CancelSessions?
    || sec.CloseSession? || sec.FinishClose? || sec.Lookup? || sec.Snapshot? || sec.SharedStart?
  }

  lemma ExecTable(s: State, t: nat, sec: Section, o: Oracle)
    requires At(s, t, sec) && InRange(s, sec) && OracleFits(s, sec, o) && TableSection(sec)
    ensures Inv(Exec(s, t, sec, o))
  {
    hide Inv, Placed, Distinct, PendingSessions;
    match sec {
      case ConnectTable(id, config) => ConnectInv(s, t, id, config);
      case DisconnectTable(id) => DisconnectInv(s, t, id);
      case CloseAllTable => DoCloseAllInv(s, t, o.order);
      case CloseEntry(es, cancel) => CloseEntryInv(s, t, es, cancel);
      case CancelSessions(which) => CancelSessionsInv(s, t, which, o.order);
      case CloseSession(ns, after) =>
        PendingIsOpen(s, t, ns, after);
        CloseSessionInv(s, t, ns, after);
      case FinishClose(c, cookie, ns, after) => FinishCloseInv(s, t, c, cookie, ns, after);
      case Lookup(id, use) => LookupInv(s, t, sec, AfterLookup(s, id, use));
      case Snapshot(e, use) => LookupInv(s, t, sec, AfterSnapshot(e, use));
      case SharedStart(e, attempt) => LookupInv(s, t, sec, AfterSharedStart(s, e, attempt));
    }
  }

  predicate ConnSection(sec: Section) {
    sec.CheckBeforeDial? || sec.CheckAfterDial? || sec.Install? || sec.RunShared?
    || sec.CheckDedicated? || sec.RunDedicated? || sec.CheckSession?
  }

  lemma ExecDial(s: State, t: nat, sec: Section, o: Oracle)
    requires At(s, t, sec) && InRange(s, sec) && OracleFits(s, sec, o)
    requires sec.DialShared? || sec.DialDedicated? || sec.DialSession?
    ensures Inv(Exec(s, t, sec, o))
  {
    hide Inv, Distinct;
    match sec {
      case DialShared(e, attempt) =>
        DoDialInv(s, t, sec, o.dialOk, Wait(CheckAfterDial(e, |s.issued|, attempt)), Idle);
      case DialDedicated(e, again) =>
        DoDialInv(s, t, sec, o.dialOk, Wait(CheckDedicated(e, |s.issued|, again)),
                  if again then Idle else Wait(Lookup(s.entries[e].id, ForShared(First))));
      case DialSession(e) => DoDialInv(s, t, sec, o.dialOk, Wait(CheckSession(e, |s.issued|)), Idle);
    }
  }

  lemma ExecConn(s: State, t: nat, sec: Section, o: Oracle)
    requires At(s, t, sec) && InRange(s, sec) && OracleFits(s, sec, o) && ConnSection(sec)
    ensures Inv(Exec(s, t, sec, o))
  {
    hide Inv, Distinct;
    match sec {
      case CheckBeforeDial(e, attempt) => CheckBeforeInv(s, t, e, attempt);
      case CheckAfterDial(e, c, attempt) => CheckInv(s, t, sec, e, c, Run(Install(e, c, attempt)));
      case Install(e, c, attempt) => DoInstallInv(s, t, e, c, attempt);
      case RunShared(e, attempt) => RunSharedInv(s, t, e, attempt, o.outcome);
      case CheckDedicated(e, c, again) => CheckInv(s, t, sec, e, c, Run(RunDedicated(e, c, again)));
      case RunDedicated(e, c, again) => RunDedicatedInv(s, t, e, c, again, o.outcome);
      case CheckSession(e, c) => CheckInv(s, t, sec, e, c, Wait(AddSession(e, c)));
    }
  }

  lemma ExecSession(s: State, t: nat, sec: Section, o: Oracle)
    requires At(s, t, sec) && InRange(s, sec) && OracleFits(s, sec, o)
    requires !TableSection(sec) && !ConnSection(sec) && !sec.DialShared? && !sec.DialDedicated? && !sec.DialSession?
    ensures Inv(Exec(s, t, sec, o))
  {
    hide Inv, Placed, Distinct, PendingSessions;
    match sec {
      case PruneBegin(after) => CountInv(s, t, sec, Run(Prune(s.live, [], after)));
      case Prune(todo, expired, after) => PruneInv(s, t, todo, expired, after, o);
      case CountSessions(e) => CountInv(s, t, sec, if |s.live| >= MAX_SESSIONS then Idle else Run(DialSession(e)));
      case AddSession(e, c) => AddSessionInv(s, t, e, c, o.limit);
      case NextCheck(n) => NextCheckInv(s, t, n, o.expired);
      case NextRequest(n) => NextRequestInv(s, t, n, o);
      case RemoveSession(n) => RemoveInv(s, t, sec, n, true);
      case FindSession(id, n) =>
        CountInv(s, t, sec, if n in s.live && s.sessions[n].id == id then Wait(NextCheck(n)) else Idle);
      case CancelOne(id, n) => RemoveInv(s, t, sec, n, n in s.live && s.sessions[n].id == id);
    }
  }

  lemma ExecInv(s: State, t: nat, sec: Section, o: Oracle)
    requires Inv(s) && t in s.threads && s.threads[t] == Run(sec)
    requires TablesInRange(s) && InRange(s, sec) && OracleFits(s, sec, o)
    ensures Inv(Exec(s, t, sec, o))
  {
    hide Inv, Exec;
    IsAt(s, t, sec);
    if TableSection(sec) {
      ExecTable(s, t, sec, o);
    } else if ConnSection(sec) {
      ExecConn(s, t, sec, o);
    } else if sec.DialShared? || sec.DialDedicated? || sec.DialSession? {
      ExecDial(s, t, sec, o);
    } else {
      ExecSession(s, t, sec, o);
    }
  }

  lemma AcquireMutex(s: State, t: nat, th: Thread, l: Lock)
    requires Mutex(s) && t in s.threads && s.Free(l) && Holds(th) == Holds(s.threads[t]) + {l}
    ensures Mutex(s.Go(t, th))
  {
    hide Holds;
  }

  lemma AcquirePlaced(s: State, th: Thread)
    requires Placed(s, th) && th.Wait?
    ensures Placed(s, Run(th.sec)) && Installing(Run(th.sec)) == None
    ensures Holds(Run(th.sec)) == Holds(th) + {Entering(th.sec).value}
    ensures InHand(Run(th.sec)) == InHand(th) && CookieInHand(Run(th.sec)) == CookieInHand(th)
    ensures PendingSessions(Run(th.sec)) == PendingSessions(th) && PendingEntries(Run(th.sec)) == PendingEntries(th)
  {
  }

  lemma AcquireInv(s: State, t: nat)
    requires Inv(s) && t in s.threads && s.threads[t].Wait? && Placed(s, s.threads[t])
    requires Entering(s.threads[t].sec).Some? && s.Free(Entering(s.threads[t].sec).value)
    ensures Inv(s.Go(t, Run(s.threads[t].sec)))
  {
    var th := Run(s.threads[t].sec);
    PlacedFacts(s);
    AcquirePlaced(s, s.threads[t]);
    hide Inv, Mutex, AllPlaced, Conns, Holds, InHand, CookieInHand, PendingSessions, PendingEntries, Installing, Placed;
    AcquireMutex(s, t, th, Entering(s.threads[t].sec).value);
    MoveInv(s, t, th);
  }

  lemma BeginInv(s: State, t: nat, op: Op)
    requires Inv(s) && t in s.threads && s.threads[t] == Idle
    ensures Inv(s.Go(t, Wait(Entry0(op))))
  {
    hide Inv;
    MoveInv(s, t, Wait(Entry0(op)));
  }

  /** Every move of every thread keeps the invariant. */
  lemma NextInv(s: State, m: Move)
    requires Inv(s) && Enabled(s, m)
    ensures Inv(Next(s, m))
  {
    hide Inv, Exec, InRange, OracleFits, Placed, Entry0, Entering, Holds;
    match m {
      case Begin(t, op) => BeginInv(s, t, op);
      case Acquire(t) => PlacedFacts(s); AcquireInv(s, t);
      case Execute(t, o) => ExecInv(s, t, s.threads[t].sec, o);
    }
  }

  lemma InitInv(s: State)
    requires Init(s)
    ensures Inv(s)
  {
  }

  lemma {:induction false} RunInv(s: State, moves: seq<Move>, s': State)
    requires Inv(s) && Reaches(s, moves, s')
    ensures Inv(s')
    decreases |moves|
  {
    hide Inv, Next, Enabled;
    if moves != [] {
      NextInv(s, moves[0]);
      RunInv(Next(s, moves[0]), moves[1..], s');
    }
  }
}
