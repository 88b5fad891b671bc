/**
 The connection table, the shared connections and the paging sessions of the sidecar as a
 transition system at lock granularity: backend/internal/ldapconn/service.go,
 search_sessions.go and dedicated_conn.go.

 A thread is idle, waits for the lock that guards a section of code, or runs that section.
 Every critical section and every network round trip is a section of its own, so all
 interleavings that the mutexes allow are runs of this system.
 */
module ConnectionProtocol {
  import opened Wrappers

  type Id = string      // connection id
  type Config = string  // profile, secrets and dial target, compared as a whole
  type Cookie = string  // RFC 2696 paging cookie; empty when there is none
  type Item = string    // an entry of a search result

  const MAX_SESSIONS := 16

  // --- Locks ---------------------------------------------------------------------------

  datatype Lock = EntryMu(entry: nat) | SessionMu(session: nat) | TableMu | SessionsMu

  /** The order in which one thread may nest the locks: entry.mu before s.mu, nothing else. */
  function Rank(l: Lock): nat {
    match l
    case EntryMu(_) => 0
    case SessionMu(_) => 1
    case TableMu => 1
    case SessionsMu => 1
  }

  // --- Data under the locks -------------------------------------------------------------

  datatype Entry = Entry(id: Id, config: Config, conn: Option<nat>)

  /**
   What a session has been sent and has handed out. remaining is the source's field, 0 when there is
   no limit; the rest is history: the limit asked for, all entries the server answered with, all
   entries handed out, and whether a page without more to come has been handed out.
   */
  datatype Book = Book(limit: nat, remaining: nat, answered: seq<Item>, delivered: seq<Item>, ended: bool)

  datatype Session = Session(id: Id, conn: Option<nat>, cookie: Cookie, closed: bool, book: Book)

  function Opened(limit: nat): Book {
    Book(limit, limit, [], [], false)
  }

  /** How a page is cut: remaining is 0 when there is no limit, and also once it is used up. */
  function Cut(remaining: nat, entries: seq<Item>): (seq<Item>, nat, bool) {
    if remaining == 0 then (entries, 0, false)
    else if |entries| >= remaining then (entries[..remaining], 0, true)
    else (entries, remaining - |entries|, false)
  }

  /** What the response says about further pages. */
  predicate HasMore(b: Book, entries: seq<Item>, cookie: Cookie) {
    cookie != "" && !Cut(b.remaining, entries).2
  }

  function Booked(b: Book, entries: seq<Item>, cookie: Cookie): Book {
    var (page, remaining, _) := Cut(b.remaining, entries);
    Book(b.limit, remaining, b.answered + entries, b.delivered + page, b.ended || !HasMore(b, entries, cookie))
  }

  datatype Owner = ByEntry(e: nat) | BySession(n: nat) | ByThread(t: nat)

  /** What is left to do once a list of removed sessions has been closed. */
  datatype After = Return | ThenStart(e: nat) | ThenFind(id: Id, n: nat)

  /** Once: WithConnOnce. First and Retried: the two runs WithConn may make. */
  datatype Attempt = Once | First | Retried

  datatype Use = ForShared(attempt: Attempt) | ForDedicated | ForSearch

  /** The sections of code. The comments name the function of the sidecar they belong to. */
  datatype Section =
    | ConnectTable(id: Id, config: Config)                 // Connect
    | DisconnectTable(id: Id)                              // Disconnect
    | CloseAllTable                                        // CloseAll
    | CloseEntry(es: seq<nat>, cancel: Option<Id>)         // closeLocked on each detached entry
    | CancelSessions(which: Option<Id>)                    // cancelSearchSessionsForConnection, cancelAll
    | CloseSession(ns: seq<nat>, after: After)             // session.close, up to its unlock
    | FinishClose(c: nat, cookie: Cookie, ns: seq<nat>, after: After)  // abandon request, conn.Close
    | Lookup(id: Id, use: Use)                             // lookup
    | Snapshot(e: nat, use: Use)                           // the copy under entry.mu
    | SharedStart(e: nat, attempt: Attempt)                // withConn
    | CheckBeforeDial(e: nat, attempt: Attempt)            // connectLocked, first identity check
    | DialShared(e: nat, attempt: Attempt)                 // connectLocked, the dial
    | CheckAfterDial(e: nat, c: nat, attempt: Attempt)     // connectLocked, second identity check
    | Install(e: nat, c: nat, attempt: Attempt)            // connectLocked, entry.conn = conn
    | RunShared(e: nat, attempt: Attempt)                  // fn(entry.conn)
    | DialDedicated(e: nat, again: bool)                   // withDedicatedConn, the dials
    | CheckDedicated(e: nat, c: nat, again: bool)          // withDedicatedConn, identity check
    | RunDedicated(e: nat, c: nat, again: bool)            // withDedicatedConn, fn(conn)
    | PruneBegin(after: After)                             // pruneExpiredSearchSessions
    | Prune(todo: set<nat>, expired: seq<nat>, after: After)
    | CountSessions(e: nat)                                // ensureSearchSessionCapacity
    | DialSession(e: nat)                                  // SearchStart, the dial
    | CheckSession(e: nat, c: nat)                         // addSearchSession, identity check
    | AddSession(e: nat, c: nat)                           // addSearchSession, installation
    | NextCheck(n: nat)                                    // nextSearchSession, closed and expiry
    | NextRequest(n: nat)                                  // nextSearchSession, the search request
    | RemoveSession(n: nat)                                // removeAndCloseSearchSession
    | FindSession(id: Id, n: nat)                          // findSearchSession
    | CancelOne(id: Id, n: nat)                            // SearchCancel

  /** The lock a thread takes to enter the section; none when it already holds all it needs. */
  function Entering(sec: Section): Option<Lock> {
    match sec
    case ConnectTable(_, _) => Some(TableMu)
    case DisconnectTable(_) => Some(TableMu)
    case CloseAllTable => Some(TableMu)
    case CloseEntry(es, _) => if es == [] then None else Some(EntryMu(es[0]))
    case CancelSessions(_) => Some(SessionsMu)
    case CloseSession(ns, _) => if ns == [] then None else Some(SessionMu(ns[0]))
    case FinishClose(_, _, _, _) => None
    case Lookup(_, _) => Some(TableMu)
    case Snapshot(e, _) => Some(EntryMu(e))
    case SharedStart(e, _) => Some(EntryMu(e))
    case CheckBeforeDial(_, _) => Some(TableMu)
    case DialShared(_, _) => None
    case CheckAfterDial(_, _, _) => Some(TableMu)
    case Install(_, _, _) => None
    case RunShared(_, _) => None
    case DialDedicated(_, _) => None
    case CheckDedicated(_, _, _) => Some(TableMu)
    case RunDedicated(_, _, _) => None
    case PruneBegin(_) => Some(SessionsMu)
    case Prune(_, _, _) => None
    case CountSessions(_) => Some(SessionsMu)
    case DialSession(_) => None
    case CheckSession(_, _) => Some(TableMu)
    case AddSession(_, _) => Some(SessionsMu)
    case NextCheck(n) => Some(SessionMu(n))
    case NextRequest(_) => None
    case RemoveSession(_) => Some(SessionsMu)
    case FindSession(_, _) => Some(SessionsMu)
    case CancelOne(_, _) => Some(SessionsMu)
  }

  /** The locks carried into the section from the one before it. */
  function Carried(sec: Section): set<Lock> {
    match sec
    case CheckBeforeDial(e, _) => {EntryMu(e)}
    case DialShared(e, _) => {EntryMu(e)}
    case CheckAfterDial(e, _, _) => {EntryMu(e)}
    case Install(e, _, _) => {EntryMu(e)}
    case RunShared(e, _) => {EntryMu(e)}
    case Prune(_, _, _) => {SessionsMu}
    case NextRequest(n) => {SessionMu(n)}
    case _ => {}
  }

  datatype Thread = Idle | Wait(sec: Section) | Run(sec: Section)

  function Holds(th: Thread): set<Lock> {
    match th
    case Idle => {}
    case Wait(sec) => Carried(sec)
    case Run(sec) => Carried(sec) + if Entering(sec).Some? then {Entering(sec).value} else {}
  }

  /** The connection a thread has dialled or taken out of a session and must itself dispose of. */
  function InHand(th: Thread): Option<nat> {
    if th.Idle? then None else
    match th.sec
    case FinishClose(c, _, _, _) => Some(c)
    case CheckAfterDial(_, c, _) => Some(c)
    case Install(_, c, _) => Some(c)
    case CheckDedicated(_, c, _) => Some(c)
    case RunDedicated(_, c, _) => Some(c)
    case CheckSession(_, c) => Some(c)
    case AddSession(_, c) => Some(c)
    case _ => None
  }

  /** The detached entries a thread still has to close. */
  function PendingEntries(th: Thread): seq<nat> {
    if !th.Idle? && th.sec.CloseEntry? then th.sec.es else []
  }

  /** The sessions a thread has removed from the map and still has to close. */
  function PendingSessions(th: Thread): seq<nat> {
    if th.Idle? then [] else
    match th.sec
    case CloseSession(ns, _) => ns
    case FinishClose(_, _, ns, _) => ns
    case Prune(_, expired, _) => expired
    case _ => []
  }

  datatype State = State(
    table: map<Id, nat>,        // s.conns
    entries: seq<Entry>,        // every entry ever made
    live: set<nat>,             // s.searchSessions
    sessions: seq<Session>,     // every session ever installed
    threads: map<nat, Thread>,
    owner: map<nat, Owner>,     // the open connections, each with its one owner
    closes: multiset<nat>,      // one element for each conn.Close
    issued: seq<Cookie>         // for each connection ever dialled, the cookie of its last response
  ) {
    predicate Current(e: nat)
      requires e < |entries|
    {
      entries[e].id in table && table[entries[e].id] == e
    }

    ghost predicate Free(l: Lock) {
      forall t :: t in threads ==> l !in Holds(threads[t])
    }

    function Go(t: nat, th: Thread): State {
      this.(threads := threads[t := th])
    }

    /** conn.Close() */
    function Close(c: nat): State {
      this.(owner := owner - {c}, closes := closes + multiset{c})
    }

    function Give(c: nat, o: Owner): State {
      this.(owner := owner[c := o])
    }

    /** A successful dial gives the thread a connection not dialled before. */
    function Dialled(t: nat): State {
      Give(|issued|, ByThread(t)).(issued := issued + [""])
    }

    function SetConn(e: nat, c: Option<nat>): State
      requires e < |entries|
    {
      this.(entries := entries[e := entries[e].(conn := c)])
    }

    /** closeLocked */
    function CloseLocked(e: nat): State
      requires e < |entries|
    {
      match entries[e].conn
      case None => this
      case Some(c) => Close(c).SetConn(e, None)
    }
  }

  // --- The sections ---------------------------------------------------------------------

  datatype Outcome = Fine | Broken | Failed  // Broken: ldapNeedsReconnect(err)

  /** What the network, the clock and map iteration decide in one section; limit is the size limit
      of the request under way. */
  datatype Oracle = Oracle(dialOk: bool, outcome: Outcome, cookie: Cookie, entries: seq<Item>,
                           limit: nat, expired: bool, pick: nat, order: seq<nat>)

  predicate Distinct(s: seq<nat>) {
    forall i, j :: 0 <= i < j < |s| ==> s[i] != s[j]
  }

  ghost predicate Enumerates(order: seq<nat>, all: set<nat>) {
    Distinct(order) && forall x :: x in order <==> x in all
  }

  ghost predicate TablesInRange(s: State) {
    && (forall n :: n in s.live ==> n < |s.sessions|)
    && (forall id :: id in s.table ==> s.table[id] < |s.entries|)
  }

  /** The sessions that cancelSearchSessionsForConnection (or, for None, cancelAll) takes out. */
  function Matching(s: State, which: Option<Id>): set<nat>
    requires TablesInRange(s)
  {
    set n | n in s.live && (which == None || Some(s.sessions[n].id) == which)
  }

  /** Indices in range; enough for every section to be executable. */
  ghost predicate InRange(s: State, sec: Section) {
    match sec
    case CloseEntry(es, _) => es != [] && forall i :: 0 <= i < |es| ==> es[i] < |s.entries|
    case CloseSession(ns, _) => ns != [] && forall i :: 0 <= i < |ns| ==> ns[i] < |s.sessions|
    case Snapshot(e, _) => e < |s.entries|
    case SharedStart(e, _) => e < |s.entries|
    case CheckBeforeDial(e, _) => e < |s.entries|
    case DialShared(e, _) => e < |s.entries|
    case CheckAfterDial(e, _, _) => e < |s.entries|
    case Install(e, _, _) => e < |s.entries|
    case RunShared(e, _) => e < |s.entries| && s.entries[e].conn.Some?
    case DialDedicated(e, _) => e < |s.entries|
    case CheckDedicated(e, _, _) => e < |s.entries|
    case RunDedicated(e, _, _) => e < |s.entries|
    case CountSessions(e) => e < |s.entries|
    case DialSession(e) => e < |s.entries|
    case CheckSession(e, _) => e < |s.entries|
    case AddSession(e, _) => e < |s.entries|
    case NextCheck(n) => n < |s.sessions|
    case NextRequest(n) =>
      n < |s.sessions| && s.sessions[n].conn.Some? && s.sessions[n].conn.value < |s.issued|
    case _ => true
  }

  ghost predicate OracleFits(s: State, sec: Section, o: Oracle)
    requires TablesInRange(s) && InRange(s, sec)
  {
    match sec
    case CloseAllTable => Enumerates(o.order, s.table.Values)
    case CancelSessions(which) => Enumerates(o.order, Matching(s, which))
    case Prune(todo, _, _) => todo == {} || o.pick in todo
    case _ => true
  }

  function Continue(after: After): Thread {
    match after
    case Return => Idle
    case ThenStart(e) => Wait(CountSessions(e))
    case ThenFind(id, n) => Wait(FindSession(id, n))
  }

  function CloseAllOf(ns: seq<nat>, after: After): Thread {
    if ns == [] then Continue(after) else Wait(CloseSession(ns, after))
  }

  // Each function below is one section run by thread t: the new state, with the locks that
  // the thread's new position does not hold released.

  /** Connect: an unchanged configuration keeps the entry; otherwise a new entry replaces it. */
  function DoConnect(s: State, t: nat, id: Id, config: Config): State
    requires TablesInRange(s)
  {
    if id in s.table && s.entries[s.table[id]].config == config then
      s.Go(t, Idle)
    else
      s.(entries := s.entries + [Entry(id, config, None)], table := s.table[id := |s.entries|])
       .Go(t, if id in s.table then Wait(CloseEntry([s.table[id]], Some(id)))
              else Wait(CancelSessions(Some(id))))
  }

  function DoDisconnect(s: State, t: nat, id: Id): State {
    if id in s.table then
      s.(table := s.table - {id}).Go(t, Wait(CloseEntry([s.table[id]], Some(id))))
    else s.Go(t, Idle)
  }

  function DoCloseAll(s: State, t: nat, order: seq<nat>): State {
    s.(table := map[]).Go(t, if order == [] then Wait(CancelSessions(None)) else Wait(CloseEntry(order, None)))
  }

  function DoCloseEntry(s: State, t: nat, es: seq<nat>, cancel: Option<Id>): State
    requires es != [] && es[0] < |s.entries|
  {
    s.CloseLocked(es[0]).Go(t, if |es| == 1 then Wait(CancelSessions(cancel)) else Wait(CloseEntry(es[1..], cancel)))
  }

  function DoCancelSessions(s: State, t: nat, which: Option<Id>, order: seq<nat>): State
    requires TablesInRange(s)
  {
    s.(live := s.live - Matching(s, which)).Go(t, CloseAllOf(order, Return))
  }

  function DoCloseSession(s: State, t: nat, ns: seq<nat>, after: After): State
    requires ns != [] && ns[0] < |s.sessions|
  {
    var session := s.sessions[ns[0]];
    if session.closed || session.conn.None? then s.Go(t, CloseAllOf(ns[1..], after))
    else
      s.(sessions := s.sessions[ns[0] := session.(closed := true, conn := None)])
       .Give(session.conn.value, ByThread(t))
       .Go(t, Run(FinishClose(session.conn.value, session.cookie, ns[1..], after)))
  }

  function DoFinishClose(s: State, t: nat, c: nat, ns: seq<nat>, after: After): State {
    s.Close(c).Go(t, CloseAllOf(ns, after))
  }

  function AfterLookup(s: State, id: Id, use: Use): Thread {
    if id !in s.table then Idle
    else if use.ForShared? then Wait(SharedStart(s.table[id], use.attempt))
    else Wait(Snapshot(s.table[id], use))
  }

  function AfterSnapshot(e: nat, use: Use): Thread {
    if use.ForSearch? then Wait(PruneBegin(ThenStart(e))) else Run(DialDedicated(e, false))
  }

  function AfterSharedStart(s: State, e: nat, attempt: Attempt): Thread
    requires e < |s.entries|
  {
    if s.entries[e].conn.Some? then Run(RunShared(e, attempt)) else Wait(CheckBeforeDial(e, attempt))
  }

  function DoDial(s: State, t: nat, dialOk: bool, dialled: Thread, failed: Thread): State {
    if dialOk then s.Dialled(t).Go(t, dialled) else s.Go(t, failed)
  }

  /** connectionEntryCurrent after a dial: a connection for a replaced entry is closed. */
  function DoCheck(s: State, t: nat, e: nat, c: nat, current: Thread): State
    requires e < |s.entries|
  {
    if s.Current(e) then s.Go(t, current) else s.Close(c).Go(t, Idle)
  }

  function DoInstall(s: State, t: nat, e: nat, c: nat, attempt: Attempt): State
    requires e < |s.entries|
  {
    s.SetConn(e, Some(c)).Give(c, ByEntry(e)).Go(t, Run(RunShared(e, attempt)))
  }

  /** fn on the shared connection: a broken one is closed, and WithConn dials once more. */
  function DoRunShared(s: State, t: nat, e: nat, attempt: Attempt, outcome: Outcome): State
    requires e < |s.entries|
  {
    if outcome != Broken || attempt == Retried then s.Go(t, Idle)
    else s.CloseLocked(e).Go(t, if attempt == Once then Idle else Wait(CheckBeforeDial(e, Retried)))
  }

  function DoRunDedicated(s: State, t: nat, e: nat, c: nat, again: bool, outcome: Outcome): State {
    s.Close(c).Go(t, if outcome == Broken && !again then Run(DialDedicated(e, true)) else Idle)
  }

  /** One turn of the prune loop: TryLock, expiry test and removal of one session. */
  ghost function DoPrune(s: State, t: nat, todo: set<nat>, expired: seq<nat>, after: After, o: Oracle): State {
    if todo == {} then s.Go(t, CloseAllOf(expired, after))
    else if s.Free(SessionMu(o.pick)) && o.expired && o.pick in s.live then
      s.(live := s.live - {o.pick}).Go(t, Run(Prune(todo - {o.pick}, expired + [o.pick], after)))
    else s.Go(t, Run(Prune(todo - {o.pick}, expired, after)))
  }

  function DoAddSession(s: State, t: nat, e: nat, c: nat, limit: nat): State
    requires e < |s.entries|
  {
    if |s.live| >= MAX_SESSIONS then s.Close(c).Go(t, Idle)
    else
      s.(sessions := s.sessions + [Session(s.entries[e].id, Some(c), "", false, Opened(limit))],
         live := s.live + {|s.sessions|})
       .Give(c, BySession(|s.sessions|)).Go(t, Wait(NextCheck(|s.sessions|)))
  }

  function AfterNextCheck(s: State, n: nat, expired: bool): Thread
    requires n < |s.sessions|
  {
    if s.sessions[n].closed || s.sessions[n].conn.None? || expired then Wait(RemoveSession(n))
    else Run(NextRequest(n))
  }

  /** The search request of a page and its response. */
  function DoNextRequest(s: State, t: nat, n: nat, o: Oracle): State
    requires n < |s.sessions| && s.sessions[n].conn.Some? && s.sessions[n].conn.value < |s.issued|
  {
    if o.outcome != Fine then s.Go(t, Wait(RemoveSession(n)))
    else
      var book := s.sessions[n].book;
      s.(sessions := s.sessions[n := s.sessions[n].(cookie := o.cookie, book := Booked(book, o.entries, o.cookie))],
         issued := s.issued[s.sessions[n].conn.value := o.cookie])
       .Go(t, if HasMore(book, o.entries, o.cookie) then Idle else Wait(RemoveSession(n)))
  }

  /** removeAndCloseSearchSession and SearchCancel: only the thread that takes the session out
      of the map closes it. */
  function DoRemove(s: State, t: nat, n: nat, wanted: bool): State {
    if n in s.live && wanted then s.(live := s.live - {n}).Go(t, Wait(CloseSession([n], Return)))
    else s.Go(t, Idle)
  }

  ghost function Exec(s: State, t: nat, sec: Section, o: Oracle): State
    requires TablesInRange(s) && InRange(s, sec) && OracleFits(s, sec, o)
  {
    match sec
    case ConnectTable(id, config) => DoConnect(s, t, id, config)
    case DisconnectTable(id) => DoDisconnect(s, t, id)
    case CloseAllTable => DoCloseAll(s, t, o.order)
    case CloseEntry(es, cancel) => DoCloseEntry(s, t, es, cancel)
    case CancelSessions(which) => DoCancelSessions(s, t, which, o.order)
    case CloseSession(ns, after) => DoCloseSession(s, t, ns, after)
    case FinishClose(c, _, ns, after) => DoFinishClose(s, t, c, ns, after)
    case Lookup(id, use) => s.Go(t, AfterLookup(s, id, use))
    case Snapshot(e, use) => s.Go(t, AfterSnapshot(e, use))
    case SharedStart(e, attempt) => s.Go(t, AfterSharedStart(s, e, attempt))
    case CheckBeforeDial(e, attempt) => s.Go(t, if s.Current(e) then Run(DialShared(e, attempt)) else Idle)
    case DialShared(e, attempt) => DoDial(s, t, o.dialOk, Wait(CheckAfterDial(e, |s.issued|, attempt)), Idle)
    case CheckAfterDial(e, c, attempt) => DoCheck(s, t, e, c, Run(Install(e, c, attempt)))
    case Install(e, c, attempt) => DoInstall(s, t, e, c, attempt)
    case RunShared(e, attempt) => DoRunShared(s, t, e, attempt, o.outcome)
    case DialDedicated(e, again) =>
      DoDial(s, t, o.dialOk, Wait(CheckDedicated(e, |s.issued|, again)),
             if again then Idle else Wait(Lookup(s.entries[e].id, ForShared(First))))
    case CheckDedicated(e, c, again) => DoCheck(s, t, e, c, Run(RunDedicated(e, c, again)))
    case RunDedicated(e, c, again) => DoRunDedicated(s, t, e, c, again, o.outcome)
    case PruneBegin(after) => s.Go(t, Run(Prune(s.live, [], after)))
    case Prune(todo, expired, after) => DoPrune(s, t, todo, expired, after, o)
    case CountSessions(e) => s.Go(t, if |s.live| >= MAX_SESSIONS then Idle else Run(DialSession(e)))
    case DialSession(e) => DoDial(s, t, o.dialOk, Wait(CheckSession(e, |s.issued|)), Idle)
    case CheckSession(e, c) => DoCheck(s, t, e, c, Wait(AddSession(e, c)))
    case AddSession(e, c) => DoAddSession(s, t, e, c, o.limit)
    case NextCheck(n) => s.Go(t, AfterNextCheck(s, n, o.expired))
    case NextRequest(n) => DoNextRequest(s, t, n, o)
    case RemoveSession(n) => DoRemove(s, t, n, true)
    case FindSession(id, n) =>
      s.Go(t, if n in s.live && s.sessions[n].id == id then Wait(NextCheck(n)) else Idle)
    case CancelOne(id, n) => DoRemove(s, t, n, n in s.live && s.sessions[n].id == id)
  }

  // --- Runs -----------------------------------------------------------------------------

  datatype Op =
    | OpConnect(id: Id, config: Config)
    | OpDisconnect(id: Id)
    | OpCloseAll
    | OpWithConn(id: Id, retry: bool)
    | OpDedicated(id: Id)
    | OpSearchStart(id: Id)
    | OpSearchNext(id: Id, n: nat)
    | OpSearchCancel(id: Id, n: nat)
    | OpReap

  function Entry0(op: Op): Section {
    match op
    case OpConnect(id, config) => ConnectTable(id, config)
    case OpDisconnect(id) => DisconnectTable(id)
    case OpCloseAll => CloseAllTable
    case OpWithConn(id, retry) => Lookup(id, ForShared(if retry then First else Once))
    case OpDedicated(id) => Lookup(id, ForDedicated)
    case OpSearchStart(id) => Lookup(id, ForSearch)
    case OpSearchNext(id, n) => PruneBegin(ThenFind(id, n))
    case OpSearchCancel(id, n) => CancelOne(id, n)
    case OpReap => PruneBegin(Return)
  }

  datatype Move = Begin(t: nat, op: Op) | Acquire(t: nat) | Execute(t: nat, o: Oracle)

  ghost predicate Enabled(s: State, m: Move) {
    m.t in s.threads &&
    var th := s.threads[m.t];
    match m
    case Begin(_, _) => th.Idle?
    case Acquire(_) => th.Wait? && Entering(th.sec).Some? && s.Free(Entering(th.sec).value)
    case Execute(_, o) => th.Run? && TablesInRange(s) && InRange(s, th.sec) && OracleFits(s, th.sec, o)
  }

  ghost function Next(s: State, m: Move): State
    requires Enabled(s, m)
  {
    match m
    case Begin(t, op) => s.Go(t, Wait(Entry0(op)))
    case Acquire(t) => s.Go(t, Run(s.threads[t].sec))
    case Execute(t, o) => Exec(s, t, s.threads[t].sec, o)
  }

  /** A service just made, with any finite number of idle threads. */
  ghost predicate Init(s: State) {
    && s.table == map[] && s.entries == [] && s.live == {} && s.sessions == []
    && s.owner == map[] && s.closes == multiset{} && s.issued == []
    && forall t :: t in s.threads ==> s.threads[t] == Idle
  }

  ghost predicate Reaches(s: State, moves: seq<Move>, s': State)
    decreases |moves|
  {
    if moves == [] then s' == s
    else Enabled(s, moves[0]) && Reaches(Next(s, moves[0]), moves[1..], s')
  }
}
