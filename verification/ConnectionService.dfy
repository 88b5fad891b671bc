/**
 The sections of ConnectionProtocol as the sidecar runs them: each method is what one thread does
 between taking a lock and giving it back, on the tables, entries and sessions in place.
 */
module ConnectionService {
  import opened Wrappers
  import opened ConnectionProtocol

  /** The part of the protocol's state that lives in the tables and in the objects they hold. */
  datatype Data = Data(table: map<Id, nat>, entries: seq<Entry>, live: set<nat>, sessions: seq<Session>)

  function DataOf(s: State): Data {
    Data(s.table, s.entries, s.live, s.sessions)
  }

  class ConnEntry {
    const id: Id
    const config: Config
    var conn: Option<nat>
    /** Its place among all entries ever made. */
    ghost const no: nat

    constructor (id: Id, config: Config, ghost no: nat)
      ensures this.id == id && this.config == config && this.no == no && conn == None
    {
      this.id, this.config, this.no := id, config, no;
      conn := None;
    }

    ghost function View(): Entry
      reads this
    {
      Entry(id, config, conn)
    }
  }

  class SearchSession {
    /** Stands for the random identifier. */
    const key: nat
    const connectionId: Id
    var conn: Option<nat>
    var cookie: Cookie
    var closed: bool
    var remaining: nat
    /** The limit asked for, what the server has answered, what was handed out, and whether a page
        without more to come was. */
    ghost const limit: nat
    ghost var answered: seq<Item>
    ghost var delivered: seq<Item>
    ghost var ended: bool

    constructor (key: nat, connectionId: Id, conn: nat, sizeLimit: int)
      ensures this.key == key && this.connectionId == connectionId
      ensures View() == Session(connectionId, Some(conn), "", false, Opened(if sizeLimit > 0 then sizeLimit else 0))
    {
      this.key, this.connectionId := key, connectionId;
      this.conn, cookie, closed := Some(conn), "", false;
      remaining := if sizeLimit > 0 then sizeLimit else 0;
      limit := if sizeLimit > 0 then sizeLimit else 0;
      answered, delivered, ended := [], [], false;
    }

    ghost function View(): Session
      reads this
    {
      Session(connectionId, conn, cookie, closed, Book(limit, remaining, answered, delivered, ended))
    }

    /** The rest of nextSearchSession, once the response is there: the page is cut at what is left of
        the limit, and the cookie is kept for the next request. */
    method Answer(entries: seq<Item>, nextCookie: Cookie) returns (page: seq<Item>, hasMore: bool, truncated: bool)
      modifies this`cookie, this`remaining, this`answered, this`delivered, this`ended
      ensures View() == old(View()).(cookie := nextCookie, book := Booked(old(View()).book, entries, nextCookie))
      ensures old(delivered) + page == delivered && page <= entries
      ensures hasMore <==> HasMore(old(View()).book, entries, nextCookie)
      ensures truncated <==> old(remaining) > 0 && |entries| >= old(remaining)
      ensures truncated ==> remaining == 0 && |page| == old(remaining)
      ensures !truncated ==> page == entries && remaining == if old(remaining) == 0 then 0 else old(remaining) - |entries|
    {
      page, truncated := entries, false;
      if remaining > 0 {
        if |page| >= remaining {
          page := page[..remaining];
          truncated := true;
          remaining := 0;
        } else {
          remaining := remaining - |page|;
        }
      }
      cookie := nextCookie;
      hasMore := |nextCookie| > 0 && !truncated;
      answered, delivered, ended := answered + entries, delivered + page, ended || !hasMore;
    }

    /** close, up to its unlock: only the first call gets the connection, with the last cookie. */
    method TakeConn() returns (taken: Option<(nat, Cookie)>)
      modifies this
      ensures old(closed) ==> taken == None && View() == old(View())
      ensures !old(closed) ==> View() == old(View()).(closed := true, conn := None)
      ensures !old(closed) ==> taken == if old(conn).None? then None else Some((old(conn).value, old(cookie)))
    {
      if closed {
        return None;
      }
      closed := true;
      taken := if conn.None? then None else Some((conn.value, cookie));
      conn := None;
    }
  }

  ghost function ViewEntries(es: seq<ConnEntry>): (r: seq<Entry>)
    reads es
    ensures |r| == |es| && forall i :: 0 <= i < |es| ==> r[i] == es[i].View()
  {
    if es == [] then [] else [es[0].View()] + ViewEntries(es[1..])
  }

  ghost function ViewSessions(ss: seq<SearchSession>): (r: seq<Session>)
    reads ss
    ensures |r| == |ss| && forall i :: 0 <= i < |ss| ==> r[i] == ss[i].View()
  {
    if ss == [] then [] else [ss[0].View()] + ViewSessions(ss[1..])
  }

  class Service {
    var conns: map<Id, ConnEntry>
    var searchSessions: map<nat, SearchSession>
    ghost var made: seq<ConnEntry>
    ghost var started: seq<SearchSession>

    constructor ()
      ensures Valid() && Abstract() == Data(map[], [], {}, []) && made == [] && started == []
    {
      conns, searchSessions := map[], map[];
      made, started := [], [];
    }

    ghost predicate Valid()
      reads this
    {
      && (forall i :: 0 <= i < |made| ==> made[i].no == i)
      && (forall id :: id in conns ==> conns[id].id == id && conns[id].no < |made| && made[conns[id].no] == conns[id])
      && (forall i :: 0 <= i < |started| ==> started[i].key == i)
      && (forall k :: k in searchSessions ==> k < |started| && started[k] == searchSessions[k])
    }

    ghost function Entries(): (r: seq<Entry>)
      reads this`made, made
    {
      ViewEntries(made)
    }

    ghost function Sessions(): (r: seq<Session>)
      reads this`started, started
    {
      ViewSessions(started)
    }

    ghost function Table(): map<Id, nat>
      reads this`conns
    {
      map id | id in conns :: conns[id].no
    }

    ghost function Abstract(): Data
      reads this, made, started
    {
      Data(Table(), Entries(), searchSessions.Keys, Sessions())
    }

    ghost predicate Shows(s: State)
      reads this, made, started
    {
      Valid() && DataOf(s) == Abstract() && TablesInRange(s)
    }

    /** Connect, under s.mu. */
    method Connect(ghost s: State, ghost t: nat, id: Id, config: Config) returns (detached: ConnEntry?, same: bool)
      requires Shows(s)
      modifies this`conns, this`made
      ensures Valid() && Abstract() == DataOf(DoConnect(s, t, id, config))
      ensures same <==> id in s.table && s.entries[s.table[id]].config == config
      ensures detached != null <==> !same && id in s.table
      ensures detached != null ==> detached in made && detached.no == s.table[id]
    {
      ConnectData(s, t, id, config);
      Tabled(s, id);
      hide DoConnect, TablesInRange;
      var entry := new ConnEntry(id, config, |made|);
      detached := if id in conns then conns[id] else null;
      same := detached != null && detached.config == config;
      if same {
        return null, true;
      }
      Enter(s, entry);
    }

    lemma Tabled(s: State, id: Id)
      requires Shows(s)
      ensures id in conns <==> id in s.table
      ensures id in conns ==> s.table[id] == conns[id].no < |s.entries| && s.entries[s.table[id]].config == conns[id].config
      ensures id in conns ==> conns[id] in made
    {
      assert s.table == Table() && s.entries == Entries();
    }

    /** s.conns[id] = entry */
    method Enter(ghost s: State, entry: ConnEntry)
      requires Shows(s) && entry !in made && entry.no == |made| && entry.conn == None
      modifies this`conns, this`made
      ensures Valid() && made == old(made) + [entry]
      ensures Abstract()
        == Data(s.table[entry.id := |s.entries|], s.entries + [Entry(entry.id, entry.config, None)], s.live, s.sessions)
    {
      ghost var table, entries := Table(), Entries();
      assert table == s.table && entries == s.entries;
      hide TablesInRange;
      conns := conns[entry.id := entry];
      made := made + [entry];
      assert Table() == table[entry.id := |entries|];
      assert Entries() == entries + [Entry(entry.id, entry.config, None)];
    }

    /** Disconnect, under s.mu. */
    method Disconnect(ghost s: State, ghost t: nat, id: Id) returns (detached: ConnEntry?)
      requires Shows(s)
      modifies this`conns
      ensures Valid() && Abstract() == DataOf(DoDisconnect(s, t, id))
      ensures detached != null <==> id in s.table
      ensures detached != null ==> detached in made && detached.no == s.table[id]
    {
      hide *;
      DisconnectData(s, t, id);
      EntriesIgnoreTable(s);
      EachTabled(s);
      detached := if id in conns then conns[id] else null;
      conns := conns - {id};
      Shrunk(s);
      SameTable(s, s.table - {id});
    }

    /** Every entry is collected as its key is deleted. */
    method CollectEntries() returns (entries: seq<ConnEntry>, ghost ids: seq<Id>)
      modifies this`conns
      ensures conns == map[] && Visited(ids, old(conns).Keys, {}) && |entries| == |ids|
      ensures forall i :: 0 <= i < |ids| ==> ids[i] in old(conns) && entries[i] == old(conns)[ids[i]]
    {
      entries, ids := [], [];
      ghost var before := conns;
      while conns != map[]
        invariant conns.Keys <= before.Keys && forall id :: id in conns ==> conns[id] == before[id]
        invariant Visited(ids, before.Keys, conns.Keys) && |entries| == |ids|
        invariant forall i :: 0 <= i < |ids| ==> ids[i] in before && entries[i] == before[ids[i]]
        decreases |conns|
      {
        var id :| id in conns;
        VisitMore(ids, before.Keys, conns.Keys, id);
        entries, ids := entries + [conns[id]], ids + [id];
        conns := conns - {id};
      }
      assert conns.Keys == {};
    }

    /** CloseAll, under s.mu. */
    method DetachAll(ghost s: State, ghost t: nat) returns (entries: seq<ConnEntry>, ghost order: seq<nat>)
      requires Shows(s)
      modifies this`conns
      ensures Valid() && Enumerates(order, s.table.Values) && Abstract() == DataOf(DoCloseAll(s, t, order))
      ensures |order| == |entries| && forall i :: 0 <= i < |entries| ==> entries[i] in made && entries[i].no == order[i]
    {
      DetachData(s, t);
      EachTabled(s);
      EachTabledOnce(s);
      EntriesIgnoreTable(s);
      hide *;
      ghost var before, ids := conns, [];
      entries, ids := CollectEntries();
      order := seq(|entries|, i requires 0 <= i < |entries| => entries[i].no);
      ValuesEnumerated(ids, order, s.table);
      Shrunk(s);
      SameTable(s, map[]);
    }

    lemma EachTabled(s: State)
      requires Shows(s)
      ensures s.table.Keys == conns.Keys
      ensures forall id :: id in conns ==>
        conns[id] in made && conns[id].no == s.table[id] && conns[id].id == id && conns[id].no < |made| && made[conns[id].no] == conns[id]
    {
      assert s.table == Table();
    }

    lemma EachTabledOnce(s: State)
      requires Shows(s)
      ensures forall id, id' :: id in s.table && id' in s.table && id != id' ==> s.table[id] != s.table[id']
    {
      assert s.table == Table();
      forall id, id' | id in conns && id' in conns && id != id' ensures s.table[id] != s.table[id'] {
        assert conns[id].id == id && conns[id'].id == id';
      }
    }

    /** What stays of the state whatever happens to the table. */
    ghost predicate Rest(s: State)
      reads this, made, started
    {
      && (forall i :: 0 <= i < |made| ==> made[i].no == i)
      && (forall i :: 0 <= i < |started| ==> started[i].key == i)
      && (forall k :: k in searchSessions ==> k < |started| && started[k] == searchSessions[k])
      && s.entries == Entries() && s.live == searchSessions.Keys && s.sessions == Sessions()
    }

    lemma EntriesIgnoreTable(s: State)
      requires Shows(s)
      ensures Rest(s)
    {
    }

    /** Whatever entries leave the table, the rest of the state stays as it was. */
    lemma Shrunk(s: State)
      requires Rest(s)
      requires forall id :: id in conns ==> conns[id].id == id && conns[id].no < |made| && made[conns[id].no] == conns[id]
      ensures Valid() && Abstract() == Data(Table(), s.entries, s.live, s.sessions)
    {
    }

    lemma SameTable(s: State, table: map<Id, nat>)
      requires table.Keys == conns.Keys && forall id :: id in conns ==> table[id] == conns[id].no
      ensures Table() == table
    {
    }

    /** closeLocked: the connection it returns is the one to be closed. */
    method CloseLocked(ghost s: State, e: ConnEntry) returns (closing: Option<nat>)
      requires Shows(s) && e in made
      modifies e`conn
      ensures Valid() && e.no < |s.entries| && closing == s.entries[e.no].conn
      ensures Abstract() == Data(s.table, s.entries[e.no := s.entries[e.no].(conn := None)], s.live, s.sessions)
    {
      EntryAt(s, e);
      ghost var entries := Entries();
      assert Table() == s.table && entries == s.entries && Sessions() == s.sessions;
      assert |entries| == |made| && forall i :: 0 <= i < |made| ==> entries[i] == made[i].View();
      hide TablesInRange, Table, ViewEntries, ViewSessions;
      closing := e.conn;
      e.conn := None;
      EntryChanged(made, e, entries);
    }

    /** closeLocked on a detached entry, under its lock. */
    method CloseEntry(ghost s: State, ghost t: nat, e: ConnEntry, ghost cancel: Option<Id>) returns (closing: Option<nat>)
      requires Shows(s) && e in made
      modifies e`conn
      ensures Valid() && e.no < |s.entries| && Abstract() == DataOf(DoCloseEntry(s, t, [e.no], cancel))
      ensures closing == s.entries[e.no].conn
    {
      hide *;
      closing := CloseLocked(s, e);
      CloseData(s, t, e.no, cancel);
    }

    method ConnectionEntryCurrent(ghost s: State, e: ConnEntry) returns (current: bool)
      requires Shows(s) && e in made
      ensures e.no < |s.entries| && (current <==> s.Current(e.no))
    {
      current := e.id in conns && conns[e.id] == e;
    }

    /** connectLocked, with the connection dialled and the entry found current again. */
    method Install(ghost s: State, ghost t: nat, e: ConnEntry, conn: nat, ghost attempt: Attempt)
      requires Shows(s) && e in made
      modifies e`conn
      ensures Valid() && e.no < |s.entries| && Abstract() == DataOf(DoInstall(s, t, e.no, conn, attempt))
    {
      EntryAt(s, e);
      InstallData(s, t, e.no, conn, attempt);
      ghost var entries := Entries();
      assert Table() == s.table && entries == s.entries && Sessions() == s.sessions;
      assert |entries| == |made| && forall i :: 0 <= i < |made| ==> entries[i] == made[i].View();
      hide TablesInRange, Table, ViewEntries, ViewSessions, DoInstall;
      e.conn := Some(conn);
      EntryChanged(made, e, entries);
    }

    /** withConn, after fn on the shared connection. */
    method AfterShared(ghost s: State, ghost t: nat, e: ConnEntry, attempt: Attempt, outcome: Outcome) returns (closing: Option<nat>)
      requires Shows(s) && e in made
      modifies e`conn
      ensures Valid() && e.no < |s.entries| && Abstract() == DataOf(DoRunShared(s, t, e.no, attempt, outcome))
      ensures closing == if outcome == Broken && attempt != Retried then s.entries[e.no].conn else None
    {
      EntryAt(s, e);
      SharedData(s, t, e.no, attempt, outcome);
      ShowsAlready(s);
      hide *;
      closing := None;
      if outcome == Broken && attempt != Retried {
        closing := CloseLocked(s, e);
      }
    }

    lemma ShowsAlready(s: State)
      requires Shows(s)
      ensures Valid() && Abstract() == DataOf(s) && TablesInRange(s)
    {
    }

    /** addSearchSession, under searchSessionsMu. */
    method AddSearchSession(ghost s: State, ghost t: nat, e: ConnEntry, conn: nat, key: nat, sizeLimit: int)
      returns (session: SearchSession?)
      requires Shows(s) && e in made && key == |started|
      modifies this`searchSessions, this`started
      ensures Valid() && e.no < |s.entries| && Abstract() == DataOf(DoAddSession(s, t, e.no, conn, if sizeLimit > 0 then sizeLimit else 0))
      ensures session == null <==> |s.live| >= MAX_SESSIONS
    {
      ListedSize(s);
      EntryAt(s, e);
      AddData(s, t, e.no, conn, if sizeLimit > 0 then sizeLimit else 0);
      hide DoAddSession, TablesInRange;
      if |searchSessions| >= MAX_SESSIONS {
        return null;
      }
      session := new SearchSession(key, e.id, conn, sizeLimit);
      List(s, session);
    }

    lemma ListedSize(s: State)
      requires Shows(s)
      ensures |searchSessions| == |s.live|
    {
      assert |searchSessions| == |searchSessions.Keys|;
    }

    lemma EntryAt(s: State, e: ConnEntry)
      requires Shows(s) && e in made
      ensures e.no < |s.entries| && s.entries[e.no] == e.View()
    {
      assert s.entries == Entries();
    }

    /** s.searchSessions[session.id] = session */
    method List(ghost s: State, session: SearchSession)
      requires Shows(s) && session !in started && session.key == |started|
      modifies this`searchSessions, this`started
      ensures Valid() && started == old(started) + [session]
      ensures Abstract() == Data(s.table, s.entries, s.live + {|s.sessions|}, s.sessions + [session.View()])
    {
      ghost var sessions, live := Sessions(), searchSessions.Keys;
      assert sessions == s.sessions && live == s.live;
      hide TablesInRange;
      searchSessions := searchSessions[session.key := session];
      started := started + [session];
      assert Sessions() == sessions + [session.View()];
      assert searchSessions.Keys == live + {session.key};
    }

    /** nextSearchSession, once the response is there. */
    method TakeResponse(ghost s: State, ghost t: nat, session: SearchSession, entries: seq<Item>, nextCookie: Cookie, ghost o: Oracle)
      returns (page: seq<Item>, hasMore: bool, truncated: bool)
      requires Shows(s) && session in started && o.outcome == Fine && o.cookie == nextCookie && o.entries == entries
      requires session.conn.Some? && session.conn.value < |s.issued|
      modifies session`cookie, session`remaining, session`answered, session`delivered, session`ended
      ensures Valid() && session.key < |s.sessions| && s.sessions[session.key].conn.Some?
      ensures Abstract() == DataOf(DoNextRequest(s, t, session.key, o))
      ensures hasMore <==> DoNextRequest(s, t, session.key, o).threads[t] == Idle
      ensures old(session.delivered) + page == session.delivered && page <= entries
      ensures truncated <==> old(session.remaining) > 0 && |entries| >= old(session.remaining)
      ensures truncated ==> session.remaining == 0 && |page| == old(session.remaining)
    {
      SessionAt(s, session);
      ResponseData(s, t, session.key, o);
      ghost var sessions := Sessions();
      assert Table() == s.table && Entries() == s.entries && sessions == s.sessions;
      assert |sessions| == |started| && forall i :: 0 <= i < |started| ==> sessions[i] == started[i].View();
      hide DoNextRequest, TablesInRange, Table, ViewEntries, ViewSessions, Booked, HasMore;
      page, hasMore, truncated := session.Answer(entries, nextCookie);
      SessionChanged(started, session, sessions);
    }

    lemma SessionAt(s: State, session: SearchSession)
      requires Shows(s) && session in started
      ensures session.key < |s.sessions| && s.sessions[session.key] == session.View() && started[session.key] == session
    {
      assert s.sessions == Sessions();
    }

    /** removeAndCloseSearchSession, under searchSessionsMu: who deletes the key must close. */
    method RemoveSession(ghost s: State, ghost t: nat, key: nat, expected: SearchSession) returns (removed: bool)
      requires Shows(s) && expected in started && key == expected.key
      modifies this`searchSessions
      ensures Valid() && Abstract() == DataOf(DoRemove(s, t, key, true))
      ensures removed <==> key in s.live
    {
      RemoveData(s, t, key);
      EachListed(s, None);
      SessionAt(s, expected);
      SessionsIgnoreKeys(s);
      hide *;
      removed := key in searchSessions && searchSessions[key] == expected;
      if removed {
        searchSessions := searchSessions - {key};
      }
      Cancelled(s);
    }

    /** The sessions of a connection, or all of them, are collected as their keys are deleted. */
    method CollectSessions(which: Option<Id>) returns (sessions: seq<SearchSession>, ghost order: seq<nat>)
      modifies this`searchSessions
      ensures |order| == |sessions|
      ensures forall i :: 0 <= i < |order| ==> order[i] in old(searchSessions) && sessions[i] == old(searchSessions)[order[i]]
      ensures forall k :: k in order <==>
        k in old(searchSessions) && (which == None || which == Some(old(searchSessions)[k].connectionId))
      ensures Distinct(order) && searchSessions == old(searchSessions) - (set k | k in order)
    {
      sessions, order := [], [];
      ghost var before := searchSessions;
      var rest := searchSessions.Keys;
      assert before - (set k | k in order) == before;
      while rest != {}
        invariant rest <= searchSessions.Keys <= before.Keys && searchSessions == before - (set k | k in order)
        invariant |order| == |sessions| && Distinct(order)
        invariant forall i :: 0 <= i < |order| ==> order[i] in before && sessions[i] == before[order[i]]
        invariant forall k :: k in order <==>
          k in before && k !in rest && (which == None || which == Some(before[k].connectionId))
        decreases |rest|
      {
        var key :| key in rest;
        var session := searchSessions[key];
        if which == None || which == Some(session.connectionId) {
          searchSessions := searchSessions - {key};
          DistinctMore(order, key);
          sessions, order := sessions + [session], order + [key];
        }
        rest := rest - {key};
      }
    }

    /** cancelSearchSessionsForConnection, or cancelAllSearchSessions for None. */
    method CancelSessions(ghost s: State, ghost t: nat, which: Option<Id>)
      returns (sessions: seq<SearchSession>, ghost order: seq<nat>)
      requires Shows(s)
      modifies this`searchSessions
      ensures Valid() && Enumerates(order, Matching(s, which)) && Abstract() == DataOf(DoCancelSessions(s, t, which, order))
      ensures |order| == |sessions| && forall i :: 0 <= i < |sessions| ==> sessions[i] in started && sessions[i].key == order[i]
    {
      CancelData(s, t, which);
      EachListed(s, which);
      SessionsIgnoreKeys(s);
      hide *;
      ghost var before := searchSessions;
      sessions, order := CollectSessions(which);
      EnumeratesWhen(order, Matching(s, which));
      KeysAfter(before, searchSessions, order, Matching(s, which));
      Cancelled(s);
    }

    lemma EachListed(s: State, which: Option<Id>)
      requires Shows(s)
      ensures s.live == searchSessions.Keys
      ensures forall k :: k in searchSessions ==>
        k < |started| && started[k] == searchSessions[k] && searchSessions[k] in started && searchSessions[k].key == k
      ensures forall k :: k in Matching(s, which) <==>
        k in searchSessions && (which == None || which == Some(searchSessions[k].connectionId))
    {
      assert s.sessions == Sessions() && s.live == searchSessions.Keys;
    }

    /** What stays of the state when sessions leave the map. */
    ghost predicate Others(s: State)
      reads this, made, started
    {
      && (forall i :: 0 <= i < |made| ==> made[i].no == i)
      && (forall id :: id in conns ==> conns[id].id == id && conns[id].no < |made| && made[conns[id].no] == conns[id])
      && (forall i :: 0 <= i < |started| ==> started[i].key == i)
      && s.table == Table() && s.entries == Entries() && s.sessions == Sessions()
    }

    lemma SessionsIgnoreKeys(s: State)
      requires Shows(s)
      ensures Others(s)
    {
    }

    lemma Cancelled(s: State)
      requires Others(s) && forall k :: k in searchSessions ==> k < |started| && started[k] == searchSessions[k]
      ensures Valid() && Abstract() == Data(s.table, s.entries, searchSessions.Keys, s.sessions)
    {
    }

    /** close on a removed session, under its lock. */
    method CloseSession(ghost s: State, ghost t: nat, session: SearchSession, ghost after: After) returns (taken: Option<(nat, Cookie)>)
      requires Shows(s) && session in started && (session.closed <==> session.conn.None?)
      modifies session
      ensures Valid() && session.key < |s.sessions| && Abstract() == DataOf(DoCloseSession(s, t, [session.key], after))
      ensures taken.Some? <==> !s.sessions[session.key].closed
      ensures taken.Some? ==>
        taken.value == (s.sessions[session.key].conn.value, s.sessions[session.key].cookie)
    {
      SessionAt(s, session);
      CloseSessionData(s, t, session.key, after);
      ghost var sessions := Sessions();
      assert Table() == s.table && Entries() == s.entries && sessions == s.sessions;
      assert |sessions| == |started| && forall i :: 0 <= i < |started| ==> sessions[i] == started[i].View();
      hide TablesInRange, Table, ViewEntries, ViewSessions, DoCloseSession;
      taken := session.TakeConn();
      SessionChanged(started, session, sessions);
    }
  }

  lemma EntryChanged(es: seq<ConnEntry>, e: ConnEntry, before: seq<Entry>)
    requires (forall i :: 0 <= i < |es| ==> es[i].no == i) && e in es && |before| == |es|
    requires forall i :: 0 <= i < |es| && es[i] != e ==> before[i] == es[i].View()
    ensures e.no < |es| && ViewEntries(es) == before[e.no := e.View()]
  {
    var i :| 0 <= i < |es| && es[i] == e;
  }

  lemma SessionChanged(ss: seq<SearchSession>, session: SearchSession, before: seq<Session>)
    requires (forall i :: 0 <= i < |ss| ==> ss[i].key == i) && session in ss && |before| == |ss|
    requires forall i :: 0 <= i < |ss| && ss[i] != session ==> before[i] == ss[i].View()
    ensures session.key < |ss| && ViewSessions(ss) == before[session.key := session.View()]
  {
    var i :| 0 <= i < |ss| && ss[i] == session;
  }

  /** The keys taken out so far, each once. */
  ghost predicate Visited(ids: seq<Id>, all: set<Id>, rest: set<Id>) {
    (forall i, j :: 0 <= i < j < |ids| ==> ids[i] != ids[j]) && forall id :: id in ids <==> id in all && id !in rest
  }

  lemma VisitMore(ids: seq<Id>, all: set<Id>, rest: set<Id>, id: Id)
    requires Visited(ids, all, rest) && id in rest && id in all
    ensures Visited(ids + [id], all, rest - {id})
  {
  }

  lemma ValuesEnumerated(ids: seq<Id>, order: seq<nat>, table: map<Id, nat>)
    requires Visited(ids, table.Keys, {}) && |order| == |ids| && forall i :: 0 <= i < |ids| ==> ids[i] in table && order[i] == table[ids[i]]
    requires forall id, id' :: id in table && id' in table && id != id' ==> table[id] != table[id']
    ensures Enumerates(order, table.Values)
  {
    forall n | n in table.Values ensures n in order {
      var id :| id in table && table[id] == n;
      var i :| 0 <= i < |ids| && ids[i] == id;
      assert order[i] == n;
    }
    forall n | n in order ensures n in table.Values {
      var i :| 0 <= i < |order| && order[i] == n;
      assert ids[i] in table.Keys;
    }
  }

  lemma DistinctMore(order: seq<nat>, n: nat)
    requires Distinct(order) && n !in order
    ensures Distinct(order + [n])
  {
  }

  lemma EnumeratesWhen(order: seq<nat>, all: set<nat>)
    requires Distinct(order) && forall k :: k in order <==> k in all
    ensures Enumerates(order, all)
  {
  }

  lemma KeysAfter(before: map<nat, SearchSession>, after: map<nat, SearchSession>, order: seq<nat>, gone: set<nat>)
    requires after == before - (set k | k in order) && forall k :: k in order <==> k in gone
    ensures after.Keys == before.Keys - gone && forall k :: k in after ==> k in before && after[k] == before[k]
  {
  }

  // --- What the sections do to the data --------------------------------------------------

  lemma ConnectData(s: State, t: nat, id: Id, config: Config)
    requires TablesInRange(s)
    ensures DataOf(DoConnect(s, t, id, config))
      == if id in s.table && s.entries[s.table[id]].config == config then DataOf(s)
         else Data(s.table[id := |s.entries|], s.entries + [Entry(id, config, None)], s.live, s.sessions)
  {
  }

  lemma DisconnectData(s: State, t: nat, id: Id)
    ensures DataOf(DoDisconnect(s, t, id)) == Data(s.table - {id}, s.entries, s.live, s.sessions)
  {
    assert id !in s.table ==> s.table - {id} == s.table;
  }

  lemma DetachData(s: State, t: nat)
    ensures forall order :: DataOf(DoCloseAll(s, t, order)) == Data(map[], s.entries, s.live, s.sessions)
  {
  }

  lemma AddData(s: State, t: nat, e: nat, c: nat, limit: nat)
    requires e < |s.entries|
    ensures DataOf(DoAddSession(s, t, e, c, limit))
      == if |s.live| >= MAX_SESSIONS then DataOf(s)
         else Data(s.table, s.entries, s.live + {|s.sessions|},
                   s.sessions + [Session(s.entries[e].id, Some(c), "", false, Opened(limit))])
  {
  }

  lemma RemoveData(s: State, t: nat, n: nat)
    ensures DataOf(DoRemove(s, t, n, true)) == Data(s.table, s.entries, s.live - {n}, s.sessions)
  {
    assert n !in s.live ==> s.live - {n} == s.live;
  }

  lemma CancelData(s: State, t: nat, which: Option<Id>)
    requires TablesInRange(s)
    ensures forall order ::
      (DataOf(DoCancelSessions(s, t, which, order)) == Data(s.table, s.entries, s.live - Matching(s, which), s.sessions))
  {
  }

  lemma ResponseData(s: State, t: nat, n: nat, o: Oracle)
    requires n < |s.sessions| && s.sessions[n].conn.Some? && s.sessions[n].conn.value < |s.issued| && o.outcome == Fine
    ensures DataOf(DoNextRequest(s, t, n, o))
      == Data(s.table, s.entries, s.live,
              s.sessions[n := s.sessions[n].(cookie := o.cookie, book := Booked(s.sessions[n].book, o.entries, o.cookie))])
    ensures DoNextRequest(s, t, n, o).threads[t] == Idle <==> HasMore(s.sessions[n].book, o.entries, o.cookie)
  {
    hide Booked, HasMore;
  }

  lemma CloseData(s: State, t: nat, e: nat, cancel: Option<Id>)
    requires e < |s.entries|
    ensures DataOf(DoCloseEntry(s, t, [e], cancel))
      == Data(s.table, s.entries[e := s.entries[e].(conn := None)], s.live, s.sessions)
  {
    assert s.entries[e].conn == None ==> s.entries[e := s.entries[e].(conn := None)] == s.entries;
  }

  lemma InstallData(s: State, t: nat, e: nat, c: nat, attempt: Attempt)
    requires e < |s.entries|
    ensures DataOf(DoInstall(s, t, e, c, attempt))
      == Data(s.table, s.entries[e := s.entries[e].(conn := Some(c))], s.live, s.sessions)
  {
  }

  lemma SharedData(s: State, t: nat, e: nat, attempt: Attempt, outcome: Outcome)
    requires e < |s.entries|
    ensures DataOf(DoRunShared(s, t, e, attempt, outcome))
      == if outcome == Broken && attempt != Retried
         then Data(s.table, s.entries[e := s.entries[e].(conn := None)], s.live, s.sessions) else DataOf(s)
  {
    assert s.entries[e].conn == None ==> s.entries[e := s.entries[e].(conn := None)] == s.entries;
  }

  lemma CloseSessionData(s: State, t: nat, n: nat, after: After)
    requires n < |s.sessions|
    ensures DataOf(DoCloseSession(s, t, [n], after))
      == if s.sessions[n].closed || s.sessions[n].conn.None? then DataOf(s)
         else Data(s.table, s.entries, s.live, s.sessions[n := s.sessions[n].(closed := true, conn := None)])
  {
  }
}
