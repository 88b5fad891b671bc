# Verification of the LDAP workbench

A Dafny model of the parts of the workbench whose correctness is not visible from any single
function: the Go sidecar's shared connections, paging sessions and stores, and the TypeScript
helpers that read and write filters, distinguished names, LDIF and modify requests. `dafny verify
dfyconfig.toml` checks everything.

**Connections and paging sessions** (`ConnectionProtocol`, `ConnectionSafety`, `ConnectionTheorems`,
`ConnectionScope`, `ConnectionOperations`, `ConnectionService`). Any number of threads run connect,
disconnect, the shared and dedicated operations, and the paging calls. `ConnectionProtocol` is a
transition system whose steps are the critical sections and network round trips; every interleaving
the mutexes allow is one of its runs. The results hold in every reachable state: nothing leaks,
nothing is closed twice, cookies stay on their connection, and nobody waits in a circle.
`ConnectionOperations` follows one call through such a run, from its beginning to its return: whose
sessions, entries and connections it may touch (`ConnectionScope` says where it can be meanwhile),
what it must have taken away when it returns, how often it runs its function, and why it may end.
`ConnectionService` gives the critical sections their imperative form on objects and maps and ties
each to its step. `SearchQuota` proves the size limit over the same runs, with cancel, prune and
reconnect at any step.

**Untrusted servers and directories** (`PagedSearch`, `DnPolicy`, `DnNames`, `SubtreeDelete`). The
paged search is run against an arbitrary sequence of replies, the recursive delete against a
directory that only deletes leaves, may refuse anything and writes every request down. The names of
the directory are lists of multisets of types and values; `DnNames` says how far the unescaped text
that the policy compares tells them apart.

**Stores** (`TwoPhase`, `CursorStore`, `LineReader`, `LogBuffer`, `LogFeed`). One-time tokens over
runs of calls, an LRU table held in two structures, line framing over any fragmentation, and a ring
read incrementally.

**Text formats** (`Text`, `AttributeNames`, `LdapFilter`, `FilterItems`, `FilterGrammar`,
`FilterBuilder`, `FilterTheorems`, `FilterRfc`, `FilterConformance`, `FilterKeyword`,
`FilterSearch`, `FilterGuid`, `FilterCursor`; `Ldif`, `LdifTheorems`, `LdifLines`, `LdifRecords`;
`Dn`, `DnTheorems`, `DnScan`, `DnRdn`, `DnBuilding`, `DnChain`). The filter parser is measured against
derivation trees whose items are those the parser reads, with a Boolean meaning over arbitrary
items; `FilterRfc` has the items of section 3 of RFC 4515 and their meaning on their own, and
`FilterConformance` says for which filters parser, validator and standard agree; `FilterSearch` says
in the same terms what the tree's search box selects. LDIF and DN functions are measured against
each other, and for arbitrary input against lines, records and top-level characters told without
their state machines (`LdifLines`, `LdifRecords`, `DnScan`). Where the source loops, a method with
that loop is proved equal to the function the theorems are about.

**Saving an entry** (`LdapDiff`, `AttrRows`). The modify request is applied by the rules of section
4.6 of RFC 4511 and compared with the edited entry.

Where a promise does not hold the model keeps what the code does, gives an input, and says exactly
when the promise does hold:

- canonicalRDN escapes nothing, so the write gate of a base with two types in one RDN opens for an
  entry outside it whose value holds an escaped plus sign (`DnNames.EscapedPlusPasses`). A base admits
  the right entries exactly when each of its RDNs has one type and no second part in its value
  (`DnNames.BaseIsExact`).
- Two overlapping calls for the next page of one search can hand out more than its limit
  (`SearchQuota.OverlapReached`). Calls that take turns cannot (`SearchQuota.PagesStayWithinQuota`).
- The filter parser accepts items that are not in RFC 4515 (`FilterRfc.BeyondTheGrammar`). An accepted
  item means what the standard says exactly when it is clean (`FilterRfc.AcceptedItemAgrees`).
- A negated notEquals clause is saved without its negation (`FilterTheorems.DoubleNegationIsLost`,
  `FilterTheorems.ClauseRoundTrip`).
- The tree search documents its attribute prefixes as case-insensitive, but one listed in mixed case
  is not found (`FilterKeyword.MixedCasePrefixUnknown`, `FilterKeyword.SelectableWhenLower`).
- The branch of dnPathChain that its comment calls unreachable is reached by trailing commas
  (`DnChain.TrailingCommaBreaksChain`, `DnChain.ChainNeedsEqualCommas`).
- LDIF attributes named like members of `Object.prototype` cannot be read back
  (`LdifTheorems.ConstructorThrows`, `LdifTheorems.RoundTrip`).
- Splitting a value at its newline is saved as no change (`LdapDiff.NewlineHidesChange`,
  `LdapDiff.DiffThenApply`).

Assumptions are parameters: the decoder maps ASCII bytes to themselves, base64 has an inverse, the
request hash is injective, tokens and identifiers are fresh, and ParseDN is any function that agrees
with the server on the DNs the server lists and, for the gate, on the DN asked for.

## Model

| member | source | states |
|---|---|---|
| ConnectionTheorems.DetachedHasCloser | backend/internal/ldapconn/service.go:326-366 | In every reachable state an entry that has left the table but still has its connection is on some thread's list of entries to close. |
| ConnectionTheorems.NothingLeaks | backend/internal/ldapconn/service.go:422-466 | When no operation runs, every open connection is the shared connection of an entry in the table or the cursor connection of a session in the map. |
| ConnectionTheorems.IdleOwnsNothing | backend/internal/ldapconn/dedicated_conn.go:53-99 | A thread that has finished its operation owns none of the connections it dialled or took out of a session. |
| ConnectionTheorems.ClosedAtMostOnce | backend/internal/ldapconn/search_sessions.go:425-454 | Over every run a connection is closed at most once, and it has been closed exactly when it was dialled and is no longer open. |
| ConnectionTheorems.OneHolderPerSession | backend/internal/ldapconn/search_sessions.go:383-423 | An unclosed session is in the map or with exactly one remover; a closed one is in neither place and has given up its connection. |
| ConnectionTheorems.AtMostSixteen | backend/internal/ldapconn/search_sessions.go:249-265 | The session map never holds more than sixteen sessions, however starts interleave. |
| ConnectionTheorems.OneRequestInFlight | backend/internal/ldapconn/search_sessions.go:283-306 | Two threads never have a request in flight on the same connection, and requests go out only on open connections. |
| ConnectionTheorems.CookiesStayOnTheirConnection | backend/internal/ldapconn/search_sessions.go:300-340 | A paging or abandon request carries the cookie that the last response on that same connection issued. |
| ConnectionTheorems.NoDeadlock | backend/internal/ldapconn/service.go:494-556 | In any set of threads one waits for none of the others: there is no cycle of waiters. |
| ConnectionTheorems.SomeThreadCanMove | backend/internal/ldapconn/search_sessions.go:358-381 | While an operation is unfinished some thread can take its next step, in every reachable state. |
| ConnectionTheorems.RunningCanMove | backend/internal/ldapconn/service.go:610-641 | A thread inside a section can always finish it, whatever the network answers. |
| ConnectionOperations.TakesOnlyItsOwn | backend/internal/ldapconn/search_sessions.go:397-423 | From its beginning to its return, whatever else runs, a call takes only its own sessions out of the map: Connect and Disconnect those of their id, SearchCancel and SearchNext the one they name, SearchStart the one it made; expired ones that nobody is using go to SearchStart, SearchNext and the reaper; WithConn and the dedicated calls take none. |
| ConnectionOperations.TakesAllItsOwn | backend/internal/ldapconn/service.go:422-467 | Connect, Disconnect and CloseAll end at the table exactly when the configuration is unchanged, the id unknown, or never; otherwise every session of the id, or every session, that was in the map at the table step is out of it when the call returns, and closed or with another thread that is about to close it. |
| ConnectionOperations.ChangesOnlyItsOwn | backend/internal/ldapconn/service.go:326-448 | An entry changes only under a call about its id, and only in its shared connection, which only WithConn and the dedicated calls ever set; the table changes only at the id of a Connect or Disconnect, or under CloseAll; only SearchStart lists a session, under its own id. |
| ConnectionOperations.FnRunsAtMostTwice | backend/internal/ldapconn/service.go:476-556 | In every run WithConnOnce runs its function at most once, and WithConn and the dedicated calls at most twice. |
| ConnectionOperations.OnlyABreakIsRetried | backend/internal/ldapconn/service.go:514-556 | After the function ran on a shared connection, which was open, the call goes on exactly when the connection broke in WithConn's first run; a broken connection is closed, except in the second run, and otherwise nothing changes. |
| ConnectionOperations.BreakCanReconnect | backend/internal/ldapconn/service.go:526-536 | From there, while the entry is current and the table free, six steps lead to the second run of the function on a connection dialled anew. |
| ConnectionOperations.DedicatedGoesOn | backend/internal/ldapconn/dedicated_conn.go:53-99 | The function runs on the call's own open connection, closed afterwards whatever happened; only a break in the first run is dialled again, and a failed first dial falls back to WithConn. |
| ConnectionOperations.GoesOnOnlyWhenSafe | backend/internal/ldapconn/search_sessions.go:238-306 | In every reachable state, a connection is dialled for an entry, stored in it or used for a dedicated call or a session only after the entry was found current under the table's lock; a session is dialled only when fewer than sixteen were listed; a page is requested only of a session found open and not expired under its lock. |
| ConnectionOperations.WhyACallEnds | backend/internal/ldapconn/service.go:494-556 | A call ends only where the id is unknown, the entry was replaced, a dial failed, the map was full, the session was not there, or its work is done; and always at such a point while it uses a connection or pages. |
| ConnectionOperations.EndedSearchLeavesTheMap | backend/internal/ldapconn/search_sessions.go:158-184 | When a page request fails, is the last one or uses up the limit, or the session has expired, the session is out of the map when the call returns. |
| ConnectionSafety.RunInv | backend/internal/ldapconn/service.go:326-556 | The invariant behind these results (ownership, mutual exclusion, pending closers, cookies) holds after every run of steps. |
| ConnectionSafety.NextInv | backend/internal/ldapconn/service.go:646-651 | Every single step of any thread keeps the invariant. |
| ConnectionService.Service.Connect | backend/internal/ldapconn/service.go:326-366 | Under the table lock: an unchanged configuration changes nothing; otherwise a new entry replaces the old one, which is handed back to be closed. Exactly the protocol's step. |
| ConnectionService.Service.Disconnect | backend/internal/ldapconn/service.go:422-434 | Removes the entry and hands it back; does nothing for an unknown id. Whose sessions go with it is the matter of ConnectionOperations. |
| ConnectionService.Service.DetachAll | backend/internal/ldapconn/service.go:451-460 | Empties the table and hands back each of its entries exactly once. |
| ConnectionService.Service.CloseEntry | backend/internal/ldapconn/service.go:50-60 | Takes the connection out of one entry, and only that one, for the caller to close. |
| ConnectionService.Service.ConnectionEntryCurrent | backend/internal/ldapconn/service.go:646-651 | True exactly when the table still maps the entry's id to this very entry. |
| ConnectionService.Service.Install | backend/internal/ldapconn/service.go:610-641 | Stores the dialled connection in the entry as the protocol's step does. |
| ConnectionService.Service.AfterShared | backend/internal/ldapconn/service.go:516-536 | A broken connection is taken out of the entry to be closed, unless this was already the retry. |
| ConnectionService.Service.AddSearchSession | backend/internal/ldapconn/search_sessions.go:249-265 | Installs the session unless sixteen are listed; refusal leaves the map as it was. |
| ConnectionService.SearchSession.Answer | backend/internal/ldapconn/search_sessions.go:321-347 | A page is cut at what is left of the limit, which it uses up; there is more exactly when the cookie is not empty and the page was not cut. |
| ConnectionService.Service.TakeResponse | backend/internal/ldapconn/search_sessions.go:321-347 | The session after a response is the protocol's: cookie, what remains, what was handed out; the caller asks again exactly when there is more. |
| ConnectionService.Service.RemoveSession | backend/internal/ldapconn/search_sessions.go:383-395 | Only the caller that deletes the key gets to close the session. |
| ConnectionService.Service.CancelSessions | backend/internal/ldapconn/search_sessions.go:397-423 | Takes out exactly the sessions of one connection, or all of them, each once. |
| ConnectionService.Service.CloseSession | backend/internal/ldapconn/search_sessions.go:425-435 | The first close gets the connection and its last cookie; every later one gets nothing. |
| SearchQuota.RunKeeps | backend/internal/ldapconn/search_sessions.go:158-356 | Every run of the protocol in which the calls on each session take turns, with cancel, prune, reconnect and anything else at any step, keeps the quota invariant and the books of ended sessions. |
| SearchQuota.PagesStayWithinQuota | backend/internal/ldapconn/search_sessions.go:320-355 | In every state such a run reaches, a session has handed out exactly the front of what the server sent it, cut at the limit; before the last page nothing is held back, and what was handed out and what remains make up the limit. |
| SearchQuota.LastPageIsLast | backend/internal/ldapconn/search_sessions.go:158-184 | Once a page without more to come is handed out, nothing is handed out after it, whatever such a run still does. |
| SearchQuota.OverlapOverdraws | backend/internal/ldapconn/search_sessions.go:283-347 | From any state in which two calls have found the same open session with a limit, the run can go on so that more is handed out than the limit, though the first call removes the session before the second checks it. |
| SearchQuota.OverlapReached | backend/internal/ldapconn/search_sessions.go:170-184 | A run from a fresh service with two overlapping calls hands out more than the limit asked for. |
| PagedSearch.AggregateLimit | backend/internal/ldapconn/operations.go:969-983 | 500 when no limit is given, 100000 when more than that is, and otherwise the limit given. |
| PagedSearch.PagedSearchEntries | backend/internal/ldapconn/operations.go:999-1101 | Against any server the loop ends within 64 * limit page requests, right after the first page that does not continue, with the aggregate of those pages and one request per page plus at most one abandon. |
| PagedSearch.SomePageIsLast | backend/internal/ldapconn/operations.go:1078-1096 | No server can keep the client asking: some page among the first 64 * limit does not continue. |
| PagedSearch.PagesAreBounded | backend/internal/ldapconn/operations.go:1012-1020 | The number of pages asked for never exceeds 64 times the entries received plus the run of empty pages. |
| PagedSearch.RequestsFollowCookies | backend/internal/ldapconn/operations.go:1030-1075 | Each request carries the cookie of the response before it; only the abandon has size zero, it comes last and carries the latest cookie. |
| PagedSearch.ServedCompletely | backend/internal/ldapconn/operations.go:1072-1077 | From a server that serves a finite list of pages below the limit the client gets everything, untruncated, and abandons nothing. |
| PagedSearch.CollectReferrals | backend/internal/ldapconn/operations.go:1021-1028 | Keeps the first twenty referrals of all pages together. |
| DnPolicy.BuildCanonicalRdn | backend/internal/ldapconn/policy.go:441-451 | The canonical text of an RDN as the loop builds and sorts it. |
| DnPolicy.CanonicalIgnoresOrder | backend/internal/ldapconn/policy.go:441-451 | The canonical text does not depend on the order of a multi-valued RDN's parts or on letter case; what it does not tell apart is the matter of DnNames.TextTellsRdn. |
| DnPolicy.DnWithinBase | backend/internal/ldapconn/policy.go:415-439 | Comparing RDN by RDN from the right decides whether the base's canonical RDNs are a suffix; unparsable input is an error. |
| DnPolicy.DnWithinAnyBase | backend/internal/ldapconn/policy.go:403-411 | True exactly when some base of the list contains the DN, errors counting as no. |
| DnPolicy.EnsureWriteAllowed | backend/internal/ldapconn/policy.go:351-371 | Refuses read-only profiles, empty DNs and DNs outside the write list, for which the read list stands in when it is empty. |
| DnNames.TextTellsRdn | backend/internal/ldapconn/policy.go:441-451 | The canonical text tells an RDN from every other one exactly when it has a single type and its value does not hold a second part behind a plus sign. |
| DnNames.BaseIsExact | backend/internal/ldapconn/policy.go:415-439 | The comparison admits, for a base, exactly the DNs below it if and only if each RDN of the base stands alone in that sense. |
| DnNames.DnIsExact | backend/internal/ldapconn/policy.go:415-439 | A DN is judged rightly against every base under the same condition on its own RDNs. |
| DnNames.WithinIsSeen | backend/internal/ldapconn/policy.go:415-439 | A DN that does lie below a base is never refused. |
| DnNames.TextDecides | backend/internal/ldapconn/policy.go:415-439 | Text and real containment agree wherever each pair of compared RDNs has one that stands alone, or no value with an equals sign behind a plus sign on either side. |
| DnNames.GateDecides | backend/internal/ldapconn/policy.go:351-371 | Where the texts of a DN and of the bases can be trusted, the write gate opens exactly for the names the profile allows. |
| DnNames.AllowedBelow | backend/internal/ldapconn/policy.go:351-371 | And then whatever lies below a DN that passes the gate lies in an allowed base itself. |
| DnNames.EscapedPlusPasses | backend/internal/ldapconn/policy.go:441-451 | A concrete DN outside its base passes the gate: one value with escaped plus and equals signs against a base with two types. |
| SubtreeDelete.OrderDeepestFirst | backend/internal/ldapconn/operations.go:650-671 | A permutation of the listed DNs sorted by depth, or an error when one cannot be parsed. |
| SubtreeDelete.StableSortSorts | backend/internal/ldapconn/operations.go:663-665 | The sort is by descending depth, keeps every DN and is stable. |
| SubtreeDelete.NextIsLeaf | backend/internal/ldapconn/operations.go:552-556 | With everything deeper already gone, the next DN of the queue is present and has no children. |
| SubtreeDelete.DeleteOneByOne | backend/internal/ldapconn/operations.go:552-558 | The fallback deletes exactly the listed subtree, and can only fail by an outright refusal, never for a missing or non-leaf entry. |
| SubtreeDelete.DeleteDeepestFirst | backend/internal/ldapconn/operations.go:546-558 | The fallback gives up, with nothing deleted, exactly when a listed DN cannot be read; otherwise it deletes the whole subtree or stops at the first refusal, all earlier deletes granted. |
| SubtreeDelete.DeleteSubtree | backend/internal/ldapconn/operations.go:529-567 | Success removes precisely the subtree and reports its size; a failure stays inside it, keeps the directory parent-closed, and means that the target is not there, the subtree is over 1000 entries and untouched, a listed DN cannot be read, or the server refused a request. On a server that refuses nothing every subtree that is there, within the limit and has readable DNs is deleted, with the tree delete or without. The requests are a listing, one tree delete, and single deletes only where that control is unknown. |
| SubtreeDelete.DeleteEntryRecursively | backend/internal/ldapconn/operations.go:495-511 | The DN is called invalid exactly when it is not well-formed, and denied exactly when the policy refuses it, without any request; otherwise the outcome is that of the subtree's deletion. Whatever is deleted lies below a DN that passed the gate, and inside an allowed base wherever the compared texts can be trusted. |
| SubtreeDelete.SubtreeKeepsClosed | backend/internal/ldapconn/operations.go:541-545 | Deleting a whole subtree keeps the directory parent-closed. |
| TwoPhase.ConfirmStore.Issue | backend/internal/mcp/confirm.go:83-95 | Drops expired tokens and adds the new one with its expiry; when the random source fails only the dropping happens. |
| TwoPhase.ConfirmStore.Consume | backend/internal/mcp/confirm.go:123-138 | Whatever the outcome the token is gone; the outcome is unknown, expired, mismatch or ok in that order. |
| TwoPhase.ConfirmStore.PruneLocked | backend/internal/mcp/confirm.go:110-116 | Keeps exactly the tokens that have not expired. |
| TwoPhase.ConfirmStore.SetTtl | backend/internal/mcp/confirm.go:62-69 | Ignores durations that are not positive and leaves issued tokens alone. |
| TwoPhase.WriteServer.TwoPhaseWrite | backend/internal/mcp/server.go:637-688 | Without a token it issues one and sends nothing; with one it sends the write exactly when the token checks out. |
| TwoPhase.WriteServer.EntryWrite | backend/internal/mcp/server.go:528-627 | A request is rejected, without using up a token, exactly when it has no connection, its DN or the destination of its rename is malformed or refused by the write policy, or no token can be drawn; any other is previewed when it brings no token, and sent only with one. Where the compared texts can be trusted, the DN of a request that is not rejected lies inside the allowed bases. |
| TwoPhase.AdmissibleMeans | backend/internal/mcp/server.go:553-621 | The tool's own checks let through exactly the requests that the write policy of the executing call lets through, for the DN and for a rename's destination. |
| TwoPhase.EveryExecutionWasPreviewed | backend/internal/mcp/server.go:637-688 | In every run each executed write has an earlier preview of the identical request on the same connection, within the token's lifetime and with no use of the token in between. |
| TwoPhase.TokensAreUsedOnce | backend/internal/mcp/confirm.go:118-138 | In every run at most one call uses a token, whether it succeeds or voids it. |
| TwoPhase.RenameStaysAllowed | backend/internal/ldapconn/policy.go:301-336 | A rename that passes the gate on its destination ends under a name inside the allowed bases, for a parser that reads an RDN, a comma and a DN as the two, and a printer that keeps the name of a parent it was given. |
| CursorStore.Store.Put | backend/internal/mcp/cursor.go:92-119 | On the table in use order: expired sessions go, the new one is appended, and the least recently used make room for the capacity in force. |
| CursorStore.Store.Next | backend/internal/mcp/cursor.go:138-179 | Returns the clamped window in bounds, moves the session to the end and remembers the window's end; unknown and expired sessions return nothing. |
| CursorStore.Store.Configure | backend/internal/mcp/cursor.go:68-80 | Takes positive settings only and leaves the stored sessions alone. |
| CursorStore.Store.PruneLocked | backend/internal/mcp/cursor.go:182-192 | Keeps exactly the live sessions, in their order, in both structures. |
| CursorStore.Store.RemoveLocked | backend/internal/mcp/cursor.go:195-203 | Drops one session from both structures. |
| CursorStore.Store.TouchLocked | backend/internal/mcp/cursor.go:207-215 | Moves one session to the end of the order and keeps the rest in place. |
| CursorStore.PutKeepsMostRecent | backend/internal/mcp/cursor.go:111-117 | After a put the table fits the capacity, ends with the new session and keeps the most recently used of the live ones. |
| CursorStore.ExpiryDecides | backend/internal/mcp/cursor.go:138-151 | A read finds a session exactly up to its expiry; one that comes too late removes it, and no read prolongs or alters a session but for where it stopped. |
| CursorStore.Window | backend/internal/mcp/cursor.go:152-179 | The window starts at an explicit offset, or where the last one ended, or at the end of the rows if that lies behind it; it has the size asked for, 20 by default and at most, unless the rows end first. |
| CursorStore.SeekMovesCursor | backend/internal/mcp/cursor.go:169-179 | After a read at an explicit offset the next read without one goes on behind the window shown. |
| CursorStore.ReadersGetRowsInOrder | backend/internal/mcp/cursor.go:155-172 | Whatever else uses the store, the rows a reader gets by reading on are the session's rows in order, none twice and none skipped. |
| CursorStore.DoneMeansEverything | backend/internal/mcp/cursor.go:173-178 | done is raised exactly when everything has been delivered. |
| LineReader.ReadBoundedLine | backend/internal/mcp/stdio.go:245-271 | However the stream is fragmented, one call returns its first line and consumes exactly that line; it never holds more than the limit and the newline. |
| LineReader.ReadAll | backend/internal/mcp/stdio.go:245-271 | Successive calls return the lines of the stream one after the other. |
| LineReader.LinesAreTheLines | backend/internal/mcp/stdio.go:245-271 | The lines are those between the newlines, in order, with the unterminated tail; a line is flagged and withheld exactly when its content exceeds the limit. |
| LineReader.SplitIsExact | backend/internal/mcp/stdio.go:245-271 | The split into lines loses no byte: joining it by newlines gives back the stream. |
| LogBuffer.Buffer.Append | backend/internal/logbuf/logbuf.go:60-72 | Numbers the entry and makes the ring hold the last max entries ever appended. |
| LogBuffer.Buffer.Tail | backend/internal/logbuf/logbuf.go:76-95 | The retained entries newer than the given number, oldest first, cut to the limit. |
| LogBuffer.Buffer.Len | backend/internal/logbuf/logbuf.go:98-105 | The number of retained entries. |
| LogBuffer.TailIsRun | backend/internal/logbuf/logbuf.go:76-95 | What is shown is a consecutive run of the log that starts right after the cursor or, if that was overwritten, at the oldest entry held; it is no longer than the limit and the ring, and reaches the end of the log unless it is as long as one of them. |
| LogFeed.MergeLogTail | frontend/src/lib/logFeed.ts:81-91 | The merge by number, sorted and cut to the panel's bound. |
| LogFeed.NextLogCursor | frontend/src/lib/logFeed.ts:94-98 | The largest number on the list, zero for none; on a list in order the last one, where the next poll starts. |
| LogFeed.MergeIsOrderedUnion | frontend/src/lib/logFeed.ts:81-91 | A merge keeps the list strictly increasing, keeps what was there and takes up every new number once. |
| LogFeed.PollMissesOnlyOverwritten | frontend/src/lib/logFeed.ts:79-98 | After a poll the panel is in order and true to the log; it misses only entries overwritten before the poll or pushed out at its own bound. |
| LogFeed.PollAppendsRun | frontend/src/lib/logFeed.ts:79-98 | A poll appends one consecutive run of the log. |
| FilterItems.EscapesEachCharacterOnce | frontend/src/lib/ldapFilter.ts:55-61 | The five successive replacements never touch each other's output: each special character is escaped once. |
| FilterItems.EscapeRoundTrip | frontend/src/lib/ldapFilter.ts:403-429 | Unescaping undoes escaping, also where escapes run together. |
| FilterItems.ParseItemBody | frontend/src/lib/ldapFilter.ts:465-492 | Parsing the item the builder writes gives back its attribute, operator and value. |
| AttributeNames.DescriptionIsDescribed | frontend/src/lib/ldapFilter.ts:35-38 | The expression for attribute descriptions matches exactly a name that starts with a letter, or numbers with dots between them, followed by options behind semicolons. |
| FilterGrammar.ParsesPrinted | frontend/src/lib/ldapFilter.ts:510-571 | A printed derivation, with gaps and anything behind it, is read whole exactly when it nests no deeper than the limit. |
| FilterGrammar.ParsedIsGrammatical | frontend/src/lib/ldapFilter.ts:510-571 | Whatever the parser accepts is a derivation over the items parseClauseItem reads, and the node it returns is that derivation's. |
| FilterGrammar.NegatedNegates | frontend/src/lib/ldapFilter.ts:546-564 | Folding and unfolding negations negates the meaning, in each of the four cases. |
| FilterGrammar.ParsingKeepsMeaning | frontend/src/lib/ldapFilter.ts:578-587 | Folding, flattening and nesting keep the Boolean function of the items read, for all interpretations; what the items mean by the standard is the matter of FilterConformance. |
| FilterRfc.ReadsAssertion | frontend/src/lib/ldapFilter.ts:465-492 | Every item of RFC 4515 but matching rules is read as the clause that means it, or refused exactly when the builder has no operator for it. |
| FilterRfc.ClauseMeansAssertion | frontend/src/lib/ldapFilter.ts:465-492 | Under any matching rules the clause holds for an entry exactly when the assertion does. |
| FilterRfc.ValidIsDerivable | frontend/src/lib/ldapFilter.ts:690-717 | Matching rules apart, isValidFilterAssertion accepts exactly the items of RFC 4515. |
| FilterRfc.AcceptedItemAgrees | frontend/src/lib/ldapFilter.ts:465-492 | An accepted item is an item of RFC 4515 with the meaning shown exactly when no blanks surround its attribute, its escapes are well formed, raw stars stand only behind a plain equals sign and nothing that must be escaped is raw; and then it has no other reading. |
| FilterRfc.BeyondTheGrammar | frontend/src/lib/ldapFilter.ts:458-492 | Three inputs the parser accepts and the standard does not have: a loose backslash, a star behind >= and a blank behind the attribute. |
| FilterConformance.ParsedAndValid | frontend/src/lib/ldapFilter.ts:510-587 | A text of nested items and white space is parsed exactly when all its items can be shown, and valid exactly when all its items are valid and nothing stands between its tokens. |
| FilterConformance.AcceptedFilterConforms | frontend/src/lib/ldapFilter.ts:578-587 | A filter the parser accepts is a sentence of RFC 4515 exactly when the validator accepts it too; the node shown then selects what the sentence selects under any matching rules. |
| FilterBuilder.BuildPrints | frontend/src/lib/ldapFilter.ts:357-371 | The text the builder writes is the print of the derivation that its tree stands for. |
| FilterBuilder.BuiltMeansIntended | frontend/src/lib/ldapFilter.ts:320-371 | That derivation means what the user's tree asks for, through dropped clauses, flattened groups and negations. |
| FilterTheorems.BuiltTextParses | frontend/src/lib/ldapFilter.ts:357-371 | Parsing built text succeeds exactly when it nests no deeper than the limit. |
| FilterTheorems.RoundTripKeepsMeaning | frontend/src/lib/ldapFilter.ts:578-587 | What is read back from built text selects exactly the entries the user asked for. |
| FilterTheorems.EmptyTextMeansNoCondition | frontend/src/lib/ldapFilter.ts:357-371 | The builder writes nothing exactly when nothing is asked for. |
| FilterTheorems.ClauseRoundTrip | frontend/src/lib/ldapFilter.ts:320-352 | A clause keeps its meaning through the round trip exactly when it is not a negated notEquals. |
| FilterTheorems.DoubleNegationIsLost | frontend/src/lib/ldapFilter.ts:357-371 | A concrete negated notEquals is written like the unnegated one, though it means the opposite. |
| FilterTheorems.BuiltTextIsValid | frontend/src/lib/ldapFilter.ts:719-764 | Built text is accepted by the validator exactly when it is not empty and nests no deeper than the limit. |
| FilterTheorems.ValidatesPrinted | frontend/src/lib/ldapFilter.ts:719-764 | The validator accepts a printed derivation exactly when it is not too deep, and stops right behind it. |
| FilterTheorems.KeywordFilterIsValid | frontend/src/lib/ldapFilter.ts:671-683 | Whatever is typed into the tree's search box, the filter sent is valid; what it selects is the matter of FilterSearch.KeywordFilterSelects. |
| FilterKeyword.PrefixRecognised | frontend/src/lib/ldapFilter.ts:641-647 | A name, a sign and a value, with any blanks, are recognised exactly when the lower-case name is objectclass or listed and the value has no line end. |
| FilterKeyword.SelectableWhenLower | frontend/src/lib/ldapFilter.ts:632-647 | A listed attribute can be selected by its own name, or by any keyword at all, exactly when the list spells it in lower case. |
| FilterKeyword.MixedCasePrefixUnknown | frontend/src/lib/ldapFilter.ts:632-647 | givenName is listed, but givenName=ali is not recognised as a prefix. |
| FilterSearch.KeywordFilterSelects | frontend/src/lib/ldapFilter.ts:649-683 | The filter sent is a sentence of RFC 4515 at most one operator deep. Under any matching rules it selects, behind a prefix, by the trimmed non-empty words between the value's stars in their order, the first and last anchored exactly where the value has no star; anywhere without a star; by presence for nothing or only stars; by equality for objectClass. Without a prefix it selects by the keyword anywhere in one of the listed attributes, or everything for an empty keyword. |
| FilterSearch.PartedOnce | frontend/src/lib/ldapFilter.ts:657-658 | There is one way to part a value at its stars. |
| FilterSearch.ItemsTell | frontend/src/lib/ldapFilter.ts:690-717 | Two assertions of RFC 4515 that are written alike are the same. |
| FilterGuid.GuidSelects | frontend/src/lib/ldapFilter.ts:91-104 | A UUID under objectGUID, in any case, is compared as the sixteen octets of its text, those of the first three groups from last to first. |
| FilterCursor.EscapeValue | frontend/src/lib/ldapFilter.ts:55-61 | The replacement loop computes the escaping of each character once. |
| FilterCursor.UnescapeValue | frontend/src/lib/ldapFilter.ts:403-429 | The byte-collecting loop computes the unescaped value. |
| FilterCursor.SplitFilterValueWildcards | frontend/src/lib/ldapFilter.ts:432-456 | The loop computes the segments between unescaped stars. |
| FilterCursor.ParseCursor.ParseItem | frontend/src/lib/ldapFilter.ts:510-571 | The cursor-driven recursive parser returns the node and stops where the specification says. |
| FilterCursor.ParseFilter | frontend/src/lib/ldapFilter.ts:578-587 | The whole parser is the function the theorems speak about. |
| FilterCursor.CheckValue | frontend/src/lib/ldapFilter.ts:705-716 | The loop accepts exactly the values with well-formed escapes and allowed characters. |
| FilterCursor.ValidateLdapFilter | frontend/src/lib/ldapFilter.ts:719-764 | The position-driven validator is the predicate the theorems speak about. |
| Ldif.CheckBase64 | frontend/src/lib/ldif.ts:41-59 | True exactly when the value starts or ends unsafely or holds an unsafe character. |
| Ldif.PlainIsSafe | frontend/src/lib/ldif.ts:41-59 | A value is written plainly exactly when it is a SAFE-STRING of RFC 2849 without blanks at its ends or control characters other than a tab. |
| Ldif.WrittenIsSafe | frontend/src/lib/ldif.ts:93-106 | What stands behind a single colon is a SAFE-STRING; any other value stands as base64 behind two. |
| Ldif.Fold | frontend/src/lib/ldif.ts:79-91 | The loop computes the folded line. |
| Ldif.Serialize | frontend/src/lib/ldif.ts:108-132 | The loops compute the document of the entries. |
| Ldif.UnfoldLines | frontend/src/lib/ldif.ts:147-174 | The loop computes the logical lines. |
| Ldif.Parse | frontend/src/lib/ldif.ts:216-286 | The state machine with its variables computes the parser's outcome, the escaping TypeError included; what that outcome is for arbitrary text is the matter of LdifRecords. |
| LdifTheorems.FoldedWidth | frontend/src/lib/ldif.ts:79-91 | No physical line is wider than asked exactly when the width is above one or the line fits. |
| LdifTheorems.UnfoldContinuations | frontend/src/lib/ldif.ts:147-174 | Unfolding joins the continuation lines of a folded line to the text they were cut from. |
| LdifTheorems.WrittenLine | frontend/src/lib/ldif.ts:186-209 | Reading a written attribute line gives back name and value, plain or base64. |
| LdifTheorems.WrittenIsRead | frontend/src/lib/ldif.ts:216-286 | Written entries with legal names are read back as they were, unless a name is inherited from Object.prototype: then the parser throws. |
| LdifTheorems.RoundTrip | frontend/src/lib/ldif.ts:108-286 | At every width and with any version line, entries come back unchanged and without errors exactly when names are legal, not dn, changetype or inherited, and every attribute has a value. |
| LdifTheorems.ReadIsGood | frontend/src/lib/ldif.ts:216-286 | From any text whatever, only entries of that shape are read, each attribute once. |
| LdifLines.CutIsFound | frontend/src/lib/ldif.ts:147-150 | A text made of lines with any of the three line breaks between them is cut into these lines, a carriage return and line feed taken together. |
| LdifLines.TextIsCut | frontend/src/lib/ldif.ts:147-150 | Every text is cut that way, nothing lost. |
| LdifLines.UnfoldsToLogical | frontend/src/lib/ldif.ts:147-174 | A logical line is a line with those behind it that begin with a space, none of them after an empty line, joined without their spaces and carrying the first one's number; comments keep the spaces. |
| LdifRecords.ReadsRecords | frontend/src/lib/ldif.ts:216-286 | For any text: each malformed or undecodable line, each changetype and each attribute outside a record gives exactly one error with its line number, in order; each record, from a dn line to the next empty or dn line, without a faulty line yields its entry, names in the order of their first values and values in the order of the lines; and the parser throws exactly when a record gives a value to a name inherited from Object.prototype. |
| LdifRecords.FaultyRecordsYieldNothing | frontend/src/lib/ldif.ts:244-276 | A record with a malformed or undecodable line or a changetype contributes no entry. |
| LdifRecords.CommentsChangeNothing | frontend/src/lib/ldif.ts:228-229 | Leaving out the comments changes neither entries nor errors. |
| LdifRecords.LineForms | frontend/src/lib/ldif.ts:186-209 | A line is read as an attribute exactly when it is a legal name, a colon and the rest, which is decoded behind a second colon and stripped of blanks in front. |
| LdifTheorems.ConstructorThrows | frontend/src/lib/ldif.ts:282-283 | An entry with an attribute called constructor is written but cannot be read: parsing throws. |
| Dn.TrimToString | frontend/src/lib/dn.ts:7-18 | The loop trims white space but not an escaped space at the end. |
| Dn.HasValidEscapesAndQuotes | frontend/src/lib/dn.ts:20-35 | The loop accepts exactly the texts with whole escapes, balanced quotes and no raw NUL. |
| Dn.FindTopLevelChar | frontend/src/lib/dn.ts:37-61 | The loop finds the first occurrence outside quotes and escapes. |
| Dn.SplitTopLevel | frontend/src/lib/dn.ts:63-77 | The loop computes the parts between top-level separators. |
| Dn.DecodeEscapedValue | frontend/src/lib/dn.ts:97-131 | The loop decodes hex runs as UTF-8 and other escapes as themselves. |
| Dn.EscapeDnValue | frontend/src/lib/newEntryTemplates.ts:318-349 | The loop computes the escaped value. |
| Dn.DnPathChain | frontend/src/lib/bookmarks.ts:98-113 | The climbing loop ends for every input and computes the chain. |
| DnTheorems.SplitJoins | frontend/src/lib/dn.ts:63-77 | Splitting loses nothing, and no part can be split further. |
| DnScan.FindsTopLevel | frontend/src/lib/dn.ts:37-61 | The scan finds the first such character that has an even number of backslashes directly in front of it and an even number of unescaped quotes before it. |
| DnScan.ValidIsWellEscaped | frontend/src/lib/dn.ts:20-35 | A text is accepted exactly when it is made of plain characters, escaped special characters and escaped octets, with its quotes in pairs and no raw NUL. |
| DnScan.DecodesPieces | frontend/src/lib/dn.ts:97-131 | Decoding gives such a text the meaning of its pieces, octets in a row decoded together. |
| DnTheorems.JoinSplits | frontend/src/lib/dn.ts:63-77 | Parts that are closed under the scan survive joining and splitting. |
| DnTheorems.LowerParts | frontend/src/lib/dn.ts:188-206 | Lower-casing commutes with splitting. |
| DnTheorems.WithinIsSuffix | frontend/src/lib/dn.ts:188-206 | Containment holds exactly when the base's RDNs are a suffix of the child's, up to case and trailing commas. |
| DnTheorems.WithinReflexive | frontend/src/lib/dn.ts:188-206 | A DN lies within itself, up to case. |
| DnTheorems.WithinTransitive | frontend/src/lib/dn.ts:188-206 | Containment is transitive. |
| DnTheorems.EscapedCommaIsStripped | frontend/src/lib/dn.ts:188-206 | The commas cut off before comparing may include an escaped one: what is compared is then no DN. |
| DnRdn.QuotedValueIsRead | frontend/src/lib/dn.ts:165-176 | A value between quotes is read as it stands, with its commas, plus signs and equals signs, for any value without quotes, backslashes and NUL. |
| DnRdn.PartsAreReadInTurn | frontend/src/lib/dn.ts:149-176 | Two RDNs joined by a plus sign are read as the attributes of the one followed by those of the other, or not at all when one of them is not. |
| DnBuilding.JoinedDnSplits | frontend/src/lib/dn.ts:84-95 | Joining any well-formed RDN and any parent and splitting again gives back the two, trimmed. |
| DnBuilding.DecodesEscaped | frontend/src/lib/dn.ts:97-131 | Decoding undoes the escaping of any value. |
| DnBuilding.EscapedIsDnString | frontend/src/lib/newEntryTemplates.ts:318-349 | An escaped value is a string of section 3 of RFC 4514: no special character is left raw, nor a space or number sign in front, nor a space at the end. |
| DnBuilding.BuildDnRoundTrip | frontend/src/lib/newEntryTemplates.ts:356-361 | The built DN's RDN is well formed, decodes to exactly the attribute and value, and is split off with the trimmed parent left. |
| DnBuilding.ParentSurvives | frontend/src/lib/newEntryTemplates.ts:356-361 | The parent comes back unchanged exactly when it does not end in white space that was escaped. |
| DnBuilding.EscapedSpaceIsCut | frontend/src/lib/newEntryTemplates.ts:356-361 | A parent that ends in an escaped space loses it. |
| DnChain.ChainReachesBase | frontend/src/lib/bookmarks.ts:98-113 | For tidy DNs the chain is not empty exactly when the target lies within the base; it then leads from the base to the target, one element per extra RDN, each the parent of the next. |
| DnChain.ChainNeedsEqualCommas | frontend/src/lib/bookmarks.ts:98-113 | With runs of commas behind tidy DNs containment is what it was without, but the chain is there exactly when the target lies within the base and both runs are equally long. |
| DnChain.TrailingCommaBreaksChain | frontend/src/lib/bookmarks.ts:98-113 | Two inputs within their base but without a chain: a comma behind the target, and one behind the base. |
| LdapDiff.DiffChanges | frontend/src/lib/ldapDiff.ts:8-39 | The loops compute the change list. |
| LdapDiff.DiffApplies | frontend/src/lib/ldapDiff.ts:8-39 | The request is always accepted, touches each attribute at most once and changes exactly the attributes that differ. |
| LdapDiff.DiffThenApply | frontend/src/lib/ldapDiff.ts:8-39 | Applying the changes yields the new entry exactly when no two different lists of a common attribute join to the same text. |
| LdapDiff.DiffReachesTarget | frontend/src/lib/ldapDiff.ts:8-39 | Entries with non-empty lists of newline-free values always reach their target. |
| LdapDiff.ChangesCommute | frontend/src/lib/ldapDiff.ts:8-39 | The order of the changes does not matter. |
| LdapDiff.ApplyIsPointwise | frontend/src/lib/ldapDiff.ts:8-39 | With each attribute touched once a request succeeds exactly when each change could be made alone, and each attribute shows its own change. |
| LdapDiff.NewlineHidesChange | frontend/src/lib/ldapDiff.ts:33-35 | Splitting a value at its newline produces no change at all. |
| AttrRows.ConvertRows | frontend/src/lib/ldapDiff.ts:58-89 | The loop with its merging map computes the record of the rows. |
| AttrRows.RowsAreWellShaped | frontend/src/lib/ldapDiff.ts:58-89 | The record has each attribute once whatever its spelling, named and with at least one value. |
| AttrRows.RowsGiveValues | frontend/src/lib/ldapDiff.ts:58-89 | The record holds exactly the values that some row of that name gives: all source values of an untouched row, and the lines of an edited one that are not empty. |
| AttrRows.UntouchedRowIsKept | frontend/src/lib/ldapDiff.ts:66-68 | A row that was not edited is saved as it was filled, in its order and with its repetitions. |
| AttrRows.EditedRowInOrder | frontend/src/lib/ldapDiff.ts:68-71 | The lines of an edited row are saved once each, in the order in which they first stand. |
| AttrRows.RowsGrow | frontend/src/lib/ldapDiff.ts:72-87 | Later rows of a name add their new values behind those of earlier rows, under the spelling the name came with. |
| AttrRows.EditedRowsApply | frontend/src/lib/ldapDiff.ts:58-89 | Saving edited rows reaches the edited record exactly when joined texts tell the values apart. |

## Left out

- Concurrency in ConnectionService: each method is one critical section run alone; how sections of different threads interleave is the matter of ConnectionProtocol, which is a state machine on values.
- SearchQuota.PagesStayWithinQuota: under overlapping calls on one searchId the locking does not give the quota, as OverlapReached shows; the calls take turns from finding the session to coming back from its removal.
- That no session of a superseded entry is ever installed: identity check and installation are under two different locks, so the code does not promise it.
- The reaper goroutine's own start and stop, the wait for it in CloseAll, context deadlines, the schema cache, presets, status fields, audit records and log events: they touch none of the modelled state.
- DnBuilding.ParentSurvives and the other text results fold letter case on ASCII only; the full Unicode tables of toLowerCase and strings.ToLower are not modelled.
- White space is the set of String.trim everywhere; Go's TrimSpace differs from it at U+0085 and U+FEFF.
- FilterTheorems.RoundTripKeepsMeaning: not stated for UUID-shaped objectGUID values, which are written as sixteen raw bytes: FilterGuid.GuidSelects says which. Values are taken trimmed, as the builder trims them.
- FilterBuilder, FilterCursor: node ids and the revival of stored trees carry no meaning and are not modelled.
- LdifTheorems.RoundTrip: the base64 codec is any lossless pair of functions; a width below one and lone surrogates are not covered.
- SubtreeDelete.DeleteSubtree: no other client changes the directory meanwhile, and the listing shows every entry of the subtree; a tree-delete control that is refused as unsupported has done nothing.
- DnPolicy.DnWithinBase: ParseDN itself is abstract; TwoPhase.RenameStaysAllowed asks of it that it reads a trimmed RDN, a comma and a trimmed DN as the two, and of a parent that has to be printed that it has no white space at its ends.
- DnNames.TextTellsRdn: two RDNs are the same when their types and values agree up to case and outer white space; other matching rules a schema may define are not modelled.
- FilterRfc.ValidIsDerivable: matching rules (extensible items) are outside the grammar used; the parser refuses them all. A numeric OID may have leading zeros, as in the source.
- CursorStore.Store.Put: sessions are values in the map, so later changes through the reference that Put returns are not modelled; identifiers do not collide.
- LogBuffer.Buffer.Append: sequence numbers are unbounded, where the source wraps after 2^64 entries.
- LdapDiff.ApplyIsPointwise: the schema checks of a server and duplicate values within one list are not part of the modify semantics used here.
- AttrRows.ConvertRows: an attribute called __proto__, which assigns the record's prototype, is treated as a plain name.
- The add and modify actions of the write tool, which run in one phase.
- The pool of inline connections in stdio.go, CSV export, dialect detection, the schema tokenizer, time, GUID and SID formats: they would add easy members only.
- Network, TLS, authentication and JSON: oracles or parameters where a modelled function depends on them.
