/**
 Aggregating a paged search (RFC 2696) against a server that may answer anything:
 backend/internal/ldapconn/operations.go.
 */
module PagedSearch {
  import opened Wrappers

  /** An opaque octet string; the empty one says that there are no more pages. */
  type Cookie = string

  /** A response: paging is the control the server sent back, if any. */
  datatype Reply<E> =
    | Failed
    | Page(entries: seq<E>, referrals: seq<string>, paging: Option<Cookie>, sort: int)

  datatype Request = Request(pageSize: nat, cookie: Cookie)

  const MAX_EMPTY_PAGES := 64
  const MAX_REFERRALS := 20
  const DEFAULT_LIMIT := 500
  const MAX_LIMIT := 100000

  function AggregateLimit(sizeLimit: int): (limit: nat)
    ensures 0 < limit <= MAX_LIMIT
    ensures sizeLimit <= 0 ==> limit == DEFAULT_LIMIT
    ensures 0 < sizeLimit <= MAX_LIMIT ==> limit == sizeLimit
    ensures sizeLimit > MAX_LIMIT ==> limit == MAX_LIMIT
  {
    if sizeLimit <= 0 then DEFAULT_LIMIT else if sizeLimit > MAX_LIMIT then MAX_LIMIT else sizeLimit
  }

  // --- What the server has answered -----------------------------------------------------

  /** The reply to each request in turn. Nothing is known about it. */
  type Server<E> = nat -> Reply<E>

  function EntriesOf<E>(r: Reply<E>): seq<E> {
    if r.Page? then r.entries else []
  }

  function CookieOf<E>(r: Reply<E>): Cookie {
    if r.Page? && r.paging.Some? then r.paging.value else ""
  }

  /** All entries of the first n pages. */
  function AllEntries<E>(server: Server<E>, n: nat): seq<E> {
    if n == 0 then [] else AllEntries(server, n - 1) + EntriesOf(server(n - 1))
  }

  function AllReferrals<E>(server: Server<E>, n: nat): seq<string> {
    if n == 0 then []
    else AllReferrals(server, n - 1) + if server(n - 1).Page? then server(n - 1).referrals else []
  }

  /** The last sort result among the first n pages that was not zero. */
  function LastSort<E>(server: Server<E>, n: nat): int {
    if n == 0 then 0
    else if server(n - 1).Page? && server(n - 1).sort != 0 then server(n - 1).sort
    else LastSort(server, n - 1)
  }

  /** The cookie that request i carries: the one the response before it issued. */
  function CookieBefore<E>(server: Server<E>, i: nat): Cookie {
    if i == 0 then "" else CookieOf(server(i - 1))
  }

  /** How many of the first n pages, counted from the end, were empty. */
  function EmptyRun<E>(server: Server<E>, n: nat): nat {
    if n == 0 || EntriesOf(server(n - 1)) != [] then 0 else 1 + EmptyRun(server, n - 1)
  }

  /** Page i makes the client ask for another one. */
  predicate Continues<E>(server: Server<E>, limit: nat, i: nat) {
    && CookieOf(server(i)) != ""
    && |AllEntries(server, i + 1)| < limit
    && (EntriesOf(server(i)) == [] ==>
          CookieOf(server(i)) != CookieBefore(server, i) && EmptyRun(server, i + 1) < MAX_EMPTY_PAGES)
  }

  /** Pages never outrun the entries: at most 63 empty ones before each that counts. */
  lemma {:induction false} PagesAreBounded<E>(server: Server<E>, limit: nat, n: nat)
    requires forall i :: 0 <= i < n ==> Continues(server, limit, i)
    ensures n <= MAX_EMPTY_PAGES * |AllEntries(server, n)| + EmptyRun(server, n)
    ensures n > 0 ==> |AllEntries(server, n)| < limit && EmptyRun(server, n) < MAX_EMPTY_PAGES
  {
    if n > 0 {
      PagesAreBounded(server, limit, n - 1);
      assert Continues(server, limit, n - 1);
    }
  }

  /** Whatever the server answers, it cannot keep the client asking: with a limit of at least
      one entry some page among the first 64 * limit is the last. */
  lemma SomePageIsLast<E>(server: Server<E>, limit: nat) returns (last: nat)
    requires limit > 0
    ensures last < MAX_EMPTY_PAGES * limit && !Continues(server, limit, last)
    ensures forall i :: 0 <= i < last ==> Continues(server, limit, i)
  {
    last := 0;
    while Continues(server, limit, last)
      invariant forall i :: 0 <= i < last ==> Continues(server, limit, i)
      invariant last <= MAX_EMPTY_PAGES * limit
      decreases MAX_EMPTY_PAGES * limit - last
    {
      PagesAreBounded(server, limit, last + 1);
      last := last + 1;
    }
    PagesAreBounded(server, limit, last);
  }

  function Capped<T>(s: seq<T>, n: nat): seq<T> {
    if |s| <= n then s else s[..n]
  }

  lemma CappedMore(a: seq<string>, b: seq<string>, n: nat)
    ensures Capped(Capped(a, n) + b, n) == Capped(a + b, n)
  {
    if |a| > n {
      assert (a[..n] + b)[..n] == (a + b)[..n];
    }
  }

  method CollectReferrals(referrals: seq<string>, uris: seq<string>) returns (r: seq<string>)
    requires |referrals| <= MAX_REFERRALS
    ensures r == Capped(referrals + uris, MAX_REFERRALS)
  {
    r := referrals;
    for i := 0 to |uris|
      invariant |r| <= MAX_REFERRALS
      invariant r == Capped(referrals + uris[..i], MAX_REFERRALS)
    {
      if |r| >= MAX_REFERRALS {
        assert forall k :: i <= k <= |uris| ==> (referrals + uris[..k])[..MAX_REFERRALS] == r;
        return;
      }
      assert referrals + uris[..i + 1] == referrals + uris[..i] + [uris[i]];
      r := r + [uris[i]];
    }
    assert uris[..|uris|] == uris;
  }

  datatype Result<E> = Result(entries: seq<E>, referrals: seq<string>, truncated: bool, sort: int, failed: bool)

  /** What is known before page n is asked for. */
  predicate Underway<E>(server: Server<E>, limit: nat, n: nat) {
    && (forall i :: 0 <= i < n ==> Continues(server, limit, i))
    && |AllEntries(server, n)| < limit && EmptyRun(server, n) < MAX_EMPTY_PAGES
    && (n > 0 ==> CookieBefore(server, n) != "")
  }

  lemma NextPage<E>(server: Server<E>, n: nat)
    ensures AllEntries(server, n + 1) == AllEntries(server, n) + EntriesOf(server(n))
    ensures AllReferrals(server, n + 1)
      == AllReferrals(server, n) + if server(n).Page? then server(n).referrals else []
    ensures LastSort(server, n + 1)
      == if server(n).Page? && server(n).sort != 0 then server(n).sort else LastSort(server, n)
    ensures EmptyRun(server, n + 1) == if EntriesOf(server(n)) != [] then 0 else 1 + EmptyRun(server, n)
    ensures CookieBefore(server, n + 1) == CookieOf(server(n))
  {
  }

  /** The client's result after that many pages. */
  function Aggregate<E>(server: Server<E>, limit: nat, pages: nat): (r: Result<E>)
    requires pages > 0
  {
    var failed := server(pages - 1).Failed?;
    var stalled := EmptyRun(server, pages) == MAX_EMPTY_PAGES
                   && CookieOf(server(pages - 1)) !in ["", CookieBefore(server, pages - 1)];
    Result(
      Capped(AllEntries(server, pages), limit), Capped(AllReferrals(server, pages), MAX_REFERRALS),
      !failed && (|AllEntries(server, pages)| >= limit || stalled), LastSort(server, pages), failed)
  }

  /** The page requests, each with the cookie just received. */
  function PageRequests<E>(server: Server<E>, pageSize: nat, pages: nat): seq<Request> {
    if pages == 0 then []
    else PageRequests(server, pageSize, pages - 1) + [Request(pageSize, CookieBefore(server, pages - 1))]
  }

  /** The request of size zero that gives up a result set the server may still hold: with the
      latest cookie, when there is one and the search did not run to its end. */
  function Abandon<E>(server: Server<E>, limit: nat, pages: nat): seq<Request>
    requires pages > 0
  {
    var r := Aggregate(server, limit, pages);
    var cookie := if r.failed then CookieBefore(server, pages - 1) else CookieOf(server(pages - 1));
    if cookie != "" && (r.failed || r.truncated) then [Request(0, cookie)] else []
  }

  lemma EndsFailed<E>(server: Server<E>, limit: nat, n: nat)
    requires Underway(server, limit, n) && server(n).Failed?
    ensures !Continues(server, limit, n)
    ensures Aggregate(server, limit, n + 1)
      == Result(AllEntries(server, n), Capped(AllReferrals(server, n), MAX_REFERRALS), false, LastSort(server, n), true)
    ensures Abandon(server, limit, n + 1) == if n > 0 then [Request(0, CookieBefore(server, n))] else []
  {
    NextPage(server, n);
    assert AllEntries(server, n) + [] == AllEntries(server, n);
    assert AllReferrals(server, n) + [] == AllReferrals(server, n);
  }

  lemma EndsAtLimit<E>(server: Server<E>, limit: nat, n: nat)
    requires Underway(server, limit, n) && server(n).Page? && |AllEntries(server, n + 1)| >= limit
    ensures !Continues(server, limit, n)
    ensures Aggregate(server, limit, n + 1) == Result(AllEntries(server, n + 1)[..limit],
      Capped(AllReferrals(server, n + 1), MAX_REFERRALS), true, LastSort(server, n + 1), false)
    ensures Abandon(server, limit, n + 1) == if CookieOf(server(n)) != "" then [Request(0, CookieOf(server(n)))] else []
  {
    assert |AllEntries(server, n + 1)| == limit ==> AllEntries(server, n + 1)[..limit] == AllEntries(server, n + 1);
    hide AllEntries, AllReferrals, LastSort, EmptyRun, CookieBefore;
  }

  lemma EndsComplete<E>(server: Server<E>, limit: nat, n: nat)
    requires Underway(server, limit, n) && server(n).Page? && |AllEntries(server, n + 1)| < limit
    requires CookieOf(server(n)) == "" || (EntriesOf(server(n)) == [] && CookieOf(server(n)) == CookieBefore(server, n))
    ensures !Continues(server, limit, n) && Abandon(server, limit, n + 1) == []
    ensures Aggregate(server, limit, n + 1) == Result(AllEntries(server, n + 1),
      Capped(AllReferrals(server, n + 1), MAX_REFERRALS), false, LastSort(server, n + 1), false)
  {
    hide AllEntries, AllReferrals, LastSort, EmptyRun;
  }

  lemma EndsStalled<E>(server: Server<E>, limit: nat, n: nat)
    requires Underway(server, limit, n) && server(n).Page? && |AllEntries(server, n + 1)| < limit
    requires CookieOf(server(n)) != "" && CookieOf(server(n)) != CookieBefore(server, n)
    requires EntriesOf(server(n)) == [] && EmptyRun(server, n) + 1 == MAX_EMPTY_PAGES
    ensures !Continues(server, limit, n) && Abandon(server, limit, n + 1) == [Request(0, CookieOf(server(n)))]
    ensures Aggregate(server, limit, n + 1) == Result(AllEntries(server, n + 1),
      Capped(AllReferrals(server, n + 1), MAX_REFERRALS), true, LastSort(server, n + 1), false)
  {
    NextPage(server, n);
    hide AllReferrals, LastSort, EmptyRun, AllEntries;
  }

  /**
   The search ends after the first page that does not continue. What it returns is a prefix of
   everything the pages held; on the wire stands one request per page and at most one more.
   */
  method PagedSearchEntries<E>(server: Server<E>, pageSize: nat, limit: nat)
    returns (result: Result<E>, requests: seq<Request>, pages: nat)
    requires limit > 0
    ensures 0 < pages <= MAX_EMPTY_PAGES * limit
    ensures !Continues(server, limit, pages - 1) && forall i :: 0 <= i < pages - 1 ==> Continues(server, limit, i)
    ensures result == Aggregate(server, limit, pages)
    ensures requests == PageRequests(server, pageSize, pages) + Abandon(server, limit, pages)
  {
    hide AllEntries, AllReferrals, LastSort, EmptyRun, Continues, Aggregate, Abandon, PageRequests, Capped;
    var entries: seq<E>, referrals: seq<string> := [], [];
    var truncated, sortResult, emptyPages := false, 0, 0;
    var lastCookie, cookie: Cookie := "", "";
    requests, pages := [], 0;
    NothingYet(server, pageSize, limit);
    while true
      invariant requests == PageRequests(server, pageSize, pages)
      invariant Underway(server, limit, pages)
      invariant entries == AllEntries(server, pages)
      invariant referrals == Capped(AllReferrals(server, pages), MAX_REFERRALS)
      invariant sortResult == LastSort(server, pages)
      invariant lastCookie == cookie == CookieBefore(server, pages)
      invariant emptyPages == EmptyRun(server, pages) && !truncated
      decreases limit - |entries|, MAX_EMPTY_PAGES - emptyPages
    {
      ghost var n := pages;
      PagesSoFar(server, limit, n);
      NextPage(server, n);
      NextRequest(server, pageSize, n);
      var reply := server(pages);
      requests := requests + [Request(pageSize, cookie)];
      pages := pages + 1;
      if reply.Failed? {
        EndsFailed(server, limit, n);
        if |lastCookie| > 0 {
          requests := requests + [Request(0, lastCookie)];
        }
        return Result(entries, referrals, truncated, sortResult, true), requests, pages;
      }
      entries := entries + reply.entries;
      CappedMore(AllReferrals(server, n), reply.referrals, MAX_REFERRALS);
      referrals := CollectReferrals(referrals, reply.referrals);
      if reply.sort != 0 {
        sortResult := reply.sort;
      }
      var received := reply.paging;
      if |entries| >= limit {
        EndsAtLimit(server, limit, n);
        truncated := true;
        if received.Some? && |received.value| > 0 {
          requests := requests + [Request(0, received.value)];
        }
        return Result(entries[..limit], referrals, truncated, sortResult, false), requests, pages;
      }
      if received.None? || |received.value| == 0 {
        EndsComplete(server, limit, n);
        return Result(entries, referrals, truncated, sortResult, false), requests, pages;
      }
      if |reply.entries| == 0 {
        if received.value == lastCookie {
          EndsComplete(server, limit, n);
          return Result(entries, referrals, truncated, sortResult, false), requests, pages;
        }
        emptyPages := emptyPages + 1;
        if emptyPages >= MAX_EMPTY_PAGES {
          EndsStalled(server, limit, n);
          truncated := true;
          requests := requests + [Request(0, received.value)];
          return Result(entries, referrals, truncated, sortResult, false), requests, pages;
        }
      } else {
        emptyPages := 0;
      }
      GoesOn(server, limit, n);
      lastCookie := received.value;
      cookie := received.value;
    }
  }

  lemma NothingYet<E>(server: Server<E>, pageSize: nat, limit: nat)
    requires limit > 0
    ensures Underway(server, limit, 0) && AllEntries(server, 0) == [] && PageRequests(server, pageSize, 0) == []
    ensures Capped(AllReferrals(server, 0), MAX_REFERRALS) == [] && LastSort(server, 0) == 0 && EmptyRun(server, 0) == 0
  {
  }

  lemma NextRequest<E>(server: Server<E>, pageSize: nat, n: nat)
    ensures PageRequests(server, pageSize, n + 1)
      == PageRequests(server, pageSize, n) + [Request(pageSize, CookieBefore(server, n))]
  {
  }

  lemma PagesSoFar<E>(server: Server<E>, limit: nat, n: nat)
    requires Underway(server, limit, n)
    ensures n < MAX_EMPTY_PAGES * limit
    ensures |Capped(AllReferrals(server, n), MAX_REFERRALS)| <= MAX_REFERRALS
    ensures forall i :: 0 <= i < n ==> Continues(server, limit, i)
  {
    PagesAreBounded(server, limit, n);
  }

  lemma GoesOn<E>(server: Server<E>, limit: nat, n: nat)
    requires Underway(server, limit, n) && CookieOf(server(n)) != "" && |AllEntries(server, n + 1)| < limit
    requires EntriesOf(server(n)) == [] ==>
      CookieOf(server(n)) != CookieBefore(server, n) && EmptyRun(server, n) + 1 < MAX_EMPTY_PAGES
    ensures Underway(server, limit, n + 1)
  {
    NextPage(server, n);
    hide AllEntries, EmptyRun;
    assert Continues(server, limit, n);
  }

  // --- What the result and the requests amount to ---------------------------------------

  /** Every request carries the cookie of the response before it; only an abandoning one has size
      zero, it is the last, and it carries the latest cookie received. */
  lemma RequestsFollowCookies<E>(server: Server<E>, pageSize: nat, limit: nat, pages: nat, k: nat)
    requires pages > 0
    requires forall i :: 0 <= i < pages - 1 ==> Continues(server, limit, i)
    requires k < |PageRequests(server, pageSize, pages) + Abandon(server, limit, pages)|
    ensures var requests := PageRequests(server, pageSize, pages) + Abandon(server, limit, pages);
            && k <= pages && pages <= |requests|
            && (k < pages ==> requests[k] == Request(pageSize, CookieBefore(server, k)))
            && (0 < k < pages ==> requests[k].cookie == CookieOf(server(k - 1)) != "")
            && (k == pages ==>
                  && k == |requests| - 1 && requests[k].pageSize == 0 && requests[k].cookie != ""
                  && requests[k].cookie == if server(k - 1).Failed? then CookieBefore(server, k - 1)
                                           else CookieOf(server(k - 1)))
  {
    RequestAt(server, pageSize, pages, k);
    if 0 < k < pages {
      assert Continues(server, limit, k - 1);
    }
    hide PageRequests;
  }

  lemma {:induction false} RequestAt<E>(server: Server<E>, pageSize: nat, pages: nat, k: nat)
    ensures |PageRequests(server, pageSize, pages)| == pages
    ensures k < pages ==> PageRequests(server, pageSize, pages)[k] == Request(pageSize, CookieBefore(server, k))
  {
    if pages > 0 {
      RequestAt(server, pageSize, pages - 1, k);
    }
  }

  /** A server that hands out a list of pages, with a cookie on each but the last. */
  predicate Serves<E>(server: Server<E>, n: nat) {
    n > 0 && (forall i :: 0 <= i < n - 1 ==> CookieOf(server(i)) != "" && EntriesOf(server(i)) != [])
    && server(n - 1).Page? && CookieOf(server(n - 1)) == ""
  }

  lemma {:induction false} EntriesGrow<E>(server: Server<E>, i: nat, n: nat)
    requires i <= n
    ensures |AllEntries(server, i)| <= |AllEntries(server, n)|
  {
    if i < n {
      EntriesGrow(server, i, n - 1);
    }
  }

  /** From such a server the client gets everything when it stays below the limit. */
  lemma ServedCompletely<E>(server: Server<E>, n: nat, limit: nat, pages: nat)
    requires Serves(server, n) && |AllEntries(server, n)| < limit && pages > 0
    requires !Continues(server, limit, pages - 1) && forall i :: 0 <= i < pages - 1 ==> Continues(server, limit, i)
    ensures pages == n && Aggregate(server, limit, pages).entries == AllEntries(server, n)
    ensures !Aggregate(server, limit, pages).truncated && Abandon(server, limit, pages) == []
  {
    forall i | 0 <= i < n - 1 ensures Continues(server, limit, i) {
      EntriesGrow(server, i + 1, n);
    }
    assert !Continues(server, limit, n - 1);
    assert pages - 1 == n - 1;
  }
}
