/**
 Deleting a subtree through a server that deletes only leaves (section 4.8 of RFC 4511):
 backend/internal/ldapconn/operations.go.
 */
module SubtreeDelete {
  import opened Wrappers
  import opened Text
  import opened DnPolicy
  import opened DnNames

  const MAX_ENTRIES := 1000

  // --- Deepest first --------------------------------------------------------------------

  datatype Ranked = Ranked(dn: string, depth: nat)

  function InsertRanked(x: Ranked, s: seq<Ranked>): seq<Ranked> {
    if s == [] || x.depth >= s[0].depth then [x] + s else [s[0]] + InsertRanked(x, s[1..])
  }

  /** sort.SliceStable by decreasing depth */
  function StableSort(s: seq<Ranked>): seq<Ranked> {
    if s == [] then [] else InsertRanked(s[0], StableSort(s[1..]))
  }

  predicate Descending(s: seq<Ranked>) {
    forall i, j :: 0 <= i < j < |s| ==> s[i].depth >= s[j].depth
  }

  function AtDepth(s: seq<Ranked>, depth: nat): seq<Ranked> {
    if s == [] then [] else (if s[0].depth == depth then [s[0]] else []) + AtDepth(s[1..], depth)
  }

  lemma {:induction false} InsertKeepsAll(x: Ranked, s: seq<Ranked>)
    ensures multiset(InsertRanked(x, s)) == multiset{x} + multiset(s)
  {
    if s != [] && x.depth < s[0].depth {
      InsertKeepsAll(x, s[1..]);
      assert s == [s[0]] + s[1..];
    }
  }

  lemma {:induction false} InsertDescends(x: Ranked, s: seq<Ranked>)
    requires Descending(s)
    ensures Descending(InsertRanked(x, s))
  {
    if s != [] && x.depth < s[0].depth {
      var rest := InsertRanked(x, s[1..]);
      InsertDescends(x, s[1..]);
      InsertKeepsAll(x, s[1..]);
      forall y | y in rest ensures s[0].depth >= y.depth {
        assert y in multiset(rest);
        assert y == x || y in s[1..];
      }
      hide InsertRanked;
    }
  }

  lemma AtDepthCons(x: Ranked, s: seq<Ranked>, depth: nat)
    ensures AtDepth([x] + s, depth) == (if x.depth == depth then [x] else []) + AtDepth(s, depth)
  {
    assert ([x] + s)[1..] == s;
  }

  lemma {:induction false} InsertIsStable(x: Ranked, s: seq<Ranked>, depth: nat)
    ensures AtDepth(InsertRanked(x, s), depth) == AtDepth([x] + s, depth)
  {
    if s != [] && x.depth < s[0].depth {
      var rest := s[1..];
      InsertIsStable(x, rest, depth);
      assert s == [s[0]] + rest && InsertRanked(x, s) == [s[0]] + InsertRanked(x, rest);
      hide AtDepth, InsertRanked;
      AtDepthCons(s[0], InsertRanked(x, rest), depth);
      AtDepthCons(x, rest, depth);
      AtDepthCons(x, s, depth);
      AtDepthCons(s[0], rest, depth);
    }
  }

  /** Sorted by depth, a permutation, and stable: entries of one depth keep their order. */
  lemma {:induction false} StableSortSorts(s: seq<Ranked>, depth: nat)
    ensures Descending(StableSort(s)) && multiset(StableSort(s)) == multiset(s)
    ensures AtDepth(StableSort(s), depth) == AtDepth(s, depth)
  {
    if s != [] {
      var rest := s[1..];
      StableSortSorts(rest, depth);
      InsertKeepsAll(s[0], StableSort(rest));
      InsertDescends(s[0], StableSort(rest));
      InsertIsStable(s[0], StableSort(rest), depth);
      assert s == [s[0]] + rest && StableSort(s) == InsertRanked(s[0], StableSort(rest));
      hide AtDepth, InsertRanked, StableSort, Descending;
      AtDepthCons(s[0], rest, depth);
      AtDepthCons(s[0], StableSort(rest), depth);
    }
  }

  predicate Parsable(dns: seq<string>, parse: Parser) {
    forall i :: 0 <= i < |dns| ==> parse(dns[i]).Some?
  }

  function Rank(dns: seq<string>, parse: Parser): (r: seq<Ranked>)
    requires Parsable(dns, parse)
    ensures |r| == |dns|
    ensures forall i :: 0 <= i < |dns| ==> r[i] == Ranked(dns[i], |parse(dns[i]).value|)
  {
    if dns == [] then [] else [Ranked(dns[0], |parse(dns[0]).value|)] + Rank(dns[1..], parse)
  }

  function Dns(s: seq<Ranked>): (r: seq<string>)
    ensures |r| == |s| && forall i :: 0 <= i < |s| ==> r[i] == s[i].dn
  {
    if s == [] then [] else [s[0].dn] + Dns(s[1..])
  }

  lemma DnsCons(x: Ranked, s: seq<Ranked>)
    ensures Dns([x] + s) == [x.dn] + Dns(s)
  {
    assert ([x] + s)[1..] == s;
  }

  lemma InsertUnfolds(x: Ranked, s: seq<Ranked>)
    ensures s == [] || x.depth >= s[0].depth ==> InsertRanked(x, s) == [x] + s
    ensures s != [] && x.depth < s[0].depth ==> s == [s[0]] + s[1..] && InsertRanked(x, s) == [s[0]] + InsertRanked(x, s[1..])
  {
  }

  lemma {:induction false} InsertKeepsDns(x: Ranked, s: seq<Ranked>)
    ensures multiset(Dns(InsertRanked(x, s))) == multiset{x.dn} + multiset(Dns(s))
  {
    hide *;
    InsertUnfolds(x, s);
    if s == [] || x.depth >= s[0].depth {
      DnsCons(x, s);
    } else {
      var rest := s[1..];
      InsertKeepsDns(x, rest);
      DnsCons(s[0], rest);
      DnsCons(s[0], InsertRanked(x, rest));
    }
  }

  lemma {:induction false} SortKeepsDns(s: seq<Ranked>)
    ensures multiset(Dns(StableSort(s))) == multiset(Dns(s))
  {
    if s != [] {
      var rest := s[1..];
      SortKeepsDns(rest);
      assert s == [s[0]] + rest && StableSort(s) == InsertRanked(s[0], StableSort(rest));
      hide *;
      InsertKeepsDns(s[0], StableSort(rest));
      DnsCons(s[0], rest);
    }
  }

  /** Each node carries the depth of its own DN. */
  predicate Measured(s: seq<Ranked>, parse: Parser) {
    forall r :: r in s ==> parse(r.dn).Some? && r.depth == |parse(r.dn).value|
  }

  lemma MeasuredRank(s: seq<Ranked>, parse: Parser)
    requires Measured(s, parse)
    ensures Parsable(Dns(s), parse) && Rank(Dns(s), parse) == s
  {
    hide Dns, Rank;
    forall i | 0 <= i < |s| ensures parse(Dns(s)[i]).Some? && s[i] == Ranked(Dns(s)[i], |parse(Dns(s)[i]).value|) {
      assert s[i] in s;
    }
  }

  lemma DnsOfSorted(dns: seq<string>, parse: Parser)
    requires Parsable(dns, parse)
    ensures var out := Dns(StableSort(Rank(dns, parse)));
            multiset(out) == multiset(dns) && Parsable(out, parse) && Rank(out, parse) == StableSort(Rank(dns, parse))
  {
    hide StableSort, Rank, Dns;
    var nodes := Rank(dns, parse);
    StableSortSorts(nodes, 0);
    SortKeepsDns(nodes);
    assert Dns(nodes) == dns;
    forall r | r in StableSort(nodes) ensures parse(r.dn).Some? && r.depth == |parse(r.dn).value| {
      assert r in multiset(nodes);
    }
    MeasuredRank(StableSort(nodes), parse);
  }

  /** The longest DNs come first; None when one of them cannot be parsed. */
  method OrderDeepestFirst(dns: seq<string>, parse: Parser) returns (out: Option<seq<string>>)
    ensures out.None? <==> !Parsable(dns, parse)
    ensures out.Some? ==> multiset(out.value) == multiset(dns) && Parsable(out.value, parse)
    ensures out.Some? ==> Rank(out.value, parse) == StableSort(Rank(dns, parse))
  {
    var nodes: seq<Ranked> := [];
    for i := 0 to |dns|
      invariant |nodes| == i
      invariant forall k :: 0 <= k < i ==> parse(dns[k]).Some? && nodes[k] == Ranked(dns[k], |parse(dns[k]).value|)
    {
      var parsed := parse(dns[i]);
      if parsed.None? {
        return None;
      }
      nodes := nodes + [Ranked(dns[i], |parsed.value|)];
    }
    assert nodes == Rank(dns, parse);
    DnsOfSorted(dns, parse);
    out := Some(Dns(StableSort(nodes)));
  }

  // --- The directory --------------------------------------------------------------------

  /** The result codes the client tells apart. */
  datatype Code = Success | NoSuchObject | NotAllowedOnNonLeaf | SizeLimitExceeded | Unsupported | Refused

  /** A request the server has answered. */
  datatype Request =
    | Listing(dn: string, code: Code)
    | TreeDelete(dn: string, code: Code)
    | LeafDelete(dn: string, code: Code)

  predicate IsLeaf(entries: set<Name>, n: Name) {
    forall m :: m in entries && m != [] ==> m[1..] != n
  }

  function Subtree(entries: set<Name>, base: Name): set<Name> {
    set n | n in entries && Under(base, n)
  }

  /** Every entry has its parent, down to the naming contexts. */
  predicate Closed(entries: set<Name>, contexts: set<Name>) {
    forall n :: n in entries && n !in contexts ==> n != [] && n[1..] in entries
  }

  lemma LeafKeepsClosed(entries: set<Name>, contexts: set<Name>, n: Name)
    requires Closed(entries, contexts) && IsLeaf(entries, n)
    ensures Closed(entries - {n}, contexts)
  {
  }

  lemma ChildUnder(base: Name, m: Name)
    requires m != [] && Under(base, m[1..])
    ensures Under(base, m)
  {
    assert m[|m| - |base|..] == m[1..][|m| - 1 - |base|..];
  }

  lemma SubtreeKeepsClosed(entries: set<Name>, contexts: set<Name>, base: Name)
    requires Closed(entries, contexts)
    ensures Closed(entries - Subtree(entries, base), contexts)
  {
    var rest := entries - Subtree(entries, base);
    forall n | n in rest && n !in contexts ensures n != [] && n[1..] in rest {
      assert n in entries;
      if Under(base, n[1..]) {
        ChildUnder(base, n);
      }
    }
  }

  /** Each element of the set, once. */
  predicate Enumerates(names: seq<Name>, all: set<Name>) {
    (forall i :: 0 <= i < |names| ==> names[i] in all)
    && (forall n :: n in all ==> n in names)
    && forall i, j :: 0 <= i < j < |names| ==> names[i] != names[j]
  }

  lemma EnumeratesNone()
    ensures Enumerates([], {})
  {
  }

  lemma EnumeratesMore(names: seq<Name>, all: set<Name>, n: Name)
    requires Enumerates(names, all) && n !in all
    ensures Enumerates(names + [n], all + {n})
  {
    var more := names + [n];
    assert more[|names|] == n && forall i :: 0 <= i < |names| ==> more[i] == names[i];
  }

  lemma {:induction false} EnumerationSize(names: seq<Name>, all: set<Name>)
    requires Enumerates(names, all)
    ensures |names| == |all|
  {
    if names == [] {
      assert all == {};
    } else {
      var front := names[..|names| - 1];
      assert names == front + [names[|names| - 1]];
      EnumerationSize(front, all - {names[|names| - 1]});
    }
  }

  class Server {
    var entries: set<Name>
    const contexts: set<Name>
    /** The server's reading of a DN, and its way of writing one. */
    const resolve: string -> Option<Name>
    const text: Name -> string
    /** Every request, with its answer. */
    ghost var log: seq<Request>

    constructor (entries: set<Name>, contexts: set<Name>, resolve: string -> Option<Name>, text: Name -> string)
      requires Closed(entries, contexts) && forall n :: n in entries ==> resolve(text(n)) == Some(n)
      ensures this.entries == entries && this.contexts == contexts && this.resolve == resolve && this.text == text && Valid()
    {
      this.entries := entries;
      this.contexts := contexts;
      this.resolve := resolve;
      this.text := text;
      this.log := [];
    }

    ghost predicate Valid()
      reads this`entries
    {
      Closed(entries, contexts) && forall n :: n in entries ==> resolve(text(n)) == Some(n)
    }

    /** A search of the whole subtree: all of it in any order, or an error. */
    method Search(dn: string, sizeLimit: nat) returns (code: Code, dns: seq<string>, ghost names: seq<Name>)
      requires Valid()
      modifies this`log
      ensures log == old(log) + [Listing(dn, code)]
      ensures code != Unsupported && code != NotAllowedOnNonLeaf
      ensures code == NoSuchObject <==> resolve(dn).None? || resolve(dn).value !in entries
      ensures code == SizeLimitExceeded ==> |Subtree(entries, resolve(dn).value)| > sizeLimit
      ensures code == Success ==> resolve(dn).Some? && Enumerates(names, Subtree(entries, resolve(dn).value))
      ensures code == Success ==> |dns| == |names| && forall i :: 0 <= i < |dns| ==> dns[i] == text(names[i])
    {
      hide *;
      dns, names := [], [];
      var base := resolve(dn);
      if base.None? || base.value !in entries {
        log := log + [Listing(dn, NoSuchObject)];
        return NoSuchObject, [], [];
      }
      if * {
        log := log + [Listing(dn, Refused)];
        return Refused, [], [];
      }
      var rest := Subtree(entries, base.value);
      if |rest| > sizeLimit {
        log := log + [Listing(dn, SizeLimitExceeded)];
        return SizeLimitExceeded, [], [];
      }
      ghost var all := rest;
      EnumeratesNone();
      assert all - rest == {};
      while rest != {}
        invariant rest <= all && log == old(log) && Enumerates(names, all - rest)
        invariant |dns| == |names| && forall i :: 0 <= i < |dns| ==> dns[i] == text(names[i])
        decreases |rest|
      {
        var n :| n in rest;
        EnumeratesMore(names, all - rest, n);
        dns, names := dns + [text(n)], names + [n];
        assert all - (rest - {n}) == all - rest + {n};
        rest := rest - {n};
      }
      assert all - {} == all;
      log := log + [Listing(dn, Success)];
      code := Success;
    }

    /** Deletes a leaf, or changes nothing: also a leaf may be refused. */
    method Delete(dn: string) returns (code: Code)
      requires Valid()
      modifies this
      ensures Valid() && log == old(log) + [LeafDelete(dn, code)]
      ensures code == NoSuchObject <==> resolve(dn).None? || resolve(dn).value !in old(entries)
      ensures code == NotAllowedOnNonLeaf
        <==> resolve(dn).Some? && resolve(dn).value in old(entries) && !IsLeaf(old(entries), resolve(dn).value)
      ensures code != Unsupported && code != SizeLimitExceeded
      ensures entries == if code == Success then old(entries) - {resolve(dn).value} else old(entries)
    {
      var n := resolve(dn);
      if n.None? || n.value !in entries {
        log := log + [LeafDelete(dn, NoSuchObject)];
        return NoSuchObject;
      }
      if exists m :: m in entries && m != [] && m[1..] == n.value {
        log := log + [LeafDelete(dn, NotAllowedOnNonLeaf)];
        return NotAllowedOnNonLeaf;
      }
      if * {
        log := log + [LeafDelete(dn, Refused)];
        return Refused;
      }
      LeafKeepsClosed(entries, contexts, n.value);
      log := log + [LeafDelete(dn, Success)];
      entries := entries - {n.value};
      return Success;
    }

    /** Deletes the whole subtree at once, does not know the control, or fails after any number
        of leaves are gone. */
    method DeleteTree(dn: string) returns (code: Code)
      requires Valid()
      modifies this
      ensures Valid() && (code == Success || code == Unsupported || code == Refused)
      ensures log == old(log) + [TreeDelete(dn, code)]
      ensures code == Unsupported ==> entries == old(entries)
      ensures entries <= old(entries)
      ensures resolve(dn).Some? ==> old(entries) - entries <= Subtree(old(entries), resolve(dn).value)
      ensures resolve(dn).None? ==> entries == old(entries) && code != Success
      ensures code == Success ==> entries == old(entries) - Subtree(old(entries), resolve(dn).value)
    {
      if * {
        log := log + [TreeDelete(dn, Unsupported)];
        return Unsupported;
      }
      var base := resolve(dn);
      if base.None? {
        log := log + [TreeDelete(dn, Refused)];
        return Refused;
      }
      ghost var before := entries;
      while Subtree(entries, base.value) != {}
        invariant Valid() && before - Subtree(before, base.value) <= entries <= before && log == old(log)
        decreases |entries|
      {
        if * {
          break;
        }
        var n :| n in Subtree(entries, base.value);
        UnderReflexive(n);
        SubtreeInside(entries, base.value, n);
        SubtreeKeepsClosed(entries, contexts, n);
        assert n in Subtree(entries, n);
        entries := entries - Subtree(entries, n);
      }
      if * {
        log := log + [TreeDelete(dn, Refused)];
        return Refused;
      }
      SubtreeKeepsClosed(entries, contexts, base.value);
      log := log + [TreeDelete(dn, Success)];
      entries := entries - Subtree(entries, base.value);
      return Success;
    }
  }

  lemma SubtreeInside(entries: set<Name>, base: Name, n: Name)
    requires Under(base, n)
    ensures Subtree(entries, n) <= Subtree(entries, base)
  {
    forall m | m in Subtree(entries, n) ensures m in Subtree(entries, base) {
      UnderTransitive(base, n, m);
    }
  }

  // --- The client -----------------------------------------------------------------------

  datatype Failure = InvalidDn | Denied | TooLarge | Unparsable | Server(code: Code)

  datatype Result = Deleted(count: nat) | Failed(failure: Failure)

  /** Client and server read the same name in this DN, if both can read it. */
  predicate AgreesOn(server: Server, dn: string, parse: Parser) {
    parse(dn).Some? && server.resolve(dn).Some? ==> RealName(parse(dn).value) == server.resolve(dn).value
  }

  /** They agree on the DNs the server writes for its entries. */
  ghost predicate Agrees(server: Server, parse: Parser)
    reads server`entries
  {
    forall n :: n in server.entries ==> AgreesOn(server, server.text(n), parse)
  }

  function NamesOf(dns: seq<string>, parse: Parser): (names: seq<Name>)
    requires Parsable(dns, parse)
    ensures |names| == |dns| && forall i :: 0 <= i < |dns| ==> names[i] == RealName(parse(dns[i]).value)
  {
    if dns == [] then [] else [RealName(parse(dns[0]).value)] + NamesOf(dns[1..], parse)
  }

  predicate DeepestFirst(names: seq<Name>) {
    forall i, j :: 0 <= i < j < |names| ==> |names[i]| >= |names[j]|
  }

  lemma RankedDescend(out: seq<string>, dns: seq<string>, parse: Parser)
    requires Parsable(out, parse) && Parsable(dns, parse) && Rank(out, parse) == StableSort(Rank(dns, parse))
    ensures DeepestFirst(NamesOf(out, parse))
  {
    StableSortSorts(Rank(dns, parse), 0);
    hide StableSort, RealName, Rank, NamesOf;
    forall i, j | 0 <= i < j < |out| ensures |NamesOf(out, parse)[i]| >= |NamesOf(out, parse)[j]| {
      assert Rank(out, parse)[i].depth >= Rank(out, parse)[j].depth;
    }
  }

  lemma {:induction false} CountsOnce(dns: seq<string>, s: string)
    requires forall i, j :: 0 <= i < j < |dns| ==> dns[i] != dns[j]
    ensures multiset(dns)[s] <= 1
  {
    if dns != [] {
      CountsOnce(dns[1..], s);
      assert dns == [dns[0]] + dns[1..];
      if s == dns[0] {
        assert s !in dns[1..];
      }
    }
  }

  lemma {:induction false} CountedTwice(s: seq<string>, i: nat, j: nat)
    requires i < j < |s| && s[i] == s[j]
    ensures multiset(s)[s[i]] >= 2
  {
    assert s == s[..j] + [s[j]] + s[j + 1..];
    assert s[i] in s[..j] by {
      assert s[..j][i] == s[i];
    }
  }

  /** A listing of these names: each DN resolves to its name, and no name occurs twice. */
  predicate Lists(dns: seq<string>, names: seq<Name>, resolve: string -> Option<Name>) {
    |dns| == |names| && forall i :: 0 <= i < |dns| ==> resolve(dns[i]) == Some(names[i])
  }

  lemma Reordered(out: seq<string>, dns: seq<string>, x: string)
    requires multiset(out) == multiset(dns)
    ensures x in out <==> x in dns
  {
    assert x in out <==> x in multiset(out);
    assert x in dns <==> x in multiset(dns);
  }

  /** Reordering a listing without repeats reorders the names. */
  lemma OrderedNames(out: seq<string>, sorted: seq<Name>, dns: seq<string>, names: seq<Name>, all: set<Name>,
                     resolve: string -> Option<Name>)
    requires multiset(out) == multiset(dns) && Lists(out, sorted, resolve) && Lists(dns, names, resolve)
    requires Enumerates(names, all)
    ensures Enumerates(sorted, all)
  {
    forall i | 0 <= i < |out| ensures sorted[i] in all {
      Reordered(out, dns, out[i]);
      assert out[i] in out;
      var k :| 0 <= k < |dns| && dns[k] == out[i];
    }
    forall n | n in all ensures n in sorted {
      var k :| 0 <= k < |names| && names[k] == n;
      Reordered(out, dns, dns[k]);
      assert dns[k] in dns;
      var i :| 0 <= i < |out| && out[i] == dns[k];
      assert sorted[i] == n;
    }
    forall i, j | 0 <= i < j < |out| ensures sorted[i] != sorted[j] {
      DistinctStay(out, sorted, dns, names, all, resolve, i, j);
    }
  }

  lemma DistinctStay(out: seq<string>, sorted: seq<Name>, dns: seq<string>, names: seq<Name>, all: set<Name>,
                     resolve: string -> Option<Name>, i: nat, j: nat)
    requires multiset(out) == multiset(dns) && Lists(out, sorted, resolve) && Lists(dns, names, resolve)
    requires Enumerates(names, all) && i < j < |out|
    ensures sorted[i] != sorted[j]
  {
    Reordered(out, dns, out[i]);
    Reordered(out, dns, out[j]);
    assert out[i] in out && out[j] in out;
    var k :| 0 <= k < |dns| && dns[k] == out[i];
    var l :| 0 <= l < |dns| && dns[l] == out[j];
    if sorted[i] == sorted[j] {
      assert names[k] == names[l];
      assert k == l;
      CountedTwice(out, i, j);
      forall x, y | 0 <= x < y < |dns| ensures dns[x] != dns[y] {
        assert names[x] != names[y];
      }
      CountsOnce(dns, out[i]);
    }
  }

  lemma NamesResolve(out: seq<string>, dns: seq<string>, names: seq<Name>, server: Server, parse: Parser)
    requires multiset(out) == multiset(dns) && Parsable(out, parse)
    requires Lists(dns, names, server.resolve) && forall i :: 0 <= i < |dns| ==> AgreesOn(server, dns[i], parse)
    ensures Lists(out, NamesOf(out, parse), server.resolve)
  {
    hide RealName, NamesOf;
    forall i | 0 <= i < |out| ensures server.resolve(out[i]) == Some(NamesOf(out, parse)[i]) {
      assert out[i] in out;
      Reordered(out, dns, out[i]);
      var k :| 0 <= k < |dns| && dns[k] == out[i];
    }
  }

  /** What is left of the queue is no deeper than its head. */
  lemma StillQueued(entries: set<Name>, before: set<Name>, names: seq<Name>, i: nat, m: Name)
    requires DeepestFirst(names) && i < |names| && m in names && m in entries
    requires entries == before - (set k | 0 <= k < i :: names[k])
    ensures |m| <= |names[i]|
  {
    var j :| 0 <= j < |names| && names[j] == m;
    assert j >= i;
  }

  /** With everything deeper gone, the next entry is a leaf. */
  lemma NextIsLeaf(entries: set<Name>, before: set<Name>, base: Name, names: seq<Name>, i: nat)
    requires Enumerates(names, Subtree(before, base)) && DeepestFirst(names) && i < |names|
    requires entries == before - (set k | 0 <= k < i :: names[k])
    ensures names[i] in entries && IsLeaf(entries, names[i])
  {
    forall m | m in entries && m != [] ensures m[1..] != names[i] {
      if Under(base, m) {
        assert m in Subtree(before, base);
        StillQueued(entries, before, names, i, m);
      } else if Under(base, m[1..]) {
        ChildUnder(base, m);
      }
    }
  }

  /** Deletes of single entries, all granted but perhaps the last, which has this answer. */
  predicate LeafDeletes(asked: seq<Request>, last: Code) {
    (forall i :: 0 <= i < |asked| ==> asked[i].LeafDelete? && asked[i].code == if i == |asked| - 1 then last else Success)
    && (asked == [] ==> last == Success)
  }

  /** The answer to the last single delete; None when none was asked for. */
  function LastCode(code: Option<Code>): Code {
    if code.Some? then code.value else Success
  }

  lemma NoLeafDeletes()
    ensures LeafDeletes([], Success)
  {
  }

  lemma OneMoreLeaf(asked: seq<Request>, dn: string, code: Code)
    requires LeafDeletes(asked, Success)
    ensures LeafDeletes(asked + [LeafDelete(dn, code)], code)
  {
  }

  /** Deletes a queue of names one by one, each of them a leaf by the time its turn comes. */
  method DeleteOneByOne(server: Server, queue: seq<string>, ghost names: seq<Name>, ghost base: Name) returns (code: Code)
    requires server.Valid() && Lists(queue, names, server.resolve)
    requires Enumerates(names, Subtree(server.entries, base)) && DeepestFirst(names)
    modifies server
    ensures server.Valid() && server.entries <= old(server.entries)
    ensures old(server.entries) - server.entries <= Subtree(old(server.entries), base)
    ensures code == Success ==> server.entries == old(server.entries) - Subtree(old(server.entries), base)
    ensures code == Success || code == Refused
    ensures |old(server.log)| <= |server.log| && server.log[..|old(server.log)|] == old(server.log)
    ensures LeafDeletes(server.log[|old(server.log)|..], code)
  {
    hide Under, Closed, LeafDeletes;
    ghost var before := server.entries;
    ghost var asked: seq<Request> := [];
    NoLeafDeletes();
    for i := 0 to |queue|
      invariant server.Valid()
      invariant server.entries == before - (set k | 0 <= k < i :: names[k])
      invariant server.log == old(server.log) + asked && LeafDeletes(asked, Success)
    {
      NextIsLeaf(server.entries, before, base, names, i);
      var delCode := server.Delete(queue[i]);
      OneMoreLeaf(asked, queue[i], delCode);
      asked := asked + [LeafDelete(queue[i], delCode)];
      assert server.log == old(server.log) + asked;
      if delCode != Success {
        return delCode;
      }
    }
    return Success;
  }

  lemma Prepared(queue: seq<string>, dns: seq<string>, names: seq<Name>, all: set<Name>, server: Server, parse: Parser)
    requires multiset(queue) == multiset(dns) && Parsable(queue, parse) && Parsable(dns, parse)
    requires Rank(queue, parse) == StableSort(Rank(dns, parse))
    requires Lists(dns, names, server.resolve) && Enumerates(names, all)
    requires forall i :: 0 <= i < |dns| ==> AgreesOn(server, dns[i], parse)
    ensures Lists(queue, NamesOf(queue, parse), server.resolve) && Enumerates(NamesOf(queue, parse), all)
    ensures DeepestFirst(NamesOf(queue, parse)) && |queue| == |all|
  {
    hide *;
    RankedDescend(queue, dns, parse);
    NamesResolve(queue, dns, names, server, parse);
    OrderedNames(queue, NamesOf(queue, parse), dns, names, all, server.resolve);
    EnumerationSize(NamesOf(queue, parse), all);
  }

  lemma Listed(dns: seq<string>, names: seq<Name>, all: set<Name>, server: Server, parse: Parser)
    requires server.Valid() && Agrees(server, parse) && all <= server.entries && Enumerates(names, all)
    requires |dns| == |names| && forall i :: 0 <= i < |dns| ==> dns[i] == server.text(names[i])
    ensures Lists(dns, names, server.resolve) && |dns| == |all|
    ensures forall i :: 0 <= i < |dns| ==> AgreesOn(server, dns[i], parse)
  {
    EnumerationSize(names, all);
  }

  ghost predicate Present(entries: set<Name>, target: Option<Name>) {
    target.Some? && target.value in entries
  }

  /** The requests of one recursive delete: the listing, one tree delete, and single deletes only where
      the server does not know the control; nothing follows a refusal. */
  predicate InOrder(asked: seq<Request>, dn: string) {
    && asked != [] && asked[0].Listing? && asked[0].dn == dn
    && (|asked| > 1 ==> asked[0].code == Success && asked[1].TreeDelete? && asked[1].dn == dn)
    && (|asked| > 2 ==> asked[1].code == Unsupported)
    && (forall i :: 2 <= i < |asked| ==> asked[i].LeafDelete?)
    && forall i :: 0 <= i < |asked| - 1 ==> asked[i].code != Refused
  }

  predicate NothingRefused(asked: seq<Request>) {
    forall i :: 0 <= i < |asked| ==> asked[i].code != Refused
  }

  /** What each answer says about the directory before the call and the server's answers. */
  ghost predicate Explained(before: set<Name>, target: Option<Name>, text: Name -> string, parse: Parser,
                            asked: seq<Request>, r: Result) {
    match r
    case Deleted(count) => Present(before, target) && count == |Subtree(before, target.value)| <= MAX_ENTRIES
    case Failed(TooLarge) => Present(before, target) && |Subtree(before, target.value)| > MAX_ENTRIES
    case Failed(Unparsable) => Present(before, target) && exists n :: n in Subtree(before, target.value) && parse(text(n)).None?
    case Failed(Server(NoSuchObject)) => !Present(before, target)
    case Failed(Server(Refused)) => !NothingRefused(asked)
    case _ => false
  }

  /** The subtree can be deleted by this client: it is there, within the limit, and its DNs can be read. */
  ghost predicate Deletable(before: set<Name>, target: Option<Name>, text: Name -> string, parse: Parser) {
    Present(before, target) && |Subtree(before, target.value)| <= MAX_ENTRIES
    && forall n :: n in Subtree(before, target.value) ==> parse(text(n)).Some?
  }

  lemma UnparsableListed(dns: seq<string>, names: seq<Name>, all: set<Name>, text: Name -> string, parse: Parser)
    requires Enumerates(names, all) && |dns| == |names| && forall i :: 0 <= i < |dns| ==> dns[i] == text(names[i])
    requires !Parsable(dns, parse)
    ensures exists n :: n in all && parse(text(n)).None?
  {
    var i :| 0 <= i < |dns| && parse(dns[i]).None?;
    assert names[i] in all && parse(text(names[i])).None?;
  }

  lemma FirstTwoInOrder(dn: string, listed: Code, tree: Code)
    ensures InOrder([Listing(dn, listed)], dn) && (NothingRefused([Listing(dn, listed)]) <==> listed != Refused)
    ensures var two := [Listing(dn, Success), TreeDelete(dn, tree)]; InOrder(two, dn) && (NothingRefused(two) <==> tree != Refused)
  {
    assert [Listing(dn, listed)][0].code == listed;
    assert [Listing(dn, Success), TreeDelete(dn, tree)][1].code == tree;
  }

  lemma LeavesInOrder(asked: seq<Request>, dn: string, leaves: seq<Request>, code: Code)
    requires asked == [Listing(dn, Success), TreeDelete(dn, Unsupported)] && LeafDeletes(leaves, code)
    requires code == Success || code == Refused
    ensures InOrder(asked + leaves, dn) && (NothingRefused(asked + leaves) <==> code == Success)
  {
    var all := asked + leaves;
    assert forall i :: 2 <= i < |all| ==> all[i] == leaves[i - 2];
    if code == Refused {
      assert all[|all| - 1].code == Refused;
    }
  }

  /** The fallback: all listed entries one by one, the deepest first; None when a DN cannot be read. */
  method DeleteDeepestFirst(server: Server, dns: seq<string>, ghost names: seq<Name>, ghost base: Name, parse: Parser)
    returns (code: Option<Code>)
    requires server.Valid() && Agrees(server, parse) && Enumerates(names, Subtree(server.entries, base))
    requires |dns| == |names| && forall i :: 0 <= i < |dns| ==> dns[i] == server.text(names[i])
    modifies server
    ensures server.Valid() && server.entries <= old(server.entries)
    ensures old(server.entries) - server.entries <= Subtree(old(server.entries), base)
    ensures code.None? ==> server.entries == old(server.entries)
    ensures code.None? ==> exists n :: n in Subtree(old(server.entries), base) && parse(server.text(n)).None?
    ensures code.Some? ==> (code.value == Success || code.value == Refused)
    ensures code.Some? ==> forall n :: n in Subtree(old(server.entries), base) ==> parse(server.text(n)).Some?
    ensures code == Some(Success) ==> server.entries == old(server.entries) - Subtree(old(server.entries), base)
    ensures |old(server.log)| <= |server.log| && server.log[..|old(server.log)|] == old(server.log)
    ensures LeafDeletes(server.log[|old(server.log)|..], LastCode(code))
  {
    hide Under, Closed, Rank, StableSort, NamesOf, Enumerates, Lists, Subtree, AgreesOn, LeafDeletes, Parsable;
    SubtreeWithin(server.entries, base);
    Listed(dns, names, Subtree(server.entries, base), server, parse);
    var ordered := OrderDeepestFirst(dns, parse);
    if ordered.None? {
      NoLeafDeletes();
      UnparsableListed(dns, names, Subtree(server.entries, base), server.text, parse);
      assert server.log[|old(server.log)|..] == [];
      return None;
    }
    ParsableListed(dns, names, Subtree(server.entries, base), server.text, parse);
    Prepared(ordered.value, dns, names, Subtree(server.entries, base), server, parse);
    var delCode := DeleteOneByOne(server, ordered.value, NamesOf(ordered.value, parse), base);
    return Some(delCode);
  }

  lemma ParsableListed(dns: seq<string>, names: seq<Name>, all: set<Name>, text: Name -> string, parse: Parser)
    requires Enumerates(names, all) && |dns| == |names| && forall i :: 0 <= i < |dns| ==> dns[i] == text(names[i])
    requires Parsable(dns, parse)
    ensures forall n :: n in all ==> parse(text(n)).Some?
  {
    forall n | n in all ensures parse(text(n)).Some? {
      var i :| 0 <= i < |names| && names[i] == n;
      assert dns[i] == text(n);
    }
  }

  /**
   Deletes dn and everything below it. On success precisely that is gone, and counted. A failure
   leaves everything outside the subtree alone and the directory parent-closed, and has one of four
   reasons: the target is not there, the subtree is over the limit and is not touched, the server
   refused a request, or an entry's DN cannot be read. So a server that refuses nothing gets every
   deletable subtree deleted, whether or not it knows the tree delete; the fallback never asks for an
   entry that still has children.
   */
  method DeleteSubtree(server: Server, dn: string, parse: Parser) returns (r: Result)
    requires server.Valid() && Agrees(server, parse)
    modifies server
    ensures server.Valid() && server.entries <= old(server.entries)
    ensures server.resolve(dn).None? ==> server.entries == old(server.entries)
    ensures server.resolve(dn).Some? ==>
      var subtree := Subtree(old(server.entries), server.resolve(dn).value);
      && old(server.entries) - server.entries <= subtree
      && (r.Deleted? ==> server.entries == old(server.entries) - subtree)
      && (|subtree| > MAX_ENTRIES ==> server.entries == old(server.entries))
    ensures |old(server.log)| <= |server.log| && server.log[..|old(server.log)|] == old(server.log)
    ensures InOrder(server.log[|old(server.log)|..], dn)
    ensures Explained(old(server.entries), server.resolve(dn), server.text, parse, server.log[|old(server.log)|..], r)
    ensures r == Failed(Failure.Server(Refused)) <==> !NothingRefused(server.log[|old(server.log)|..])
    ensures Deletable(old(server.entries), server.resolve(dn), server.text, parse) && NothingRefused(server.log[|old(server.log)|..])
            ==> r == Deleted(|Subtree(old(server.entries), server.resolve(dn).value)|)
  {
    hide Under, Closed, Rank, StableSort, NamesOf, Enumerates, Lists, Subtree, AgreesOn, LeafDeletes, InOrder, NothingRefused,
      Parsable;
    ghost var before := server.entries;
    var code, dns, names := server.Search(dn, MAX_ENTRIES + 1);
    assert server.log[|old(server.log)|..] == [Listing(dn, code)];
    FirstTwoInOrder(dn, code, Success);
    if code == SizeLimitExceeded {
      return Failed(TooLarge);
    }
    if code != Success {
      return Failed(Failure.Server(code));
    }
    ghost var base := server.resolve(dn).value;
    ghost var all := Subtree(before, base);
    SubtreeWithin(before, base);
    Listed(dns, names, all, server, parse);
    if |dns| > MAX_ENTRIES {
      return Failed(TooLarge);
    }
    var treeCode := server.DeleteTree(dn);
    assert server.log[|old(server.log)|..] == [Listing(dn, Success), TreeDelete(dn, treeCode)];
    FirstTwoInOrder(dn, Success, treeCode);
    if treeCode == Success {
      return Deleted(|dns|);
    }
    if treeCode != Unsupported {
      return Failed(Failure.Server(treeCode));
    }
    ghost var leavesFrom := |server.log|;
    var delCode := DeleteDeepestFirst(server, dns, names, base, parse);
    LeavesInOrder([Listing(dn, Success), TreeDelete(dn, Unsupported)], dn, server.log[leavesFrom..], LastCode(delCode));
    assert server.log[|old(server.log)|..] == [Listing(dn, Success), TreeDelete(dn, Unsupported)] + server.log[leavesFrom..];
    if delCode.None? {
      return Failed(Unparsable);
    }
    if delCode.value != Success {
      return Failed(Failure.Server(delCode.value));
    }
    return Deleted(|dns|);
  }

  lemma SubtreeWithin(entries: set<Name>, base: Name)
    ensures Subtree(entries, base) <= entries
    ensures forall n :: n in Subtree(entries, base) ==> Under(base, n)
  {
  }

  /** What normalizeLDAPWriteDN lets through. */
  predicate WellFormed(dn: string, parse: Parser) {
    dn != "" && !HasRawControlChar(dn) && parse(dn).Some?
  }

  predicate HasRawControlChar(dn: string) {
    exists i :: 0 <= i < |dn| && (dn[i] < ' ' || dn[i] == '\U{007F}')
  }

  /** The whole operation behind its policy gate: whatever is deleted lies below a DN that passed the
      gate, and inside the allowed bases wherever the compared texts can be trusted. */
  method DeleteEntryRecursively(server: Server, profile: Profile, rawDn: string, parse: Parser) returns (r: Result)
    requires server.Valid() && Agrees(server, parse)
    modifies server
    ensures server.Valid() && server.entries <= old(server.entries)
    ensures server.entries != old(server.entries) ==> WriteAllowed(profile, Trim(rawDn), parse) && parse(Trim(rawDn)).Some?
    ensures parse(Trim(rawDn)).Some? && AgreesOn(server, Trim(rawDn), parse) ==>
      forall n :: n in old(server.entries) - server.entries ==> Under(RealName(parse(Trim(rawDn)).value), n)
    ensures parse(Trim(rawDn)).Some? && AgreesOn(server, Trim(rawDn), parse) && GateTold(profile, parse(Trim(rawDn)).value, parse) ==>
      forall n :: n in old(server.entries) - server.entries ==> NameAllowed(profile, n, parse)
    ensures r == Failed(InvalidDn) <==> !WellFormed(Trim(rawDn), parse)
    ensures r == Failed(Denied) <==> WellFormed(Trim(rawDn), parse) && !WriteAllowed(profile, Trim(rawDn), parse)
    ensures r == Failed(InvalidDn) || r == Failed(Denied) ==> server.log == old(server.log) && server.entries == old(server.entries)
    ensures |old(server.log)| <= |server.log| && server.log[..|old(server.log)|] == old(server.log)
    ensures WellFormed(Trim(rawDn), parse) && WriteAllowed(profile, Trim(rawDn), parse) ==>
      var asked := server.log[|old(server.log)|..];
      && InOrder(asked, Trim(rawDn))
      && Explained(old(server.entries), server.resolve(Trim(rawDn)), server.text, parse, asked, r)
      && (Deletable(old(server.entries), server.resolve(Trim(rawDn)), server.text, parse) && NothingRefused(asked)
          ==> r == Deleted(|Subtree(old(server.entries), server.resolve(Trim(rawDn)).value)|))
    ensures r.Deleted? ==>
      server.resolve(Trim(rawDn)).Some?
      && server.entries == old(server.entries) - Subtree(old(server.entries), server.resolve(Trim(rawDn)).value)
  {
    hide WriteAllowed, NameAllowed, RealName, Under, Trim, GateTold, InOrder, NothingRefused, Subtree, HasRawControlChar;
    var dn := Trim(rawDn);
    TrimAgain(rawDn);
    if dn == "" || HasRawControlChar(dn) || parse(dn).None? {
      return Failed(InvalidDn);
    }
    var allowed := EnsureWriteAllowed(profile, dn, parse);
    if !allowed {
      return Failed(Denied);
    }
    r := DeleteSubtree(server, dn, parse);
    forall n | n in old(server.entries) - server.entries
      ensures AgreesOn(server, dn, parse) ==> Under(RealName(parse(dn).value), n)
      ensures AgreesOn(server, dn, parse) && GateTold(profile, parse(dn).value, parse) ==> NameAllowed(profile, n, parse)
    {
      SubtreeWithin(old(server.entries), server.resolve(dn).value);
      if AgreesOn(server, dn, parse) && GateTold(profile, parse(dn).value, parse) {
        AllowedBelow(profile, dn, parse(dn).value, n, parse);
      }
    }
  }
}
