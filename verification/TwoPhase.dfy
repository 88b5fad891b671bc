/**
 One-time confirmation tokens and the two-phase writes they guard:
 backend/internal/mcp/confirm.go and the delete and modifyDn branches of server.go.
 */
module TwoPhase {
  import opened Wrappers
  import opened Text
  import opened DnPolicy
  import opened DnNames

  type Token = string

  type Hash = string

  const CONFIRM_TTL := 60

  datatype ConfirmEntry = ConfirmEntry(paramHash: Hash, expiresAt: int)

  type Tokens = map<Token, ConfirmEntry>

  datatype ConfirmResult = Ok | Unknown | Expired | HashMismatch

  // --- The token table ------------------------------------------------------------------

  function Live(items: Tokens, now: int): Tokens {
    map t | t in items && now < items[t].expiresAt :: items[t]
  }

  function Check(items: Tokens, token: Token, paramHash: Hash, now: int): ConfirmResult {
    if token !in items then Unknown
    else if now >= items[token].expiresAt then Expired
    else if items[token].paramHash != paramHash then HashMismatch
    else Ok
  }

  class ConfirmStore {
    var ttl: int
    var items: Tokens

    constructor ()
      ensures ttl == CONFIRM_TTL && items == map[]
    {
      ttl, items := CONFIRM_TTL, map[];
    }

    method SetTtl(duration: int)
      modifies this
      ensures ttl == (if duration > 0 then duration else old(ttl)) && items == old(items)
    {
      if duration <= 0 {
        return;
      }
      ttl := duration;
    }

    /** Deletes while it walks over the keys. */
    method PruneLocked(now: int)
      modifies this
      ensures ttl == old(ttl) && items == Live(old(items), now)
    {
      var rest := items.Keys;
      ghost var before := items;
      while rest != {}
        invariant ttl == old(ttl) && rest <= before.Keys
        invariant forall t :: t in items <==> t in before && (t in rest || now < before[t].expiresAt)
        invariant forall t :: t in items ==> items[t] == before[t]
        decreases |rest|
      {
        var token :| token in rest;
        if now >= items[token].expiresAt {
          items := items - {token};
        }
        rest := rest - {token};
      }
    }

    /** random: the hex digits drawn, or None when the random source fails. */
    method Issue(paramHash: Hash, now: int, random: Option<string>) returns (issued: Option<(Token, int)>)
      modifies this
      ensures ttl == old(ttl)
      ensures random.None? ==> issued == None && items == Live(old(items), now)
      ensures random.Some? ==> issued == Some(("c-" + random.value, now + ttl))
      ensures random.Some? ==>
        items == Live(old(items), now)["c-" + random.value := ConfirmEntry(paramHash, now + ttl)]
    {
      PruneLocked(now);
      if random.None? {
        return None;
      }
      var token := "c-" + random.value;
      var expiresAt := now + ttl;
      items := items[token := ConfirmEntry(paramHash, expiresAt)];
      issued := Some((token, expiresAt));
    }

    /** Whatever the outcome, the token is gone. */
    method Consume(token: Token, paramHash: Hash, now: int) returns (result: ConfirmResult)
      modifies this
      ensures ttl == old(ttl) && items == old(items) - {token}
      ensures result == Check(old(items), token, paramHash, now)
    {
      if token !in items {
        assert items - {token} == items;
        return Unknown;
      }
      var entry := items[token];
      items := items - {token};
      if now >= entry.expiresAt {
        return Expired;
      }
      if entry.paramHash != paramHash {
        return HashMismatch;
      }
      result := Ok;
    }
  }

  // --- Runs -----------------------------------------------------------------------------

  datatype Action = Delete(recursive: bool) | ModifyDn(newRdn: string, deleteOldRdn: bool, newSuperior: string)

  datatype Request = Request(connectionId: string, dn: string, action: Action)

  /** The calls that take the store's lock, in the order in which they get it. */
  datatype Op =
    | SetTtl(duration: int)
    | Preview(req: Request, now: int, random: Option<string>)
    | Confirm(req: Request, token: Token, now: int)

  datatype Event =
    | Issued(token: Token, req: Request, at: int, ttl: int)
    | Executed(token: Token, req: Request, at: int)
    | Voided(token: Token, req: Request, at: int)

  datatype State = State(ttl: int, items: Tokens, log: seq<Event>)

  const INITIAL := State(CONFIRM_TTL, map[], [])

  function Step(s: State, op: Op, hash: Request -> Hash): State {
    match op
    case SetTtl(duration) => if duration > 0 then s.(ttl := duration) else s
    case Preview(req, now, None) => s.(items := Live(s.items, now))
    case Preview(req, now, Some(random)) =>
      var token := "c-" + random;
      State(s.ttl, Live(s.items, now)[token := ConfirmEntry(hash(req), now + s.ttl)],
            s.log + [Issued(token, req, now, s.ttl)])
    case Confirm(req, token, now) =>
      var events := match Check(s.items, token, hash(req), now)
                    case Ok => [Executed(token, req, now)]
                    case Unknown => []
                    case _ => [Voided(token, req, now)];
      State(s.ttl, s.items - {token}, s.log + events)
  }

  function Run(s: State, ops: seq<Op>, hash: Request -> Hash): State
    decreases |ops|
  {
    if ops == [] then s else Run(Step(s, ops[0], hash), ops[1..], hash)
  }

  ghost predicate Injective(hash: Request -> Hash) {
    forall x, y :: hash(x) == hash(y) ==> x == y
  }

  /** The random source never repeats itself. */
  predicate Fresh(s: State, op: Op) {
    op.Preview? && op.random.Some? ==> forall i :: 0 <= i < |s.log| && s.log[i].Issued? ==> s.log[i].token != "c-" + op.random.value
  }

  predicate AllFresh(s: State, ops: seq<Op>, hash: Request -> Hash)
    decreases |ops|
  {
    ops != [] ==> Fresh(s, ops[0]) && AllFresh(Step(s, ops[0], hash), ops[1..], hash)
  }

  predicate Uses(e: Event, token: Token) {
    !e.Issued? && e.token == token
  }

  /** Event j of the log issued the token for this request and time, and nothing has used it since. */
  predicate IssuedAt(log: seq<Event>, j: nat, token: Token, req: Request, expiresAt: int) {
    && j < |log| && log[j].Issued? && log[j].token == token && log[j].req == req
    && log[j].ttl > 0 && log[j].at + log[j].ttl == expiresAt
    && forall k :: j < k < |log| ==> !Uses(log[k], token)
  }

  /** The execution at position i goes back to a preview of the same request. */
  ghost predicate Justified(log: seq<Event>, i: nat)
    requires i < |log| && log[i].Executed?
  {
    exists j, expiresAt ::
      IssuedAt(log[..i], j, log[i].token, log[i].req, expiresAt) && log[i].at < expiresAt
  }

  /** No token is issued twice, and a used token is never used again. */
  predicate OneUse(log: seq<Event>) {
    (forall i, k :: 0 <= i < k < |log| && log[i].Issued? && log[k].Issued? ==> log[i].token != log[k].token)
    && (forall i, k :: 0 <= i < k < |log| && !log[i].Issued? && !log[k].Issued? ==> log[i].token != log[k].token)
  }

  /** Uses of a token come after its issue. */
  predicate IssuedFirst(log: seq<Event>) {
    forall k :: 0 <= k < |log| && !log[k].Issued? ==>
      exists j :: 0 <= j < k && log[j].Issued? && log[j].token == log[k].token
  }

  ghost predicate Backed(s: State, token: Token, hash: Request -> Hash)
    requires token in s.items
  {
    exists j, req :: IssuedAt(s.log, j, token, req, s.items[token].expiresAt) && s.items[token].paramHash == hash(req)
  }

  ghost predicate Inv(s: State, hash: Request -> Hash) {
    && s.ttl > 0
    && (forall t :: t in s.items ==> Backed(s, t, hash))
    && (forall i :: 0 <= i < |s.log| && s.log[i].Executed? ==> Justified(s.log, i))
    && OneUse(s.log) && IssuedFirst(s.log)
  }

  lemma JustifiedStays(log: seq<Event>, e: Event, i: nat)
    requires i < |log| && log[i].Executed? && Justified(log, i)
    ensures (log + [e])[i] == log[i] && Justified(log + [e], i)
  {
    assert (log + [e])[..i] == log[..i];
  }

  lemma IssuedAtStays(log: seq<Event>, e: Event, j: nat, token: Token, req: Request, expiresAt: int)
    requires IssuedAt(log, j, token, req, expiresAt) && !Uses(e, token)
    ensures IssuedAt(log + [e], j, token, req, expiresAt)
  {
  }

  lemma BackedStays(s: State, s': State, e: Event, token: Token, hash: Request -> Hash)
    requires token in s.items && Backed(s, token, hash) && !Uses(e, token)
    requires s'.log == s.log + [e] && token in s'.items && s'.items[token] == s.items[token]
    ensures Backed(s', token, hash)
  {
    var j, req :| IssuedAt(s.log, j, token, req, s.items[token].expiresAt) && s.items[token].paramHash == hash(req);
    IssuedAtStays(s.log, e, j, token, req, s.items[token].expiresAt);
  }

  /** Logging a use of a live token, or a fresh issue. */
  lemma LogGrows(log: seq<Event>, e: Event)
    requires OneUse(log) && IssuedFirst(log)
    requires e.Issued? ==> forall i :: 0 <= i < |log| && log[i].Issued? ==> log[i].token != e.token
    requires !e.Issued? ==> exists j, req, t :: IssuedAt(log, j, e.token, req, t)
    ensures OneUse(log + [e]) && IssuedFirst(log + [e])
  {
    var more := log + [e];
    assert forall i :: 0 <= i < |log| ==> more[i] == log[i];
    if e.Issued? {
      UsedWereIssued(log, e.token);
    } else {
      var j: nat, req, t :| IssuedAt(log, j, e.token, req, t);
      forall i | 0 <= i < |log| && !log[i].Issued? ensures log[i].token != e.token {
        var k :| 0 <= k < i && log[k].Issued? && log[k].token == log[i].token;
        assert log[k].token == e.token ==> k == j;
        assert i > j ==> !Uses(log[i], e.token);
      }
      assert more[j].Issued? && more[j].token == e.token;
    }
    forall k | 0 <= k < |more| && !more[k].Issued?
      ensures exists j :: 0 <= j < k && more[j].Issued? && more[j].token == more[k].token
    {
      if k < |log| {
        var j :| 0 <= j < k && log[j].Issued? && log[j].token == log[k].token;
        assert more[j].Issued? && more[j].token == more[k].token;
      }
    }
  }

  lemma UsedWereIssued(log: seq<Event>, token: Token)
    requires IssuedFirst(log)
    requires forall i :: 0 <= i < |log| && log[i].Issued? ==> log[i].token != token
    ensures forall i :: 0 <= i < |log| ==> log[i].token != token
  {
  }

  lemma PreviewKeeps(s: State, req: Request, now: int, random: string, hash: Request -> Hash)
    requires Inv(s, hash) && Fresh(s, Preview(req, now, Some(random)))
    ensures Inv(Step(s, Preview(req, now, Some(random)), hash), hash)
  {
    var s' := Step(s, Preview(req, now, Some(random)), hash);
    var token := "c-" + random;
    var e := Issued(token, req, now, s.ttl);
    LogGrows(s.log, e);
    forall i | 0 <= i < |s'.log| && s'.log[i].Executed? ensures Justified(s'.log, i) {
      JustifiedStays(s.log, e, i);
    }
    forall t | t in s'.items ensures Backed(s', t, hash) {
      if t == token {
        assert IssuedAt(s'.log, |s.log|, token, req, now + s.ttl);
      } else {
        BackedStays(s, s', e, t, hash);
      }
    }
  }

  lemma ConfirmKeeps(s: State, req: Request, token: Token, now: int, hash: Request -> Hash)
    requires Inv(s, hash) && Injective(hash)
    ensures Inv(Step(s, Confirm(req, token, now), hash), hash)
  {
    var s' := Step(s, Confirm(req, token, now), hash);
    if token !in s.items {
      assert s'.items == s.items && s'.log == s.log;
    } else {
      var j: nat, issued :| IssuedAt(s.log, j, token, issued, s.items[token].expiresAt)
                       && s.items[token].paramHash == hash(issued);
      var e := if Check(s.items, token, hash(req), now) == Ok then Executed(token, req, now) else Voided(token, req, now);
      assert s'.log == s.log + [e];
      LogGrows(s.log, e);
      forall i | 0 <= i < |s'.log| && s'.log[i].Executed? ensures Justified(s'.log, i) {
        if i < |s.log| {
          JustifiedStays(s.log, e, i);
        } else {
          assert s'.log[..i] == s.log && issued == req;
        }
      }
      forall t | t in s'.items ensures Backed(s', t, hash) {
        BackedStays(s, s', e, t, hash);
      }
    }
  }

  lemma StepKeeps(s: State, op: Op, hash: Request -> Hash)
    requires Inv(s, hash) && Injective(hash) && Fresh(s, op)
    ensures Inv(Step(s, op, hash), hash)
  {
    match op
    case SetTtl(_) =>
      var s' := Step(s, op, hash);
      assert forall t :: t in s'.items ==> Backed(s, t, hash) ==> Backed(s', t, hash);
    case Preview(req, now, None) =>
      var s' := Step(s, op, hash);
      assert forall t :: t in s'.items ==> Backed(s, t, hash) ==> Backed(s', t, hash);
    case Preview(req, now, Some(random)) => PreviewKeeps(s, req, now, random, hash);
    case Confirm(req, token, now) => ConfirmKeeps(s, req, token, now, hash);
  }

  lemma {:induction false} RunKeeps(s: State, ops: seq<Op>, hash: Request -> Hash)
    requires Inv(s, hash) && Injective(hash) && AllFresh(s, ops, hash)
    ensures Inv(Run(s, ops, hash), hash)
    decreases |ops|
  {
    if ops != [] {
      StepKeeps(s, ops[0], hash);
      hide Inv, Step, Fresh;
      RunKeeps(Step(s, ops[0], hash), ops[1..], hash);
    }
  }

  lemma InitialInv(hash: Request -> Hash)
    ensures Inv(INITIAL, hash)
  {
  }

  /** Whatever calls are made, in whatever order and at whatever times: an executed write was
      previewed before, with exactly the same arguments on the same connection, less than the
      token's lifetime ago, and nobody used the token in between. */
  lemma EveryExecutionWasPreviewed(ops: seq<Op>, hash: Request -> Hash, i: nat)
    requires Injective(hash) && AllFresh(INITIAL, ops, hash)
    requires i < |Run(INITIAL, ops, hash).log| && Run(INITIAL, ops, hash).log[i].Executed?
    ensures var log := Run(INITIAL, ops, hash).log;
            exists j ::
              && 0 <= j < i && log[j].Issued? && log[j].token == log[i].token && log[j].req == log[i].req
              && log[j].ttl > 0 && log[i].at < log[j].at + log[j].ttl
              && forall k :: j < k < i ==> !Uses(log[k], log[i].token)
  {
    InitialInv(hash);
    RunKeeps(INITIAL, ops, hash);
    var log := Run(INITIAL, ops, hash).log;
    hide Run, AllFresh;
    assert Justified(log, i);
    var j: nat, expiresAt :| IssuedAt(log[..i], j, log[i].token, log[i].req, expiresAt) && log[i].at < expiresAt;
    assert log[..i][j] == log[j];
    forall k | j < k < i ensures !Uses(log[k], log[i].token) {
      assert log[..i][k] == log[k];
    }
  }

  /** A token is good for one use: once a call has consumed it, successfully or not, no other does. */
  lemma TokensAreUsedOnce(ops: seq<Op>, hash: Request -> Hash, i: nat, k: nat)
    requires Injective(hash) && AllFresh(INITIAL, ops, hash)
    requires i < |Run(INITIAL, ops, hash).log| && k < |Run(INITIAL, ops, hash).log|
    requires !Run(INITIAL, ops, hash).log[i].Issued? && !Run(INITIAL, ops, hash).log[k].Issued?
    requires Run(INITIAL, ops, hash).log[i].token == Run(INITIAL, ops, hash).log[k].token
    ensures i == k
  {
    InitialInv(hash);
    RunKeeps(INITIAL, ops, hash);
    hide Run, AllFresh;
  }

  // --- The write tool -------------------------------------------------------------------

  datatype Reply =
    | Rejected
    | Previewed(token: Token, expiresAt: int)
    /** The write went out; the directory's own answer is passed on. */
    | Sent
    | Failed(reason: ConfirmResult)

  class WriteServer {
    const confirms: ConfirmStore
    const hash: Request -> Hash
    /** The writes carried out and the tokens issued and used up. */
    ghost var log: seq<Event>
    /** The requests sent to the directory. */
    var executed: seq<Request>

    constructor (hash: Request -> Hash)
      ensures this.hash == hash && fresh(confirms) && Abstract() == INITIAL && executed == []
    {
      this.hash := hash;
      confirms := new ConfirmStore();
      log, executed := [], [];
    }

    ghost function Abstract(): State
      reads this, confirms
    {
      State(confirms.ttl, confirms.items, log)
    }

    /** Without a token nothing is written and one is issued; with one it is consumed first. */
    method TwoPhaseWrite(req: Request, rawToken: string, now: int, random: Option<string>) returns (reply: Reply)
      modifies this, confirms
      ensures Trim(rawToken) == "" ==> Abstract() == Step(old(Abstract()), Preview(req, now, random), hash)
      ensures Trim(rawToken) != "" ==> Abstract() == Step(old(Abstract()), Confirm(req, Trim(rawToken), now), hash)
      ensures executed == if reply == Sent then old(executed) + [req] else old(executed)
      ensures reply == Sent <==>
        Trim(rawToken) != "" && Check(old(confirms.items), Trim(rawToken), hash(req), now) == Ok
      ensures reply.Previewed? <==> Trim(rawToken) == "" && random.Some?
      ensures reply == Rejected <==> Trim(rawToken) == "" && random.None?
      ensures reply.Previewed? ==>
        reply.token in confirms.items && confirms.items[reply.token] == ConfirmEntry(hash(req), reply.expiresAt)
    {
      var paramHash := hash(req);
      var token := Trim(rawToken);
      if token == "" {
        var issued := confirms.Issue(paramHash, now, random);
        if issued.None? {
          return Rejected;
        }
        log := log + [Issued(issued.value.0, req, now, confirms.ttl)];
        return Previewed(issued.value.0, issued.value.1);
      }
      var result := confirms.Consume(token, paramHash, now);
      log := log + match result
                   case Ok => [Executed(token, req, now)]
                   case Unknown => []
                   case _ => [Voided(token, req, now)];
      if result == Ok {
        executed := executed + [req];
        return Sent;
      }
      return Failed(result);
    }

    /**
     The checks come first: a request outside the policy neither gets nor uses up a token. Any other
     answer means that the DN, and for a rename the place it would go to, pass the write gate, so that
     where the compared texts can be trusted the entry itself lies inside the allowed bases; and
     whatever passes is previewed, or goes on to its token.
     */
    method EntryWrite(profile: Option<Profile>, rawConnectionId: string, rawDn: string, action: Action, rawToken: string,
                      now: int, random: Option<string>, parse: Parser, format: seq<Rdn> -> string) returns (reply: Reply)
      modifies this, confirms
      ensures var req := Request(Trim(rawConnectionId), Trim(rawDn), NormalAction(action));
              !Admissible(profile, req, parse, format) ==> reply == Rejected && unchanged(this) && unchanged(confirms)
      ensures var req := Request(Trim(rawConnectionId), Trim(rawDn), NormalAction(action));
              Admissible(profile, req, parse, format) ==>
                && executed == (if reply == Sent then old(executed) + [req] else old(executed))
                && Abstract() == Step(old(Abstract()), if Trim(rawToken) == "" then Preview(req, now, random)
                                                       else Confirm(req, Trim(rawToken), now), hash)
      ensures reply == Rejected <==>
        || Trim(rawConnectionId) == "" || profile.None? || !PassesGate(profile.value, Trim(rawDn), parse)
        || (action.ModifyDn? && !PassesRename(profile.value, Trim(rawDn), action, parse, format))
        || (Trim(rawToken) == "" && random.None?)
      ensures reply.Previewed? <==> reply != Rejected && Trim(rawToken) == ""
      ensures executed == if reply == Sent then old(executed) + [Request(Trim(rawConnectionId), Trim(rawDn), NormalAction(action))]
                          else old(executed)
      ensures reply != Rejected && GateTold(profile.value, parse(Trim(rawDn)).value, parse) ==>
        NameAllowed(profile.value, RealName(parse(Trim(rawDn)).value), parse)
    {
      hide Step, Trim, NormalDn, BaseAllowed, ModifyDnDestination, GateTold, NameAllowed, RealName, PassesGate, PassesRename;
      var req := Request(Trim(rawConnectionId), Trim(rawDn), NormalAction(action));
      if profile.Some? {
        TrimAgain(rawDn);
        AdmissibleMeans(profile.value, req, parse, format);
        RenameMeans(profile.value, Trim(rawDn), action, parse, format);
        GatePassedDecides(profile.value, Trim(rawDn), parse);
      }
      if req.connectionId == "" || req.dn == "" || profile.None? || profile.value.readOnly {
        return Rejected;
      }
      if !NormalDn(req.dn, parse) || !BaseAllowed(profile.value, req.dn, parse) {
        return Rejected;
      }
      if req.action.ModifyDn? {
        var destination := ModifyDnDestination(req.dn, req.action.newRdn, req.action.newSuperior, parse, format);
        if destination.None? || !BaseAllowed(profile.value, destination.value, parse) {
          return Rejected;
        }
      }
      reply := TwoPhaseWrite(req, rawToken, now, random);
    }
  }

  function NormalAction(a: Action): Action {
    match a
    case Delete(_) => a
    case ModifyDn(newRdn, deleteOldRdn, newSuperior) => ModifyDn(Trim(newRdn), deleteOldRdn, Trim(newSuperior))
  }

  /** A trimmed DN that is well-formed and has no raw control characters. */
  predicate NormalDn(dn: string, parse: Parser) {
    dn != "" && parse(dn).Some? && forall i :: 0 <= i < |dn| ==> dn[i] >= ' ' && dn[i] != '\U{007F}'
  }

  predicate BaseAllowed(p: Profile, dn: string, parse: Parser) {
    WriteBases(p) == [] || WithinAnyBase(Trim(dn), WriteBases(p), parse)
  }

  /** Where a rename would put the entry; None where the source returns an error. */
  function ModifyDnDestination(dn: string, newRdn: string, newSuperior: string, parse: Parser, format: seq<Rdn> -> string): Option<string> {
    var rdn, superior := Trim(newRdn), Trim(newSuperior);
    if !NormalDn(rdn, parse) || (superior != "" && !NormalDn(superior, parse)) || Trim(dn) == "" then None
    else if |parse(rdn).value| != 1 then None
    else if superior != "" then Some(rdn + "," + superior)
    else
      match parse(Trim(dn))
      case None => None
      case Some(parsed) =>
        if |parsed| <= 1 then Some(rdn)
        else if parse(format(parsed[1..])).None? then None else Some(rdn + "," + format(parsed[1..]))
  }

  /** What the tool checks before the two phases. */
  predicate Admissible(profile: Option<Profile>, req: Request, parse: Parser, format: seq<Rdn> -> string) {
    && req.connectionId != "" && req.dn != "" && profile.Some? && !profile.value.readOnly
    && NormalDn(req.dn, parse) && BaseAllowed(profile.value, req.dn, parse)
    && (req.action.ModifyDn? ==>
          var destination := ModifyDnDestination(req.dn, req.action.newRdn, req.action.newSuperior, parse, format);
          destination.Some? && BaseAllowed(profile.value, destination.value, parse))
  }

  /** The DN is well-formed and the write policy lets it through. */
  predicate PassesGate(p: Profile, dn: string, parse: Parser) {
    NormalDn(dn, parse) && WriteAllowed(p, dn, parse)
  }

  /** The rename has a destination, and the write policy lets that through too. */
  predicate PassesRename(p: Profile, dn: string, action: Action, parse: Parser, format: seq<Rdn> -> string)
    requires action.ModifyDn?
  {
    var destination := ModifyDnDestination(dn, action.newRdn, action.newSuperior, parse, format);
    destination.Some? && WriteAllowed(p, destination.value, parse)
  }

  /** Blanks around a DN make no difference to the bases. */
  lemma BaseAllowedMeans(p: Profile, dn: string, parse: Parser)
    requires !p.readOnly && Trim(dn) != ""
    ensures BaseAllowed(p, dn, parse) <==> WriteAllowed(p, dn, parse)
  {
    TrimAgain(dn);
    hide Trim, Canonical;
    assert forall i :: 0 <= i < |WriteBases(p)| ==> WithinBase(Trim(dn), WriteBases(p)[i], parse) == WithinBase(dn, WriteBases(p)[i], parse);
  }

  lemma DestinationIsText(dn: string, newRdn: string, newSuperior: string, parse: Parser, format: seq<Rdn> -> string)
    requires ModifyDnDestination(dn, newRdn, newSuperior, parse, format).Some?
    ensures Trim(ModifyDnDestination(dn, newRdn, newSuperior, parse, format).value) != ""
  {
    var destination := ModifyDnDestination(dn, newRdn, newSuperior, parse, format).value;
    TrimTrims(newRdn);
    assert destination[0] == Trim(newRdn)[0] && !IsSpace(destination[0]);
    assert TrimStart(destination) == destination;
    TrimEndKeepsStart(destination);
  }

  /** The checks of the tool are the write policy of the executing call, on the DN and on the destination. */
  lemma AdmissibleMeans(p: Profile, req: Request, parse: Parser, format: seq<Rdn> -> string)
    requires Trim(req.dn) == req.dn
    ensures Admissible(Some(p), req, parse, format) <==>
      && req.connectionId != "" && PassesGate(p, req.dn, parse)
      && (req.action.ModifyDn? ==> PassesRename(p, req.dn, req.action, parse, format))
  {
    hide Trim, ModifyDnDestination, BaseAllowed, WriteAllowed;
    if !p.readOnly && req.dn != "" {
      BaseAllowedMeans(p, req.dn, parse);
      if req.action.ModifyDn? {
        var destination := ModifyDnDestination(req.dn, req.action.newRdn, req.action.newSuperior, parse, format);
        if destination.Some? {
          DestinationIsText(req.dn, req.action.newRdn, req.action.newSuperior, parse, format);
          BaseAllowedMeans(p, destination.value, parse);
        }
      }
    } else {
      NotAllowed(p, req.dn, parse);
    }
  }

  lemma NotAllowed(p: Profile, dn: string, parse: Parser)
    requires p.readOnly || dn == ""
    ensures !WriteAllowed(p, dn, parse)
  {
  }

  /** The blanks that the tool cuts off the new RDN and superior make no difference. */
  lemma RenameMeans(p: Profile, dn: string, action: Action, parse: Parser, format: seq<Rdn> -> string)
    ensures action.ModifyDn? ==>
      (PassesRename(p, dn, NormalAction(action), parse, format) <==> PassesRename(p, dn, action, parse, format))
  {
    if action.ModifyDn? {
      TrimAgain(action.newRdn);
      TrimAgain(action.newSuperior);
    }
    hide Trim, WriteAllowed;
  }

  lemma GatePassedDecides(p: Profile, dn: string, parse: Parser)
    requires Trim(dn) == dn
    ensures PassesGate(p, dn, parse) ==>
      parse(dn).Some? && (GateTold(p, parse(dn).value, parse) ==> NameAllowed(p, RealName(parse(dn).value), parse))
  {
    hide Trim, GateTold, NameAllowed, RealName, WriteAllowed;
    if PassesGate(p, dn, parse) && GateTold(p, parse(dn).value, parse) {
      GateDecides(p, dn, parse(dn).value, parse);
    }
  }

  // --- Where a rename ends ----------------------------------------------------------------

  /** A parser that reads an RDN, a comma and a DN, both without blanks around them, as what it reads
      in the two, and nothing but blanks as the empty DN. */
  ghost predicate Compositional(parse: Parser) {
    && (forall s :: parse(s) == Some([]) ==> Trim(s) == "")
    && (forall rdn, parent ::
          (Trimmed(rdn) && parse(rdn).Some? && |parse(rdn).value| == 1
           && Trimmed(parent) && parse(parent).Some? && parse(parent).value != [])
            ==> parse(rdn + "," + parent) == Some(parse(rdn).value + parse(parent).value))
  }

  /** The printed parent of a DN that was read, if it can be read at all, is read as the same name. */
  ghost predicate Faithful(parse: Parser, format: seq<Rdn> -> string) {
    forall s :: parse(s).Some? && |parse(s).value| > 1 && parse(format(parse(s).value[1..])).Some?
      ==> RealName(parse(format(parse(s).value[1..])).value) == RealName(parse(s).value[1..])
  }

  /** The DN under which the renamed entry will stand: the given superior, or its own parent. */
  function NewParent(dn: string, newSuperior: string, parse: Parser): Option<seq<Rdn>> {
    if Trim(newSuperior) != "" then parse(Trim(newSuperior))
    else match parse(Trim(dn)) case None => None case Some(d) => Some(if |d| <= 1 then [] else d[1..])
  }

  /** The DN's own parent is printed without blanks around it. */
  predicate PrintsTrimmed(dn: string, parse: Parser, format: seq<Rdn> -> string) {
    parse(Trim(dn)).Some? && |parse(Trim(dn)).value| > 1 ==> Trimmed(format(parse(Trim(dn)).value[1..]))
  }

  lemma DestinationName(dn: string, newRdn: string, newSuperior: string, parse: Parser, format: seq<Rdn> -> string)
    requires Compositional(parse) && Faithful(parse, format)
    requires ModifyDnDestination(dn, newRdn, newSuperior, parse, format).Some?
    requires Trim(newSuperior) == "" ==> PrintsTrimmed(dn, parse, format)
    ensures var destination := ModifyDnDestination(dn, newRdn, newSuperior, parse, format).value;
            && parse(destination).Some? && parse(Trim(newRdn)).Some? && |parse(Trim(newRdn)).value| == 1
            && NewParent(dn, newSuperior, parse).Some?
            && Trimmed(destination) && destination != ""
            && RealName(parse(destination).value)
              == RealName(parse(Trim(newRdn)).value) + RealName(NewParent(dn, newSuperior, parse).value)
  {
    var rdn, superior := Trim(newRdn), Trim(newSuperior);
    TrimAgain(newSuperior);
    TrimTrims(newSuperior);
    TrimTrims(newRdn);
    assert rdn != "";
    hide Trim, Real;
    if superior != "" {
      assert parse(superior).value != [];
      RealAppended(parse(rdn).value, parse(superior).value);
    } else {
      var d := parse(Trim(dn)).value;
      if |d| > 1 {
        assert parse(Trim(dn)).Some? && |parse(Trim(dn)).value| > 1;
        var parent := format(d[1..]);
        assert |RealName(parse(parent).value)| == |d| - 1;
        RealAppended(parse(rdn).value, parse(parent).value);
      } else {
        RealAppended(parse(rdn).value, []);
        assert parse(rdn).value + [] == parse(rdn).value;
      }
    }
  }

  lemma RealAppended(r: seq<Rdn>, p: seq<Rdn>)
    ensures RealName(r + p) == RealName(r) + RealName(p)
  {
    hide Real;
    assert |RealName(r + p)| == |r| + |p|;
  }

  /** The gate on the destination speaks about the name the entry will have: where the compared
      texts can be trusted, a rename that passes it ends inside the allowed bases. An own parent
      that is printed must not end in white space, which the gate would cut off. */
  lemma RenameStaysAllowed(p: Profile, req: Request, parse: Parser, format: seq<Rdn> -> string)
    requires Compositional(parse) && Faithful(parse, format)
    requires Admissible(Some(p), req, parse, format) && req.action.ModifyDn?
    requires Trim(req.action.newSuperior) == "" ==> PrintsTrimmed(req.dn, parse, format)
    requires var destination := ModifyDnDestination(req.dn, req.action.newRdn, req.action.newSuperior, parse, format).value;
             parse(destination).Some? ==> GateTold(p, parse(destination).value, parse)
    ensures var rdn := parse(Trim(req.action.newRdn));
            var parent := NewParent(req.dn, req.action.newSuperior, parse);
            rdn.Some? && parent.Some? && NameAllowed(p, RealName(rdn.value) + RealName(parent.value), parse)
  {
    hide ModifyDnDestination, GateTold, NameAllowed, RealName, NewParent, Trim, NormalDn, WithinAnyBase, Compositional, Faithful,
      PrintsTrimmed;
    DestinationName(req.dn, req.action.newRdn, req.action.newSuperior, parse, format);
    var destination := ModifyDnDestination(req.dn, req.action.newRdn, req.action.newSuperior, parse, format).value;
    TrimKeeps(destination);
    GateDecides(p, destination, parse(destination).value, parse);
  }
}
