/** Preview tickets and the cookies they are exchanged for (src/api/preview.rs).
  * Instants are integer nanoseconds; a new random value is a parameter. */
module Preview {
  import opened Options

  /** Thirty minutes. */
  const PREVIEW_TOKEN_TTL := 1_800_000_000_000

  type Token = string

  datatype Ticket = Ticket(workspaceId: string, expiresAt: int)

  datatype Grant = Grant(workspaceId: string, cookieToken: Option<Token>)

  datatype PreviewError = WorkspaceNotFound

  /** What the server is asked. `known` says whether the workspace is registered; `minted` is the
    * value the random generator would return. */
  datatype Op =
    | Create(known: bool, workspaceId: string, minted: Token, now: int)
    | Authorize(workspaceId: string, entry: Option<Token>, cookie: Option<Token>, minted: Token, now: int)

  type Store = map<Token, Ticket>

  function Unexpired(tokens: Store, now: int): Store {
    map v | v in tokens && tokens[v].expiresAt > now :: tokens[v]
  }

  function Created(tokens: Store, known: bool, workspaceId: string, minted: Token, now: int)
    : (Result<Token, PreviewError>, Store)
  {
    if !known then (Err(WorkspaceNotFound), tokens)
    else (Ok(minted), Unexpired(tokens, now)[minted := Ticket(workspaceId, now + PREVIEW_TOKEN_TTL)])
  }

  function Exchanged(tokens: Store, workspaceId: string, entry: Token, minted: Token, now: int)
    : (Option<Token>, Store)
  {
    var live := Unexpired(tokens, now);
    if entry in live && live[entry].workspaceId == workspaceId
    then (Some(minted), (live - {entry})[minted := Ticket(workspaceId, live[entry].expiresAt)])
    else (None, live)
  }

  /** An entry ticket, when present, decides alone; the cookie is looked at only without one. */
  function Authorized(tokens: Store, workspaceId: string, entry: Option<Token>, cookie: Option<Token>, minted: Token,
      now: int)
    : (Option<Grant>, Store)
  {
    match entry
    case Some(token) =>
      var (value, tokens') := Exchanged(tokens, workspaceId, token, minted, now);
      (if value.Some? then Some(Grant(workspaceId, value)) else None, tokens')
    case None =>
      (if cookie.Some? && cookie.value in tokens
          && tokens[cookie.value].expiresAt > now && tokens[cookie.value].workspaceId == workspaceId
       then Some(Grant(workspaceId, None)) else None,
       tokens)
  }

  /** The shared `preview_tokens` map. */
  class PreviewTokens {
    var tokens: Store

    constructor ()
      ensures tokens == map[]
    {
      tokens := map[];
    }

    method CreatePreviewSession(known: bool, workspaceId: string, minted: Token, now: int)
      returns (r: Result<Token, PreviewError>)
      modifies this
      ensures (r, tokens) == Created(old(tokens), known, workspaceId, minted, now)
    {
      if !known {
        return Err(WorkspaceNotFound);
      }
      tokens := map v | v in tokens && tokens[v].expiresAt > now :: tokens[v];
      tokens := tokens[minted := Ticket(workspaceId, now + PREVIEW_TOKEN_TTL)];
      return Ok(minted);
    }

    method ExchangePreviewTicket(workspaceId: string, entry: Token, minted: Token, now: int)
      returns (r: Option<Token>)
      modifies this
      ensures (r, tokens) == Exchanged(old(tokens), workspaceId, entry, minted, now)
    {
      tokens := map v | v in tokens && tokens[v].expiresAt > now :: tokens[v];
      if entry !in tokens || tokens[entry].workspaceId != workspaceId {
        return None;
      }
      var expiresAt := tokens[entry].expiresAt;
      tokens := tokens - {entry};
      tokens := tokens[minted := Ticket(workspaceId, expiresAt)];
      return Some(minted);
    }

    method PreviewAuthorization(workspaceId: string, entry: Option<Token>, cookie: Option<Token>, minted: Token,
        now: int)
      returns (r: Option<Grant>)
      modifies this
      ensures (r, tokens) == Authorized(old(tokens), workspaceId, entry, cookie, minted, now)
    {
      if entry.Some? {
        var value := ExchangePreviewTicket(workspaceId, entry.value, minted, now);
        return if value.Some? then Some(Grant(workspaceId, value)) else None;
      }
      if cookie.None? || cookie.value !in tokens {
        return None;
      }
      var ticket := tokens[cookie.value];
      var live := ticket.expiresAt > now && ticket.workspaceId == workspaceId;
      return if live then Some(Grant(workspaceId, None)) else None;
    }
  }

  // ----- Runs and lineage -----

  function Step(tokens: Store, op: Op): Store {
    match op
    case Create(known, w, minted, now) => Created(tokens, known, w, minted, now).1
    case Authorize(w, entry, cookie, minted, now) => Authorized(tokens, w, entry, cookie, minted, now).1
  }

  function Run(tokens: Store, ops: seq<Op>): Store {
    if ops == [] then tokens else Step(Run(tokens, ops[..|ops| - 1]), ops[|ops| - 1])
  }

  /** The value `v` through which operation `op` was granted access, if it was. */
  function GrantedBy(tokens: Store, op: Op): Option<Token> {
    if op.Authorize? && Authorized(tokens, op.workspaceId, op.entry, op.cookie, op.minted, op.now).0.Some?
    then (if op.entry.Some? then op.entry else op.cookie)
    else None
  }

  function Spends(tokens: Store, op: Op): Option<Token> {
    if op.Authorize? && op.entry.Some? then GrantedBy(tokens, op) else None
  }

  /** Random values never repeat. */
  ghost predicate FreshValues(ops: seq<Op>) {
    forall i, j :: 0 <= i < j < |ops| ==> ops[i].minted != ops[j].minted
  }

  /** The index of the create call a value descends from: `v` was issued by operation `i`, either
    * as a new ticket or in exchange for another value of the same lineage. */
  ghost function Root(ops: seq<Op>, v: Token): Option<nat>
    decreases |ops|
  {
    if ops == [] then None
    else
      var n := |ops| - 1;
      var before := Run(map[], ops[..n]);
      var op := ops[n];
      if op.minted == v && op.Create? && op.known then Some(n)
      else if op.minted == v && Spends(before, op).Some? then Root(ops[..n], op.entry.value)
      else Root(ops[..n], v)
  }

  /** How often `v` was exchanged. */
  ghost function Exchanges(ops: seq<Op>, v: Token): nat
    decreases |ops|
  {
    if ops == [] then 0
    else
      var n := |ops| - 1;
      Exchanges(ops[..n], v) + (if Spends(Run(map[], ops[..n]), ops[n]) == Some(v) then 1 else 0)
  }

  ghost predicate Issued(ops: seq<Op>, v: Token) {
    exists i :: 0 <= i < |ops| && ops[i].minted == v
  }

  /** What holds of every live value: it was issued, it was never spent, and it keeps the workspace
    * and the deadline of the create call it descends from. */
  ghost predicate Descends(ops: seq<Op>, v: Token, t: Ticket) {
    && Issued(ops, v)
    && Exchanges(ops, v) == 0
    && var r := Root(ops, v);
       && r.Some? && r.value < |ops|
       && var c := ops[r.value];
          c.Create? && c.known && c.workspaceId == t.workspaceId && c.now + PREVIEW_TOKEN_TTL == t.expiresAt
  }

  ghost predicate Lineage(ops: seq<Op>) {
    var live := Run(map[], ops);
    && (forall v :: v in live ==> Descends(ops, v, live[v]))
    && (forall v, u :: v in live && u in live && Root(ops, v) == Root(ops, u) ==> v == u)
    && (forall v :: Exchanges(ops, v) <= 1)
    && (forall v :: Exchanges(ops, v) > 0 ==> Issued(ops, v))
  }

  lemma FreshIsUnissued(ops: seq<Op>)
    requires ops != [] && FreshValues(ops)
    ensures FreshValues(ops[..|ops| - 1])
    ensures !Issued(ops[..|ops| - 1], ops[|ops| - 1].minted)
  {
  }

  /** A value that survives the last operation keeps its history. */
  lemma SurvivorKeepsHistory(ops: seq<Op>, v: Token)
    requires ops != [] && FreshValues(ops)
    requires Issued(ops[..|ops| - 1], v)
    ensures Root(ops, v) == Root(ops[..|ops| - 1], v)
    ensures Issued(ops, v)
  {
    FreshIsUnissued(ops);
    var i :| 0 <= i < |ops| - 1 && ops[..|ops| - 1][i].minted == v;
    assert ops[i].minted == v;
  }

  /** How a value can be live after the last operation. */
  lemma LiveAfter(ops: seq<Op>, v: Token)
    requires ops != [] && v in Run(map[], ops)
    requires ops[|ops| - 1].minted !in Run(map[], ops[..|ops| - 1])
    ensures var before, after, op := Run(map[], ops[..|ops| - 1]), Run(map[], ops), ops[|ops| - 1];
            if v != op.minted then v in before && after[v] == before[v] && Spends(before, op) != Some(v)
            else if op.Create? then op.known && after[v] == Ticket(op.workspaceId, op.now + PREVIEW_TOKEN_TTL)
            else
              && Spends(before, op) == op.entry && op.entry.Some?
              && op.entry.value in before && before[op.entry.value] == after[v]
  {
  }

  lemma LiveValueDescends(ops: seq<Op>, v: Token)
    requires ops != [] && FreshValues(ops) && Lineage(ops[..|ops| - 1])
    requires v in Run(map[], ops)
    ensures Descends(ops, v, Run(map[], ops)[v])
  {
    var n := |ops| - 1;
    FreshIsUnissued(ops);
    assert ops[n].minted !in Run(map[], ops[..n]);
    LiveAfter(ops, v);
    if v == ops[n].minted {
      assert Issued(ops, v);
    } else {
      SurvivorKeepsHistory(ops, v);
    }
  }

  lemma LiveValuesHaveDistinctRoots(ops: seq<Op>, v: Token, u: Token)
    requires ops != [] && FreshValues(ops) && Lineage(ops[..|ops| - 1])
    requires v in Run(map[], ops) && u in Run(map[], ops) && u != ops[|ops| - 1].minted
    requires Root(ops, v) == Root(ops, u)
    ensures v == u
  {
    var n := |ops| - 1;
    FreshIsUnissued(ops);
    assert ops[n].minted !in Run(map[], ops[..n]);
    LiveAfter(ops, v);
    LiveAfter(ops, u);
    SurvivorKeepsHistory(ops, u);
    if v != ops[n].minted {
      SurvivorKeepsHistory(ops, v);
    }
  }

  lemma ValueIsExchangedOnce(ops: seq<Op>, v: Token)
    requires ops != [] && FreshValues(ops) && Lineage(ops[..|ops| - 1])
    ensures Exchanges(ops, v) <= 1
    ensures Exchanges(ops, v) > 0 ==> Issued(ops, v)
  {
    var prev := ops[..|ops| - 1];
    if Exchanges(prev, v) > 0 || v in Run(map[], prev) {
      SurvivorKeepsHistory(ops, v);
    }
  }

  /** Conservation of lineage: in every reachable store each live value descends from exactly one
    * create call with that call's workspace and deadline, no two live values share a create call,
    * and no value is exchanged twice. */
  lemma {:induction false} LineageIsConserved(ops: seq<Op>)
    requires FreshValues(ops)
    ensures Lineage(ops)
    decreases |ops|
  {
    if ops == [] {
    } else {
      FreshIsUnissued(ops);
      LineageIsConserved(ops[..|ops| - 1]);
      var live := Run(map[], ops);
      forall v | v in live ensures Descends(ops, v, live[v]) {
        LiveValueDescends(ops, v);
      }
      forall v, u | v in live && u in live && Root(ops, v) == Root(ops, u) ensures v == u {
        if u != ops[|ops| - 1].minted {
          LiveValuesHaveDistinctRoots(ops, v, u);
        } else if v != ops[|ops| - 1].minted {
          LiveValuesHaveDistinctRoots(ops, u, v);
        }
      }
      forall v ensures Exchanges(ops, v) <= 1 && (Exchanges(ops, v) > 0 ==> Issued(ops, v)) {
        ValueIsExchangedOnce(ops, v);
      }
    }
  }

  /** Access is granted only for the workspace of the create call the presented value descends from,
    * and only before thirty minutes have passed since that call. */
  lemma AccessStaysWithinRoot(ops: seq<Op>, op: Op, v: Token)
    requires FreshValues(ops)
    requires GrantedBy(Run(map[], ops), op) == Some(v)
    ensures var r := Root(ops, v);
            && r.Some? && r.value < |ops|
            && var c := ops[r.value];
               c.Create? && c.known && c.workspaceId == op.workspaceId && op.now - c.now < PREVIEW_TOKEN_TTL
  {
    LineageIsConserved(ops);
  }

  /** The converse: a live value, shown as ticket or as cookie, opens exactly the workspace of its
    * create call until the deadline. */
  lemma LiveValueOpensItsWorkspace(ops: seq<Op>, v: Token, workspaceId: string, cookie: Option<Token>, minted: Token,
      now: int)
    requires FreshValues(ops) && v in Run(map[], ops)
    ensures var c := ops[LineageRoot(ops, v)];
            && (GrantedBy(Run(map[], ops), Authorize(workspaceId, None, Some(v), minted, now)) == Some(v)
                <==> workspaceId == c.workspaceId && now < c.now + PREVIEW_TOKEN_TTL)
            && (GrantedBy(Run(map[], ops), Authorize(workspaceId, Some(v), cookie, minted, now)) == Some(v)
                <==> workspaceId == c.workspaceId && now < c.now + PREVIEW_TOKEN_TTL)
  {
    LineageIsConserved(ops);
  }

  ghost function LineageRoot(ops: seq<Op>, v: Token): (i: nat)
    requires FreshValues(ops) && v in Run(map[], ops)
    ensures i < |ops| && Root(ops, v) == Some(i) && ops[i].Create?
  {
    LineageIsConserved(ops);
    Root(ops, v).value
  }

  lemma {:induction false} SpentStaysSpent(ops: seq<Op>, more: seq<Op>, v: Token)
    requires Exchanges(ops, v) > 0
    ensures Exchanges(ops + more, v) > 0
    decreases |more|
  {
    if more == [] {
      assert ops + more == ops;
    } else {
      SpentStaysSpent(ops, more[..|more| - 1], v);
      assert (ops + more)[..|ops + more| - 1] == ops + more[..|more| - 1];
    }
  }

  /** One-time use: after a value has been exchanged, nothing that happens later lets it in again,
    * neither as a ticket nor as a cookie. */
  lemma SpentValueNeverGrants(ops: seq<Op>, exchange: Op, more: seq<Op>, later: Op, v: Token)
    requires FreshValues(ops + [exchange] + more)
    requires Spends(Run(map[], ops), exchange) == Some(v)
    ensures GrantedBy(Run(map[], ops + [exchange] + more), later) != Some(v)
  {
    var done := ops + [exchange];
    assert done[..|done| - 1] == ops;
    assert Exchanges(done, v) > 0;
    SpentStaysSpent(done, more, v);
    LineageIsConserved(done + more);
  }

  // ----- Who gets in, exactly -----

  /** The operations so far were before a moment. */
  ghost predicate NoneLater(ops: seq<Op>, at: int) {
    forall i :: 0 <= i < |ops| ==> ops[i].now <= at
  }

  /** `v` was issued and not exchanged since, and its create call is of this workspace and less than thirty
    * minutes old. */
  ghost predicate Opens(ops: seq<Op>, v: Token, workspaceId: string, at: int) {
    var r := Root(ops, v);
    && Exchanges(ops, v) == 0 && r.Some? && r.value < |ops|
    && ops[r.value].workspaceId == workspaceId && at < ops[r.value].now + 1_800_000_000_000
  }

  lemma {:induction false} RootIsCreate(ops: seq<Op>, v: Token)
    ensures var r := Root(ops, v); r.Some? ==> r.value < |ops| && ops[r.value].Create? && ops[r.value].known
    ensures Root(ops, v).Some? ==> Issued(ops, v)
    decreases |ops|
  {
    if ops == [] {
    } else {
      var n := |ops| - 1;
      RootIsCreate(ops[..n], v);
      if ops[n].Authorize? && ops[n].entry.Some? {
        RootIsCreate(ops[..n], ops[n].entry.value);
      }
      if ops[n].minted == v {
        assert Issued(ops, v);
      } else if Root(ops[..n], v).Some? {
        var i :| 0 <= i < n && ops[..n][i].minted == v;
        assert ops[i].minted == v;
      }
    }
  }

  /** Issuing a ticket and showing one drop what has expired. */
  predicate Purges(op: Op) {
    if op.Create? then op.known else op.entry.Some?
  }

  /** A value other than the one issued is live behind an operation exactly if it was before, is not the one
    * exchanged, and is not dropped as expired; its workspace and deadline never change. */
  lemma SurvivesIff(tokens: Store, op: Op, v: Token)
    requires op.minted != v
    ensures v in Step(tokens, op)
       <==> v in tokens && Spends(tokens, op) != Some(v) && (Purges(op) ==> op.now < tokens[v].expiresAt)
    ensures v in Step(tokens, op) ==> Step(tokens, op)[v] == tokens[v]
  {
  }

  /** What an operation issues is live behind it. */
  lemma IssuedIsLive(tokens: Store, op: Op)
    ensures op.Create? && op.known ==> op.minted in Step(tokens, op)
    ensures Spends(tokens, op).Some? ==> op.minted in Step(tokens, op)
  {
  }

  lemma {:induction false} UnspentIsLive(ops: seq<Op>, v: Token, at: int)
    requires FreshValues(ops) && NoneLater(ops, at) && Root(ops, v).Some? && Root(ops, v).value < |ops|
    requires Exchanges(ops, v) == 0 && at < ops[Root(ops, v).value].now + PREVIEW_TOKEN_TTL
    ensures v in Run(map[], ops)
    decreases |ops|
  {
    if ops == [] {
    } else {
      var n := |ops| - 1;
      var prev, op := ops[..n], ops[n];
      var before := Run(map[], prev);
      FreshIsUnissued(ops);
      RootIsCreate(prev, v);
      IssuedIsLive(before, op);
      if !(op.minted == v && (Spends(before, op).Some? || (op.Create? && op.known))) {
        UnspentIsLive(prev, v, at);
        LineageIsConserved(prev);
        assert Descends(prev, v, before[v]);
        assert op.now <= at && Spends(before, op) != Some(v);
        hide Step, Spends, Root, Exchanges, FreshValues;
        SurvivesIff(before, op, v);
      }
    }
  }

  /** A value, shown as a cookie or as an entry ticket, opens a workspace exactly if it was issued and not
    * exchanged, and the create call it goes back to was for this workspace and is less than thirty minutes old.
    * Showing a cookie changes nothing and gives no new one. */
  lemma AccessIff(ops: seq<Op>, v: Token, workspaceId: string, cookie: Option<Token>, minted: Token, at: int)
    requires FreshValues(ops) && NoneLater(ops, at)
    ensures GrantedBy(Run(map[], ops), Authorize(workspaceId, None, Some(v), minted, at)) == Some(v)
       <==> Opens(ops, v, workspaceId, at)
    ensures GrantedBy(Run(map[], ops), Authorize(workspaceId, Some(v), cookie, minted, at)) == Some(v)
       <==> Opens(ops, v, workspaceId, at)
    ensures Authorized(Run(map[], ops), workspaceId, None, Some(v), minted, at)
         == (if Opens(ops, v, workspaceId, at) then Some(Grant(workspaceId, None)) else None, Run(map[], ops))
  {
    LineageIsConserved(ops);
    var live := Run(map[], ops);
    if Opens(ops, v, workspaceId, at) {
      UnspentIsLive(ops, v, at);
    }
    if v in live {
      assert Descends(ops, v, live[v]);
    }
  }

  lemma {:induction false} RootOfIssued(ops: seq<Op>, i: nat)
    requires FreshValues(ops) && i < |ops|
    requires (ops[i].Create? && ops[i].known) || Spends(Run(map[], ops[..i]), ops[i]).Some?
    ensures Root(ops, ops[i].minted) == if ops[i].Create? then Some(i) else Root(ops[..i], ops[i].entry.value)
    decreases |ops|
  {
    var n := |ops| - 1;
    FreshIsUnissued(ops);
    if i < n {
      assert ops[..n][i] == ops[i] && ops[..n][..i] == ops[..i];
      RootOfIssued(ops[..n], i);
    }
  }

  /** A known workspace is answered with a new ticket, and nothing but an exchange keeps that from opening the
    * workspace for thirty minutes, whatever else is asked meanwhile. */
  lemma CreatedTicketOpens(ops: seq<Op>, i: nat, cookie: Option<Token>, minted: Token, at: int)
    requires FreshValues(ops) && NoneLater(ops, at) && i < |ops| && ops[i].Create?
    ensures Created(Run(map[], ops[..i]), ops[i].known, ops[i].workspaceId, ops[i].minted, ops[i].now).0
         == if ops[i].known then Ok(ops[i].minted) else Err(WorkspaceNotFound)
    ensures var c, live := ops[i], Run(map[], ops);
            c.known && Exchanges(ops, c.minted) == 0 && at < c.now + 1_800_000_000_000 ==>
              && GrantedBy(live, Authorize(c.workspaceId, Some(c.minted), cookie, minted, at)) == Some(c.minted)
              && GrantedBy(live, Authorize(c.workspaceId, None, Some(c.minted), minted, at)) == Some(c.minted)
  {
    if ops[i].known {
      RootOfIssued(ops, i);
      AccessIff(ops, ops[i].minted, ops[i].workspaceId, cookie, minted, at);
    }
  }

  /** An exchange is answered with the new value, which as a cookie opens the same workspace as long as the
    * ticket would have, unless it is exchanged itself. */
  lemma ExchangedCookieOpens(ops: seq<Op>, i: nat, minted: Token, at: int)
    requires FreshValues(ops) && NoneLater(ops, at) && i < |ops| && Spends(Run(map[], ops[..i]), ops[i]).Some?
    ensures var r, x, live := Root(ops[..i], ops[i].entry.value), ops[i], Run(map[], ops);
            && Authorized(Run(map[], ops[..i]), x.workspaceId, x.entry, x.cookie, x.minted, x.now).0
               == Some(Grant(x.workspaceId, Some(x.minted)))
            && r.Some? && r.value < i
            && (Exchanges(ops, x.minted) == 0 && at < ops[r.value].now + 1_800_000_000_000 ==>
                  GrantedBy(live, Authorize(x.workspaceId, None, Some(x.minted), minted, at)) == Some(x.minted))
  {
    var x := ops[i];
    FreshPrefix(ops, i);
    AccessStaysWithinRoot(ops[..i], x, x.entry.value);
    RootOfIssued(ops, i);
    AccessIff(ops, x.minted, x.workspaceId, None, minted, at);
  }

  lemma FreshPrefix(ops: seq<Op>, i: nat)
    requires FreshValues(ops) && i <= |ops|
    ensures FreshValues(ops[..i])
  {
  }
}
