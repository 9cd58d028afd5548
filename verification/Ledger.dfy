/**
 The grant bookkeeping of the OAuth fixture as an event ledger.

 Every locked region of the server that changes (or reads, for an answer) the credential maps is one event.
 `Enabled` says what must hold for the event to happen and `Effect` what it changes; the handlers are proved
 to do nothing else (module `Schedule`), so that the theorems about whole runs become theorems about valid logs.
 A reset is an event too: an epoch is a stretch of log without one.
 */
module Ledger {
  import opened Names
  import opened Pkce

  datatype Client = Client(redirectURIs: seq<string>)

  datatype Code = Code(clientID: string, redirectURI: string, challenge: string, resource: string, scope: string)

  datatype Grant = Grant(clientID: string, resource: string, scope: string)

  function GrantOf(code: Code): Grant {
    Grant(code.clientID, code.resource, code.scope)
  }

  /** The credential part of the server's state: everything but the request evidence. */
  datatype Grants = Grants(
    sequence: nat,
    clients: map<string, Client>,
    registrationTokens: map<string, string>,
    codes: map<string, Code>,
    access: map<string, Grant>,
    refresh: map<string, Grant>,
    usedCodes: set<string>,
    usedRefresh: set<string>)

  const EMPTY := Grants(0, map[], map[], map[], map[], map[], {}, {})

  datatype Event =
    | Reset
    | Registered(client: string, token: string, info: Client)
    | Updated(client: string, oldToken: string, token: string, info: Client)
    | Deleted(client: string, oldToken: string)
    | Seen(client: string, info: Client)
    | Minted(code: string, record: Code)
    | Redeemed(code: string, record: Code, verifier: string, access: string, refresh: string)
    | Rotated(oldRefresh: string, grant: Grant, access: string, refresh: string)
    | Admitted(access: string, grant: Grant)

  type Log = seq<Event>

  function Effect(g: Grants, e: Event): Grants {
    match e
    case Reset => EMPTY
    case Registered(client, token, info) =>
      g.(sequence := g.sequence + 1, clients := g.clients[client := info],
         registrationTokens := g.registrationTokens[client := token])
    case Updated(client, _, token, info) =>
      g.(sequence := g.sequence + 1, clients := g.clients[client := info],
         registrationTokens := g.registrationTokens[client := token])
    case Deleted(client, _) =>
      g.(clients := g.clients - {client}, registrationTokens := g.registrationTokens - {client})
    case Seen(_, _) => g
    case Minted(code, record) => g.(sequence := g.sequence + 1, codes := g.codes[code := record])
    case Redeemed(code, record, _, access, refresh) =>
      Issue(SpendCode(g, code), GrantOf(record), access, refresh)
    case Rotated(oldRefresh, grant, access, refresh) =>
      Issue(SpendRefresh(g, oldRefresh), grant, access, refresh)
    case Admitted(_, _) => g
  }

  function Issue(g: Grants, grant: Grant, access: string, refresh: string): Grants {
    g.(sequence := g.sequence + 2, access := g.access[access := grant], refresh := g.refresh[refresh := grant])
  }

  function SpendCode(g: Grants, code: string): Grants {
    g.(codes := g.codes - {code}, usedCodes := g.usedCodes + {code})
  }

  function SpendRefresh(g: Grants, refresh: string): Grants {
    g.(refresh := g.refresh - {refresh}, usedRefresh := g.usedRefresh + {refresh})
  }

  /** The state that a log leads to, from the empty server. */
  function Replay(log: Log): Grants {
    if log == [] then EMPTY else Effect(Replay(log[..|log| - 1]), log[|log| - 1])
  }

  ghost predicate RegistrationSeen(log: Log, record: Code) {
    exists j :: 0 <= j < |log| && log[j].Seen? && log[j].client == record.clientID
                && record.redirectURI in log[j].info.redirectURIs
  }

  predicate Holds<V(==)>(m: map<string, V>, k: string, v: V) {
    k in m && m[k] == v
  }

  /** What the server demands before the event can happen, given everything that happened before. */
  ghost predicate Enabled(sha256: string -> Digest, log: Log, e: Event) {
    var g := Replay(log);
    match e
    case Reset => true
    case Registered(client, token, _) =>
      client == Name(ClientKind, g.sequence + 1) && token == Name(RegistrationKind, g.sequence + 1)
    case Updated(client, oldToken, token, _) =>
      Holds(g.registrationTokens, client, oldToken) && token == Name(RegistrationKind, g.sequence + 1)
    case Deleted(client, oldToken) => Holds(g.registrationTokens, client, oldToken)
    case Seen(client, info) => Holds(g.clients, client, info)
    case Minted(code, record) =>
      code == Name(CodeKind, g.sequence + 1) && record.scope == "mcp" && IsPkceValue(record.challenge)
      && RegistrationSeen(log, record)
    case Redeemed(code, record, verifier, access, refresh) =>
      Holds(g.codes, code, record) && IsPkceValue(verifier) && Challenge(sha256, verifier) == record.challenge
      && access == Name(AccessKind, g.sequence + 1) && refresh == Name(RefreshKind, g.sequence + 2)
    case Rotated(oldRefresh, grant, access, refresh) =>
      Holds(g.refresh, oldRefresh, grant)
      && access == Name(AccessKind, g.sequence + 1) && refresh == Name(RefreshKind, g.sequence + 2)
    case Admitted(access, grant) => Holds(g.access, access, grant)
  }

  ghost predicate ValidLog(sha256: string -> Digest, log: Log) {
    log == [] || (ValidLog(sha256, log[..|log| - 1]) && Enabled(sha256, log[..|log| - 1], log[|log| - 1]))
  }

  lemma AppendReplays(sha256: string -> Digest, log: Log, e: Event)
    ensures Replay(log + [e]) == Effect(Replay(log), e)
    ensures ValidLog(sha256, log + [e]) <==> ValidLog(sha256, log) && Enabled(sha256, log, e)
  {
    assert (log + [e])[..|log|] == log;
  }

  lemma {:induction false} PrefixValid(sha256: string -> Digest, log: Log, i: nat)
    requires ValidLog(sha256, log) && i <= |log|
    ensures ValidLog(sha256, log[..i])
    ensures i < |log| ==> Enabled(sha256, log[..i], log[i]) && Replay(log[..i + 1]) == Effect(Replay(log[..i]), log[i])
    decreases |log|
  {
    if i == |log| {
      assert log[..i] == log;
    } else {
      var init := log[..|log| - 1];
      if i == |log| - 1 {
        assert log[..i + 1] == log;
      } else {
        PrefixValid(sha256, init, i);
        assert init[..i] == log[..i] && init[..i + 1] == log[..i + 1];
      }
    }
  }

  // ---- The state invariant ------------------------------------------------------

  /** `s` is a credential of the given kind minted before the counter passed `n`. */
  ghost predicate Named(s: string, kind: Kind, n: nat) {
    exists i: nat :: 1 <= i <= n && s == Name(kind, i)
  }

  ghost predicate NamedWithin(keys: set<string>, kind: Kind, n: nat) {
    forall k :: k in keys ==> Named(k, kind, n)
  }

  ghost predicate DistinctTokens(m: map<string, string>) {
    forall a, b :: a in m && b in m && m[a] == m[b] ==> a == b
  }

  /** The names in use are within the counter, live and used credentials are apart, registrations are consistent. */
  ghost predicate NamesInv(g: Grants) {
    && g.clients.Keys == g.registrationTokens.Keys
    && DistinctTokens(g.registrationTokens)
    && NamedWithin(g.clients.Keys, ClientKind, g.sequence)
    && NamedWithin(g.registrationTokens.Values, RegistrationKind, g.sequence)
    && NamedWithin(g.codes.Keys, CodeKind, g.sequence) && NamedWithin(g.usedCodes, CodeKind, g.sequence)
    && NamedWithin(g.access.Keys, AccessKind, g.sequence)
    && NamedWithin(g.refresh.Keys, RefreshKind, g.sequence) && NamedWithin(g.usedRefresh, RefreshKind, g.sequence)
    && g.codes.Keys !! g.usedCodes
    && g.refresh.Keys !! g.usedRefresh
  }

  /** One live refresh token per used code; one access token per successful exchange of either kind. */
  predicate CountsInv(g: Grants) {
    && |g.refresh| == |g.usedCodes|
    && |g.access| == |g.usedCodes| + |g.usedRefresh|
  }

  /** Holds in every reachable state. */
  ghost predicate Inv(g: Grants) {
    NamesInv(g) && CountsInv(g)
  }

  lemma FreshName(keys: set<string>, kind: Kind, n: nat, m: nat)
    requires NamedWithin(keys, kind, n) && m > n
    ensures Name(kind, m) !in keys
  {
    if Name(kind, m) in keys {
      assert Named(Name(kind, m), kind, n);
      var i: nat :| 1 <= i <= n && Name(kind, m) == Name(kind, i);
      NameInjective(kind, m, kind, i);
    }
  }

  lemma NamedGrows(n: nat, m: nat)
    requires n <= m
    ensures forall s, kind :: Named(s, kind, n) ==> Named(s, kind, m)
  {}

  lemma NewName(kind: Kind, n: nat, m: nat)
    requires 1 <= n <= m
    ensures Named(Name(kind, n), kind, m)
  {}

  lemma FreshNames(g: Grants)
    requires NamesInv(g)
    ensures Name(ClientKind, g.sequence + 1) !in g.clients
    ensures Name(RegistrationKind, g.sequence + 1) !in g.registrationTokens.Values
    ensures Name(CodeKind, g.sequence + 1) !in g.codes && Name(CodeKind, g.sequence + 1) !in g.usedCodes
    ensures Name(AccessKind, g.sequence + 1) !in g.access
    ensures Name(RefreshKind, g.sequence + 2) !in g.refresh && Name(RefreshKind, g.sequence + 2) !in g.usedRefresh
  {
    FreshName(g.clients.Keys, ClientKind, g.sequence, g.sequence + 1);
    FreshName(g.registrationTokens.Values, RegistrationKind, g.sequence, g.sequence + 1);
    FreshName(g.codes.Keys, CodeKind, g.sequence, g.sequence + 1);
    FreshName(g.usedCodes, CodeKind, g.sequence, g.sequence + 1);
    FreshName(g.access.Keys, AccessKind, g.sequence, g.sequence + 1);
    FreshName(g.refresh.Keys, RefreshKind, g.sequence, g.sequence + 2);
    FreshName(g.usedRefresh, RefreshKind, g.sequence, g.sequence + 2);
  }

  lemma SetClientKeepsInv(g: Grants, client: string, token: string, info: Client)
    requires Inv(g) && token == Name(RegistrationKind, g.sequence + 1)
    requires client in g.clients || client == Name(ClientKind, g.sequence + 1)
    ensures Inv(Effect(g, Registered(client, token, info)))
  {
    hide Name, Named, DistinctTokens;
    FreshNames(g);
    NamedGrows(g.sequence, g.sequence + 1);
    NewName(ClientKind, g.sequence + 1, g.sequence + 1);
    NewName(RegistrationKind, g.sequence + 1, g.sequence + 1);
    FreshTokenIsDistinct(g.registrationTokens, client, token);
  }

  lemma FreshTokenIsDistinct(m: map<string, string>, client: string, token: string)
    requires DistinctTokens(m) && token !in m.Values
    ensures DistinctTokens(m[client := token])
    ensures m[client := token].Values <= m.Values + {token}
  {
    var n := m[client := token];
    forall a, b | a in n && b in n && n[a] == n[b] ensures a == b {
      assert a != client ==> n[a] in m.Values;
      assert b != client ==> n[b] in m.Values;
    }
  }

  lemma DeleteKeepsInv(g: Grants, client: string, token: string)
    requires Inv(g)
    ensures Inv(Effect(g, Deleted(client, token)))
  {
    hide Name, Named, DistinctTokens;
    FewerTokensAreDistinct(g.registrationTokens, client);
    assert (g.clients - {client}).Keys == (g.registrationTokens - {client}).Keys;
  }

  lemma FewerTokensAreDistinct(m: map<string, string>, client: string)
    requires DistinctTokens(m)
    ensures DistinctTokens(m - {client}) && (m - {client}).Values <= m.Values
  {
    var n := m - {client};
    assert forall k :: k in n ==> k in m && n[k] == m[k];
  }

  lemma MintKeepsInv(g: Grants, code: string, record: Code)
    requires Inv(g) && code == Name(CodeKind, g.sequence + 1)
    ensures Inv(Effect(g, Minted(code, record)))
  {
    hide Name, Named;
    FreshNames(g);
    NamedGrows(g.sequence, g.sequence + 1);
    NewName(CodeKind, g.sequence + 1, g.sequence + 1);
  }

  lemma IssueKeepsNames(g: Grants, grant: Grant, access: string, refresh: string)
    requires NamesInv(g)
    requires access == Name(AccessKind, g.sequence + 1) && refresh == Name(RefreshKind, g.sequence + 2)
    ensures NamesInv(Issue(g, grant, access, refresh))
    ensures var h := Issue(g, grant, access, refresh);
            |h.access| == |g.access| + 1 && |h.refresh| == |g.refresh| + 1
            && h.usedCodes == g.usedCodes && h.usedRefresh == g.usedRefresh
  {
    hide Name, Named;
    FreshNames(g);
    NamedGrows(g.sequence, g.sequence + 2);
    NewName(AccessKind, g.sequence + 1, g.sequence + 2);
    NewName(RefreshKind, g.sequence + 2, g.sequence + 2);
  }

  lemma SpendCodeKeepsNames(g: Grants, code: string)
    requires NamesInv(g) && code in g.codes
    ensures NamesInv(SpendCode(g, code))
    ensures |SpendCode(g, code).usedCodes| == |g.usedCodes| + 1
    ensures var h := SpendCode(g, code);
            h.access == g.access && h.refresh == g.refresh && h.usedRefresh == g.usedRefresh && h.sequence == g.sequence
  {
    hide Name, Named;
  }

  lemma SpendRefreshKeepsNames(g: Grants, refresh: string)
    requires NamesInv(g) && refresh in g.refresh
    ensures NamesInv(SpendRefresh(g, refresh))
    ensures |SpendRefresh(g, refresh).refresh| == |g.refresh| - 1
    ensures |SpendRefresh(g, refresh).usedRefresh| == |g.usedRefresh| + 1
    ensures var h := SpendRefresh(g, refresh);
            h.access == g.access && h.usedCodes == g.usedCodes && h.sequence == g.sequence
  {
    hide Name, Named;
    assert SpendRefresh(g, refresh).refresh.Keys == g.refresh.Keys - {refresh};
  }

  lemma RedeemKeepsInv(g: Grants, e: Event)
    requires Inv(g) && e.Redeemed? && e.code in g.codes
    requires e.access == Name(AccessKind, g.sequence + 1) && e.refresh == Name(RefreshKind, g.sequence + 2)
    ensures Inv(Effect(g, e))
  {
    hide Name, Named, NamesInv;
    var s := SpendCode(g, e.code);
    SpendCodeKeepsNames(g, e.code);
    IssueKeepsNames(s, GrantOf(e.record), e.access, e.refresh);
    var h := Issue(s, GrantOf(e.record), e.access, e.refresh);
    assert Effect(g, e) == h;
    assert NamesInv(h);
  }

  lemma RotateKeepsInv(g: Grants, e: Event)
    requires Inv(g) && e.Rotated? && e.oldRefresh in g.refresh
    requires e.access == Name(AccessKind, g.sequence + 1) && e.refresh == Name(RefreshKind, g.sequence + 2)
    ensures Inv(Effect(g, e))
  {
    hide Name, Named, NamesInv;
    var s := SpendRefresh(g, e.oldRefresh);
    SpendRefreshKeepsNames(g, e.oldRefresh);
    IssueKeepsNames(s, e.grant, e.access, e.refresh);
    var h := Issue(s, e.grant, e.access, e.refresh);
    assert Effect(g, e) == h;
    assert NamesInv(h);
    assert |h.access| == |g.access| + 1;
    assert |h.refresh| == |g.refresh|;
  }

  /** Every enabled event keeps the invariant. */
  lemma EventKeepsInv(sha256: string -> Digest, log: Log, e: Event)
    requires Inv(Replay(log)) && Enabled(sha256, log, e)
    ensures Inv(Effect(Replay(log), e))
  {
    var g := Replay(log);
    match e
    case Reset =>
    case Seen(_, _) =>
    case Admitted(_, _) =>
    case Registered(client, token, info) => SetClientKeepsInv(g, client, token, info);
    case Updated(client, _, token, info) => SetClientKeepsInv(g, client, token, info);
    case Deleted(client, token) => DeleteKeepsInv(g, client, token);
    case Minted(code, record) => MintKeepsInv(g, code, record);
    case Redeemed(_, _, _, _, _) => RedeemKeepsInv(g, e);
    case Rotated(_, _, _, _) => RotateKeepsInv(g, e);
  }

  /** The invariant holds after every valid log, that is, in every reachable state. */
  lemma {:induction false} LogKeepsInv(sha256: string -> Digest, log: Log)
    requires ValidLog(sha256, log)
    ensures Inv(Replay(log))
  {
    if log != [] {
      LogKeepsInv(sha256, log[..|log| - 1]);
      EventKeepsInv(sha256, log[..|log| - 1], log[|log| - 1]);
    }
  }
}
