/** What never happens twice within one reset epoch, for every valid log. */
module History {
  import opened Options
  import opened Names
  import opened Pkce
  import opened Ledger

  /** No reset between positions `i` and `j`. */
  predicate Quiet(log: Log, i: nat, j: nat)
    requires i <= j <= |log|
  {
    forall k :: i <= k < j ==> !log[k].Reset?
  }

  /** A management token that was issued and is no longer anybody's. */
  ghost predicate RetiredToken(g: Grants, token: string) {
    Named(token, RegistrationKind, g.sequence) && token !in g.registrationTokens.Values
  }

  /** A client that was registered and has been deleted. */
  ghost predicate RetiredClient(g: Grants, client: string) {
    Named(client, ClientKind, g.sequence) && client !in g.clients
  }

  /** What cannot be taken back without a reset. */
  ghost predicate Grows(g: Grants, h: Grants) {
    && g.sequence <= h.sequence
    && g.usedCodes <= h.usedCodes
    && g.usedRefresh <= h.usedRefresh
    && (forall a :: a in g.access ==> Holds(h.access, a, g.access[a]))
    && (forall c :: c in g.codes ==> Holds(h.codes, c, g.codes[c]) || c in h.usedCodes)
    && (forall r :: r in g.refresh ==> Holds(h.refresh, r, g.refresh[r]) || r in h.usedRefresh)
    && (forall t :: RetiredToken(g, t) ==> RetiredToken(h, t))
    && (forall c :: RetiredClient(g, c) ==> RetiredClient(h, c))
  }

  lemma RetiredAfterSet(g: Grants, h: Grants)
    requires h.sequence == g.sequence + 1
    requires h.registrationTokens.Values <= g.registrationTokens.Values + {Name(RegistrationKind, g.sequence + 1)}
    requires h.clients.Keys <= g.clients.Keys + {Name(ClientKind, g.sequence + 1)}
    ensures forall t :: RetiredToken(g, t) ==> RetiredToken(h, t)
    ensures forall c :: RetiredClient(g, c) ==> RetiredClient(h, c)
  {
    hide Name, Named;
    NamedGrows(g.sequence, h.sequence);
    forall t | RetiredToken(g, t) ensures RetiredToken(h, t) {
      NotNamed(RegistrationKind, g.sequence, t);
    }
    forall c | RetiredClient(g, c) ensures RetiredClient(h, c) {
      NotNamed(ClientKind, g.sequence, c);
    }
  }

  lemma SetClientGrows(g: Grants, client: string, token: string, info: Client)
    requires token == Name(RegistrationKind, g.sequence + 1)
    requires client in g.clients || client == Name(ClientKind, g.sequence + 1)
    ensures Grows(g, Effect(g, Registered(client, token, info)))
  {
    hide Name, Named, RetiredToken, RetiredClient;
    RetiredAfterSet(g, Effect(g, Registered(client, token, info)));
  }

  lemma NotNamed(kind: Kind, n: nat, s: string)
    requires Named(s, kind, n)
    ensures s != Name(kind, n + 1) && s != Name(kind, n + 2)
  {
    FreshName({s}, kind, n, n + 1);
    FreshName({s}, kind, n, n + 2);
  }

  lemma RetiredStays(g: Grants, h: Grants)
    requires g.sequence <= h.sequence
    requires h.clients.Keys <= g.clients.Keys && h.registrationTokens.Values <= g.registrationTokens.Values
    ensures forall t :: RetiredToken(g, t) ==> RetiredToken(h, t)
    ensures forall c :: RetiredClient(g, c) ==> RetiredClient(h, c)
  {
    hide Name, Named;
    NamedGrows(g.sequence, h.sequence);
  }

  lemma IssueGrows(g: Grants, h: Grants, grant: Grant, access: string, refresh: string)
    requires Inv(g)
    requires access == Name(AccessKind, g.sequence + 1) && refresh == Name(RefreshKind, g.sequence + 2)
    requires h.sequence == g.sequence && h.access == g.access && h.refresh.Keys <= g.refresh.Keys
    ensures var k := Issue(h, grant, access, refresh);
            && (forall a :: a in g.access ==> Holds(k.access, a, g.access[a]))
            && (forall r :: r in h.refresh ==> Holds(k.refresh, r, h.refresh[r]))
  {
    hide Name, Named;
    FreshNames(g);
  }

  lemma DeleteGrows(g: Grants, client: string, token: string)
    ensures Grows(g, Effect(g, Deleted(client, token)))
  {
    hide RetiredToken, RetiredClient;
    var h := Effect(g, Deleted(client, token));
    assert forall k :: k in h.registrationTokens ==> h.registrationTokens[k] == g.registrationTokens[k];
    assert h.registrationTokens.Values <= g.registrationTokens.Values;
    RetiredStays(g, h);
  }

  lemma MintGrows(g: Grants, code: string, record: Code)
    requires Inv(g) && code == Name(CodeKind, g.sequence + 1)
    ensures Grows(g, Effect(g, Minted(code, record)))
  {
    hide Name, Named, RetiredToken, RetiredClient;
    FreshNames(g);
    RetiredStays(g, Effect(g, Minted(code, record)));
  }

  lemma RedeemGrows(g: Grants, e: Event)
    requires Inv(g) && e.Redeemed? && e.code in g.codes
    requires e.access == Name(AccessKind, g.sequence + 1) && e.refresh == Name(RefreshKind, g.sequence + 2)
    ensures Grows(g, Effect(g, e))
  {
    hide Name, Named, Inv, RetiredToken, RetiredClient;
    var spent, h := SpendCode(g, e.code), Effect(g, e);
    IssueGrows(g, spent, GrantOf(e.record), e.access, e.refresh);
    assert h == Issue(spent, GrantOf(e.record), e.access, e.refresh);
    forall c | c in g.codes ensures Holds(h.codes, c, g.codes[c]) || c in h.usedCodes {
      assert c != e.code ==> Holds(spent.codes, c, g.codes[c]);
    }
    RetiredStays(g, h);
  }

  lemma RotateGrows(g: Grants, e: Event)
    requires Inv(g) && e.Rotated? && e.oldRefresh in g.refresh
    requires e.access == Name(AccessKind, g.sequence + 1) && e.refresh == Name(RefreshKind, g.sequence + 2)
    ensures Grows(g, Effect(g, e))
  {
    hide Name, Named, Inv, RetiredToken, RetiredClient;
    var spent, h := SpendRefresh(g, e.oldRefresh), Effect(g, e);
    IssueGrows(g, spent, e.grant, e.access, e.refresh);
    assert h == Issue(spent, e.grant, e.access, e.refresh);
    forall r | r in g.refresh ensures Holds(h.refresh, r, g.refresh[r]) || r in h.usedRefresh {
      assert r != e.oldRefresh ==> Holds(spent.refresh, r, g.refresh[r]);
    }
    RetiredStays(g, h);
  }

  lemma EventGrows(sha256: string -> Digest, log: Log, e: Event)
    requires Inv(Replay(log)) && Enabled(sha256, log, e) && !e.Reset?
    ensures Grows(Replay(log), Effect(Replay(log), e))
  {
    hide Name, Grows, Inv;
    var g := Replay(log);
    match e
    case Registered(client, token, info) => SetClientGrows(g, client, token, info);
    case Updated(client, _, token, info) =>
      ClientOfToken(g, client);
      SetClientGrows(g, client, token, info);
    case Deleted(client, token) => DeleteGrows(g, client, token);
    case Seen(_, _) => GrowsReflexive(g);
    case Admitted(_, _) => GrowsReflexive(g);
    case Minted(code, record) => MintGrows(g, code, record);
    case Redeemed(_, _, _, _, _) => RedeemGrows(g, e);
    case Rotated(_, _, _, _) => RotateGrows(g, e);
  }

  lemma ClientOfToken(g: Grants, client: string)
    requires Inv(g) && client in g.registrationTokens
    ensures client in g.clients
  {}

  lemma GrowsTransitive(a: Grants, b: Grants, c: Grants)
    requires Grows(a, b) && Grows(b, c)
    ensures Grows(a, c)
  {
    hide RetiredToken, RetiredClient;
  }

  lemma GrowsReflexive(g: Grants)
    ensures Grows(g, g)
  {}

  lemma {:induction false} QuietGrows(sha256: string -> Digest, log: Log, i: nat, j: nat)
    requires ValidLog(sha256, log) && i <= j <= |log| && Quiet(log, i, j)
    ensures Grows(Replay(log[..i]), Replay(log[..j]))
    decreases j
  {
    if i == j {
      GrowsReflexive(Replay(log[..i]));
    } else {
      QuietGrows(sha256, log, i, j - 1);
      PrefixValid(sha256, log, j - 1);
      LogKeepsInv(sha256, log[..j - 1]);
      EventGrows(sha256, log[..j - 1], log[j - 1]);
      GrowsTransitive(Replay(log[..i]), Replay(log[..j - 1]), Replay(log[..j]));
    }
  }

  /** The states before and after event `i`, before event `j`, and how the epoch connects them. */
  lemma Between(sha256: string -> Digest, log: Log, i: nat, j: nat)
    requires ValidLog(sha256, log) && i < j < |log| && Quiet(log, i, j)
    ensures Inv(Replay(log[..i])) && Enabled(sha256, log[..i], log[i])
    ensures Inv(Replay(log[..j])) && Enabled(sha256, log[..j], log[j])
    ensures Grows(Effect(Replay(log[..i]), log[i]), Replay(log[..j]))
    ensures Inv(Effect(Replay(log[..i]), log[i]))
  {
    PrefixValid(sha256, log, i);
    PrefixValid(sha256, log, i + 1);
    PrefixValid(sha256, log, j);
    LogKeepsInv(sha256, log[..i]);
    LogKeepsInv(sha256, log[..i + 1]);
    LogKeepsInv(sha256, log[..j]);
    QuietGrows(sha256, log, i + 1, j);
  }

  // ---- One use ------------------------------------------------------------------

  lemma SpentStaysSpent(sha256: string -> Digest, log: Log, i: nat, j: nat)
    requires ValidLog(sha256, log) && i < j < |log| && Quiet(log, i, j)
    ensures log[i].Redeemed? ==> log[i].code !in Replay(log[..j]).codes
    ensures log[i].Rotated? ==> log[i].oldRefresh !in Replay(log[..j]).refresh
  {
    hide Name, Named, Enabled;
    Between(sha256, log, i, j);
    var g := Effect(Replay(log[..i]), log[i]);
    assert log[i].Redeemed? ==> log[i].code in g.usedCodes;
    assert log[i].Rotated? ==> log[i].oldRefresh in g.usedRefresh;
  }

  /** A code is redeemed at most once: two redemptions have a reset between them. */
  lemma CodeRedeemedOnce(sha256: string -> Digest, log: Log, i: nat, j: nat)
    requires ValidLog(sha256, log) && i < j < |log|
    requires log[i].Redeemed? && log[j].Redeemed? && log[i].code == log[j].code
    ensures exists k :: i < k < j && log[k].Reset?
  {
    hide Name, Effect, Replay, ValidLog;
    PrefixValid(sha256, log, j);
    if Quiet(log, i, j) {
      SpentStaysSpent(sha256, log, i, j);
      assert false;
    }
  }

  /** A refresh token is rotated at most once: two rotations have a reset between them. */
  lemma RefreshRotatedOnce(sha256: string -> Digest, log: Log, i: nat, j: nat)
    requires ValidLog(sha256, log) && i < j < |log|
    requires log[i].Rotated? && log[j].Rotated? && log[i].oldRefresh == log[j].oldRefresh
    ensures exists k :: i < k < j && log[k].Reset?
  {
    hide Name, Effect, Replay, ValidLog;
    PrefixValid(sha256, log, j);
    if Quiet(log, i, j) {
      SpentStaysSpent(sha256, log, i, j);
      assert false;
    }
  }

  lemma TokenRetired(g: Grants, e: Event)
    requires Inv(g) && (e.Updated? || e.Deleted?) && Holds(g.registrationTokens, e.client, e.oldToken)
    requires e.Updated? ==> e.token == Name(RegistrationKind, g.sequence + 1)
    ensures RetiredToken(Effect(g, e), e.oldToken)
  {
    hide Name, Named;
    var h := Effect(g, e);
    assert e.oldToken in g.registrationTokens.Values;
    NotNamed(RegistrationKind, g.sequence, e.oldToken);
    NamedGrows(g.sequence, h.sequence);
    forall c | c in h.registrationTokens ensures h.registrationTokens[c] != e.oldToken {
      if c != e.client {
        assert h.registrationTokens[c] == g.registrationTokens[c];
      }
    }
  }

  lemma TokenStaysRetired(sha256: string -> Digest, log: Log, i: nat, j: nat)
    requires ValidLog(sha256, log) && i < j < |log| && Quiet(log, i, j)
    requires log[i].Updated? || log[i].Deleted?
    ensures log[i].oldToken !in Replay(log[..j]).registrationTokens.Values
  {
    Between(sha256, log, i, j);
    hide Name, Named;
    TokenRetired(Replay(log[..i]), log[i]);
    assert RetiredToken(Replay(log[..j]), log[i].oldToken);
  }

  lemma PresentsCurrentToken(sha256: string -> Digest, log: Log, e: Event)
    requires Enabled(sha256, log, e) && (e.Updated? || e.Deleted?)
    ensures e.oldToken in Replay(log).registrationTokens.Values
  {
    hide Name, Replay, Challenge;
    var m := Replay(log).registrationTokens;
    assert m[e.client] in m.Values;
  }

  /** Of all updates and deletions that present the same management token, at most one takes place in an epoch. */
  lemma TokenSpentOnce(sha256: string -> Digest, log: Log, i: nat, j: nat)
    requires ValidLog(sha256, log) && i < j < |log|
    requires (log[i].Updated? || log[i].Deleted?) && (log[j].Updated? || log[j].Deleted?)
    requires log[i].oldToken == log[j].oldToken
    ensures exists k :: i < k < j && log[k].Reset?
  {
    hide Enabled, Replay, ValidLog, Effect;
    PrefixValid(sha256, log, j);
    PresentsCurrentToken(sha256, log[..j], log[j]);
    if Quiet(log, i, j) {
      TokenStaysRetired(sha256, log, i, j);
      assert false;
    }
  }

  lemma ClientStaysRetired(sha256: string -> Digest, log: Log, i: nat, j: nat)
    requires ValidLog(sha256, log) && i < j < |log| && Quiet(log, i, j) && log[i].Deleted?
    ensures RetiredClient(Replay(log[..j]), log[i].client) && Inv(Replay(log[..j]))
  {
    Between(sha256, log, i, j);
    hide Name, Named;
    assert RetiredClient(Effect(Replay(log[..i]), log[i]), log[i].client);
  }

  /** Whatever concerns a client concerns one of this epoch: a registered one, or the next one to register. */
  lemma ConcernsNamedClient(sha256: string -> Digest, log: Log, e: Event)
    requires Enabled(sha256, log, e) && Inv(Replay(log))
    requires e.Registered? || e.Updated? || e.Deleted? || e.Seen?
    ensures e.client in Replay(log).clients || e.client == Name(ClientKind, Replay(log).sequence + 1)
  {
    hide Name, Named, Replay, Challenge;
  }

  /** A deleted client never comes back within the epoch, whatever tokens are still in flight. */
  lemma DeletedStaysDeleted(sha256: string -> Digest, log: Log, i: nat, j: nat)
    requires ValidLog(sha256, log) && i < j < |log| && log[i].Deleted?
    requires log[j].Registered? || log[j].Updated? || log[j].Deleted? || log[j].Seen?
    requires log[j].client == log[i].client
    ensures exists k :: i < k < j && log[k].Reset?
  {
    hide Enabled, Inv, Named, Replay, Effect, ValidLog;
    PrefixValid(sha256, log, j);
    if Quiet(log, i, j) {
      ClientStaysRetired(sha256, log, i, j);
      ConcernsNamedClient(sha256, log[..j], log[j]);
      NotNamed(ClientKind, Replay(log[..j]).sequence, log[i].client);
      assert false;
    }
  }

  lemma StepKeepsClient(sha256: string -> Digest, log: Log, e: Event, client: string)
    requires Enabled(sha256, log, e) && !e.Reset? && client in Replay(log).clients
    ensures client in Effect(Replay(log), e).clients <==> !(e.Deleted? && e.client == client)
  {
    hide Name, Replay, Challenge, RegistrationSeen;
  }

  /**
   Between the lookup of `authorize` and its minting the client may go away: it is still registered exactly when no
   deletion of it came in between.
   */
  lemma {:induction false} SeenClientStays(sha256: string -> Digest, log: Log, i: nat, j: nat)
    requires ValidLog(sha256, log) && i < j < |log| && Quiet(log, i, j) && log[i].Seen?
    ensures log[i].client in Replay(log[..j]).clients <==>
            forall k :: i < k < j ==> !(log[k].Deleted? && log[k].client == log[i].client)
    decreases j
  {
    hide Enabled, Inv, Named, Replay, Effect, ValidLog;
    if i + 1 == j {
      PrefixValid(sha256, log, i);
      SeenIsRegistered(sha256, log[..i], log[i]);
    } else {
      SeenClientStays(sha256, log, i, j - 1);
      PrefixValid(sha256, log, j - 1);
      if log[i].client in Replay(log[..j - 1]).clients {
        StepKeepsClient(sha256, log[..j - 1], log[j - 1], log[i].client);
      } else {
        var k :| i < k < j - 1 && log[k].Deleted? && log[k].client == log[i].client;
        ClientStaysRetired(sha256, log, k, j);
        RetiredIsGone(Replay(log[..j]), log[k].client);
      }
    }
  }

  lemma SeenIsRegistered(sha256: string -> Digest, log: Log, e: Event)
    requires Enabled(sha256, log, e) && e.Seen?
    ensures e.client in Effect(Replay(log), e).clients
  {}

  lemma RetiredIsGone(g: Grants, client: string)
    requires RetiredClient(g, client)
    ensures client !in g.clients
  {}

  /** The credentials an event hands out. */
  function Issued(e: Event): set<string> {
    match e
    case Registered(client, token, _) => {client, token}
    case Updated(_, _, token, _) => {token}
    case Minted(code, _) => {code}
    case Redeemed(_, _, _, access, refresh) => {access, refresh}
    case Rotated(_, _, access, refresh) => {access, refresh}
    case _ => {}
  }

  lemma IssuedRange(sha256: string -> Digest, log: Log, e: Event, s: string)
    requires Enabled(sha256, log, e) && s in Issued(e)
    ensures exists kind, n: nat :: Replay(log).sequence < n <= Effect(Replay(log), e).sequence && s == Name(kind, n)
  {
    var n := Replay(log).sequence;
    var kind := match e
      case Registered(client, _, _) => if s == client then ClientKind else RegistrationKind
      case Updated(_, _, _, _) => RegistrationKind
      case Minted(_, _) => CodeKind
      case Redeemed(_, _, _, access, _) => if s == access then AccessKind else RefreshKind
      case Rotated(_, _, access, _) => if s == access then AccessKind else RefreshKind
      case _ => CodeKind;
    hide Name;
    assert s == Name(kind, n + 1) || ((e.Redeemed? || e.Rotated?) && s == Name(kind, n + 2));
  }

  lemma IssuedInOneEvent(sha256: string -> Digest, log: Log, e: Event)
    requires Enabled(sha256, log, e)
    ensures e.Registered? ==> e.client != e.token
    ensures e.Redeemed? || e.Rotated? ==> e.access != e.refresh
  {
    var n := Replay(log).sequence;
    KindsDiffer(ClientKind, n + 1, RegistrationKind, n + 1);
    KindsDiffer(AccessKind, n + 1, RefreshKind, n + 2);
  }

  /** All credentials handed out in one epoch are different strings, of whatever kind they are. */
  lemma CredentialsDistinct(sha256: string -> Digest, log: Log, i: nat, j: nat)
    requires ValidLog(sha256, log) && i < j < |log| && Quiet(log, i, j)
    ensures Issued(log[i]) !! Issued(log[j])
    ensures log[i].Registered? ==> log[i].client != log[i].token
    ensures log[i].Redeemed? || log[i].Rotated? ==> log[i].access != log[i].refresh
  {
    hide Name, Named, Enabled, Issued;
    Between(sha256, log, i, j);
    IssuedInOneEvent(sha256, log[..i], log[i]);
    var g, h := Replay(log[..i]), Replay(log[..j]);
    if s :| s in Issued(log[i]) && s in Issued(log[j]) {
      IssuedRange(sha256, log[..i], log[i], s);
      IssuedRange(sha256, log[..j], log[j], s);
      var a, m: nat :| g.sequence < m <= Effect(g, log[i]).sequence && s == Name(a, m);
      var b, n: nat :| h.sequence < n <= Effect(h, log[j]).sequence && s == Name(b, n);
      NameInjective(a, m, b, n);
      assert false;
    }
  }

  // ---- The current management token, read off the log ---------------------------

  /** The token that the last management event of the epoch about `client` left in force. */
  function CurrentToken(log: Log, client: string): Option<string> {
    if log == [] then None
    else
      var init, e := log[..|log| - 1], log[|log| - 1];
      match e
      case Reset => None
      case Registered(c, token, _) => if c == client then Some(token) else CurrentToken(init, client)
      case Updated(c, _, token, _) => if c == client then Some(token) else CurrentToken(init, client)
      case Deleted(c, _) => if c == client then None else CurrentToken(init, client)
      case _ => CurrentToken(init, client)
  }

  function Lookup<V>(m: map<string, V>, k: string): Option<V> {
    if k in m then Some(m[k]) else None
  }

  lemma {:induction false} CurrentTokenIsStored(log: Log, client: string)
    ensures CurrentToken(log, client) == Lookup(Replay(log).registrationTokens, client)
  {
    if log != [] {
      CurrentTokenIsStored(log[..|log| - 1], client);
    }
  }

  /** Every update or deletion takes place under the token in force at that very point. */
  lemma CommitsUseCurrentToken(sha256: string -> Digest, log: Log, i: nat)
    requires ValidLog(sha256, log) && i < |log| && (log[i].Updated? || log[i].Deleted?)
    ensures CurrentToken(log[..i], log[i].client) == Some(log[i].oldToken)
  {
    PrefixValid(sha256, log, i);
    CurrentTokenIsStored(log[..i], log[i].client);
  }
}
