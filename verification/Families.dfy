/** Where live tokens come from: token families, provenance and the exact accounting of the counter. */
module Families {
  import opened Options
  import opened Names
  import opened Pkce
  import opened Ledger
  import opened History

  /** Follows rotations back from a refresh token to the code whose redemption started the family. */
  function Root(log: Log, refresh: string): Option<string> {
    if log == [] then None
    else
      var init, e := log[..|log| - 1], log[|log| - 1];
      match e
      case Reset => None
      case Redeemed(code, _, _, _, r) => if r == refresh then Some(code) else Root(init, refresh)
      case Rotated(oldRefresh, _, _, r) => if r == refresh then Root(init, oldRefresh) else Root(init, refresh)
      case _ => Root(init, refresh)
  }

  /** The same for an access token: the code behind the exchange that handed it out. */
  function AccessRoot(log: Log, access: string): Option<string> {
    if log == [] then None
    else
      var init, e := log[..|log| - 1], log[|log| - 1];
      match e
      case Reset => None
      case Redeemed(code, _, _, a, _) => if a == access then Some(code) else AccessRoot(init, access)
      case Rotated(oldRefresh, _, a, _) => if a == access then Root(init, oldRefresh) else AccessRoot(init, access)
      case _ => AccessRoot(init, access)
  }

  /** What an event may rely on, with the naming scheme taken out: spent credentials are live, new ones are new. */
  predicate Admissible(g: Grants, e: Event) {
    match e
    case Minted(code, _) => code !in g.codes && code !in g.usedCodes
    case Redeemed(code, record, _, access, refresh) =>
      && Holds(g.codes, code, record) && code !in g.usedCodes
      && access !in g.access && refresh !in g.refresh && refresh !in g.usedRefresh
    case Rotated(oldRefresh, grant, access, refresh) =>
      && Holds(g.refresh, oldRefresh, grant) && oldRefresh !in g.usedRefresh
      && access !in g.access && refresh !in g.refresh && refresh !in g.usedRefresh
    case _ => true
  }

  lemma EnabledIsAdmissible(sha256: string -> Digest, log: Log, e: Event)
    requires Inv(Replay(log)) && Enabled(sha256, log, e)
    ensures Admissible(Replay(log), e)
  {
    hide Name, Named, Challenge, IsPkceValue, RegistrationSeen, Replay, NamesInv, CountsInv;
    var g := Replay(log);
    FreshNames(g);
    LiveNotUsed(g);
    match e
    case Minted(_, _) =>
    case Redeemed(_, _, _, _, _) =>
    case Rotated(_, _, _, _) =>
    case _ =>
  }

  lemma LiveNotUsed(g: Grants)
    requires NamesInv(g)
    ensures g.codes.Keys !! g.usedCodes && g.refresh.Keys !! g.usedRefresh
  {}

  /** The last event of a valid log, in the form the lemmas below use. */
  lemma LastEvent(sha256: string -> Digest, log: Log)
    requires ValidLog(sha256, log) && log != []
    ensures var init, e := log[..|log| - 1], log[|log| - 1];
            && ValidLog(sha256, init) && Enabled(sha256, init, e) && Inv(Replay(init)) && Admissible(Replay(init), e)
            && log == init + [e] && Replay(log) == Effect(Replay(init), e)
  {
    LogKeepsInv(sha256, log[..|log| - 1]);
    EnabledIsAdmissible(sha256, log[..|log| - 1], log[|log| - 1]);
  }

  // ---- The bijection between live refresh tokens and used codes -----------------

  ghost predicate Rooted(log: Log) {
    var g := Replay(log);
    forall r :: r in g.refresh ==> Root(log, r).Some? && Root(log, r).value in g.usedCodes
  }

  ghost predicate Injective(log: Log) {
    var g := Replay(log);
    forall r, s :: r in g.refresh && s in g.refresh && Root(log, r) == Root(log, s) ==> r == s
  }

  ghost predicate HasHeir(log: Log, code: string) {
    exists r :: r in Replay(log).refresh && Root(log, r) == Some(code)
  }

  ghost predicate Surjective(log: Log) {
    forall c :: c in Replay(log).usedCodes ==> HasHeir(log, c)
  }

  ghost predicate FamilyBijection(log: Log) {
    Rooted(log) && Injective(log) && Surjective(log)
  }

  lemma RedeemedSets(log: Log, e: Event)
    requires e.Redeemed?
    ensures Replay(log + [e]).refresh.Keys == Replay(log).refresh.Keys + {e.refresh}
    ensures Replay(log + [e]).usedCodes == Replay(log).usedCodes + {e.code}
    ensures forall r :: Root(log + [e], r) == if r == e.refresh then Some(e.code) else Root(log, r)
  {
    assert (log + [e])[..|log|] == log;
  }

  lemma RedeemKeepsFamilies(log: Log, e: Event)
    requires e.Redeemed? && FamilyBijection(log)
    requires e.code !in Replay(log).usedCodes && e.refresh !in Replay(log).refresh
    ensures FamilyBijection(log + [e])
  {
    hide Replay, Root;
    var next := log + [e];
    RedeemedSets(log, e);
    forall c | c in Replay(next).usedCodes ensures HasHeir(next, c) {
      if c == e.code {
        assert Root(next, e.refresh) == Some(c);
      } else {
        assert HasHeir(log, c);
        var r :| r in Replay(log).refresh && Root(log, r) == Some(c);
        assert Root(next, r) == Some(c);
      }
    }
  }

  lemma RootAfterRotation(log: Log, e: Event, r: string)
    requires e.Rotated?
    ensures Root(log + [e], r) == Root(log, if r == e.refresh then e.oldRefresh else r)
  {
    assert (log + [e])[..|log|] == log;
  }

  lemma RotatedSets(log: Log, e: Event)
    requires e.Rotated?
    ensures Replay(log + [e]).refresh.Keys == Replay(log).refresh.Keys - {e.oldRefresh} + {e.refresh}
    ensures Replay(log + [e]).usedCodes == Replay(log).usedCodes
  {
    assert (log + [e])[..|log|] == log;
  }

  lemma RotateKeepsFamilies(log: Log, e: Event)
    requires e.Rotated? && FamilyBijection(log)
    requires e.oldRefresh in Replay(log).refresh && e.refresh !in Replay(log).refresh
    ensures FamilyBijection(log + [e])
  {
    hide Replay, Root;
    var next := log + [e];
    var g := Replay(log);
    RotatedSets(log, e);
    forall r ensures Root(next, r) == Root(log, if r == e.refresh then e.oldRefresh else r) {
      RootAfterRotation(log, e, r);
    }
    forall c | c in Replay(next).usedCodes ensures HasHeir(next, c) {
      assert HasHeir(log, c);
      var r :| r in g.refresh && Root(log, r) == Some(c);
      assert Root(next, if r == e.oldRefresh then e.refresh else r) == Some(c);
    }
  }

  lemma OthersKeepFamilies(log: Log, e: Event)
    requires !e.Redeemed? && !e.Rotated? && FamilyBijection(log)
    ensures FamilyBijection(log + [e])
  {
    var next := log + [e];
    assert next[..|log|] == log;
    if !e.Reset? {
      assert Replay(next).refresh == Replay(log).refresh && Replay(next).usedCodes == Replay(log).usedCodes;
      assert forall r :: Root(next, r) == Root(log, r);
      forall c | c in Replay(next).usedCodes ensures HasHeir(next, c) {
        assert HasHeir(log, c);
      }
    }
  }

  /** In every reachable state, `Root` is a bijection from the live refresh tokens to the used codes. */
  lemma {:induction false} RefreshFamilies(sha256: string -> Digest, log: Log)
    requires ValidLog(sha256, log)
    ensures FamilyBijection(log)
  {
    if log != [] {
      hide Enabled, Inv, Effect;
      LastEvent(sha256, log);
      var init, e := log[..|log| - 1], log[|log| - 1];
      RefreshFamilies(sha256, init);
      hide FamilyBijection;
      if e.Redeemed? {
        RedeemKeepsFamilies(init, e);
      } else if e.Rotated? {
        RotateKeepsFamilies(init, e);
      } else {
        OthersKeepFamilies(init, e);
      }
    }
  }

  // ---- Provenance -----------------------------------------------------------------

  /** In the current epoch, event `i` minted `code` with `record`. */
  predicate MintedAt(log: Log, i: nat, code: string, record: Code) {
    i < |log| && log[i].Minted? && log[i].code == code && log[i].record == record && Quiet(log, i, |log|)
  }

  /** In the current epoch, event `j` redeemed `code`, stored as `record`. */
  predicate RedeemedAt(log: Log, j: nat, code: string, record: Code) {
    j < |log| && log[j].Redeemed? && log[j].code == code && log[j].record == record && Quiet(log, j, |log|)
  }

  ghost predicate WasMinted(log: Log, code: string, record: Code) {
    exists i: nat :: MintedAt(log, i, code, record)
  }

  /** The code was minted and then redeemed in the current epoch, and the grant repeats what it was minted for. */
  ghost predicate TracesTo(log: Log, code: string, grant: Grant) {
    exists i: nat, j: nat, record :: i < j && MintedAt(log, i, code, record) && RedeemedAt(log, j, code, record)
                           && grant == GrantOf(record)
  }

  lemma AppendKeepsTraces(log: Log, e: Event)
    requires !e.Reset?
    ensures forall c, record :: WasMinted(log, c, record) ==> WasMinted(log + [e], c, record)
    ensures forall c, grant :: TracesTo(log, c, grant) ==> TracesTo(log + [e], c, grant)
  {
    var next := log + [e];
    forall i: nat, c, record | MintedAt(log, i, c, record) ensures MintedAt(next, i, c, record) {}
    forall j: nat, c, record | RedeemedAt(log, j, c, record) ensures RedeemedAt(next, j, c, record) {}
    forall c, record | WasMinted(log, c, record) ensures WasMinted(next, c, record) {
      var i: nat :| MintedAt(log, i, c, record);
      assert MintedAt(next, i, c, record);
    }
    forall c, grant | TracesTo(log, c, grant) ensures TracesTo(next, c, grant) {
      var i: nat, j: nat, record :| i < j && MintedAt(log, i, c, record) && RedeemedAt(log, j, c, record)
        && grant == GrantOf(record);
      assert MintedAt(next, i, c, record) && RedeemedAt(next, j, c, record);
    }
  }

  lemma RedemptionTraces(log: Log, e: Event)
    requires e.Redeemed? && WasMinted(log, e.code, e.record)
    ensures TracesTo(log + [e], e.code, GrantOf(e.record))
  {
    var i: nat :| MintedAt(log, i, e.code, e.record);
    assert MintedAt(log + [e], i, e.code, e.record);
    assert RedeemedAt(log + [e], |log|, e.code, e.record);
  }

  ghost predicate CodesMinted(log: Log) {
    var g := Replay(log);
    forall c :: c in g.codes ==> WasMinted(log, c, g.codes[c])
  }

  ghost predicate RefreshTraced(log: Log) {
    var g := Replay(log);
    forall r :: r in g.refresh ==> Root(log, r).Some? && TracesTo(log, Root(log, r).value, g.refresh[r])
  }

  ghost predicate AccessTraced(log: Log) {
    var g := Replay(log);
    forall a :: a in g.access ==> AccessRoot(log, a).Some? && TracesTo(log, AccessRoot(log, a).value, g.access[a])
  }

  lemma AppendKeepsCodes(log: Log, e: Event)
    requires CodesMinted(log)
    ensures CodesMinted(log + [e])
  {
    var next := log + [e];
    assert next[..|log|] == log;
    if !e.Reset? {
      AppendKeepsTraces(log, e);
      if e.Minted? {
        assert MintedAt(next, |log|, e.code, e.record);
      }
    }
  }

  lemma AppendKeepsRefreshTraced(sha256: string -> Digest, log: Log, e: Event)
    requires Enabled(sha256, log, e) && CodesMinted(log) && RefreshTraced(log)
    ensures RefreshTraced(log + [e])
  {
    hide Name, WasMinted, TracesTo, Challenge;
    var next := log + [e];
    assert next[..|log|] == log;
    if !e.Reset? {
      AppendKeepsTraces(log, e);
      if e.Redeemed? {
        RedemptionTraces(log, e);
      }
    }
  }

  lemma AppendKeepsAccessTraced(sha256: string -> Digest, log: Log, e: Event)
    requires Enabled(sha256, log, e) && CodesMinted(log) && RefreshTraced(log) && AccessTraced(log)
    ensures AccessTraced(log + [e])
  {
    hide Name, WasMinted, TracesTo, Challenge;
    var next := log + [e];
    assert next[..|log|] == log;
    if !e.Reset? {
      AppendKeepsTraces(log, e);
      if e.Redeemed? {
        RedemptionTraces(log, e);
      }
    }
  }

  /**
   Every live token leads back to one code that `authorize` minted in this epoch and that was redeemed afterwards,
   and carries exactly that code's client, resource and scope; live codes were minted as they are stored.
   */
  lemma {:induction false} TokensTraceBack(sha256: string -> Digest, log: Log)
    requires ValidLog(sha256, log)
    ensures CodesMinted(log) && RefreshTraced(log) && AccessTraced(log)
  {
    if log != [] {
      var init, e := log[..|log| - 1], log[|log| - 1];
      assert log == init + [e];
      TokensTraceBack(sha256, init);
      hide CodesMinted, RefreshTraced, AccessTraced;
      AppendKeepsCodes(init, e);
      AppendKeepsRefreshTraced(sha256, init, e);
      AppendKeepsAccessTraced(sha256, init, e);
    }
  }

  lemma OnlyRedemption(sha256: string -> Digest, log: Log, j: nat, k: nat)
    requires ValidLog(sha256, log) && j < |log| && k < |log|
    requires log[j].Redeemed? && log[k].Redeemed? && log[j].code == log[k].code
    requires Quiet(log, j, |log|) && Quiet(log, k, |log|)
    ensures k == j
  {
    hide ValidLog;
    if k < j {
      CodeRedeemedOnce(sha256, log, k, j);
    } else if j < k {
      CodeRedeemedOnce(sha256, log, j, k);
    }
  }

  /** Events `i` and `j` of the current epoch mint and redeem the code behind `grant`, properly and only once. */
  ghost predicate Provenance(sha256: string -> Digest, log: Log, i: nat, j: nat, code: string, grant: Grant) {
    && i < j < |log| && Quiet(log, i, |log|)
    && log[i].Minted? && log[i].code == code && GrantOf(log[i].record) == grant
    && RegistrationSeen(log[..i], log[i].record)
    && log[j].Redeemed? && log[j].code == code
    && IsPkceValue(log[j].verifier) && Challenge(sha256, log[j].verifier) == log[i].record.challenge
    && (forall k :: i <= k < |log| && log[k].Redeemed? && log[k].code == code ==> k == j)
  }

  /**
   What stood behind the code that a live token traces to: its redirect URI was registered for its client when the
   server looked, its scope is `mcp`, and its one redemption presented a verifier that hashes to its challenge.
   */
  lemma MintingAndRedemption(sha256: string -> Digest, log: Log, code: string, grant: Grant)
    requires ValidLog(sha256, log) && TracesTo(log, code, grant)
    ensures grant.scope == "mcp" && exists i: nat, j: nat :: Provenance(sha256, log, i, j, code, grant)
  {
    hide ValidLog, Name, Challenge, IsPkceValue, RegistrationSeen, Replay;
    var i: nat, j: nat, record :| i < j && MintedAt(log, i, code, record) && RedeemedAt(log, j, code, record)
      && grant == GrantOf(record);
    PrefixValid(sha256, log, i);
    PrefixValid(sha256, log, j);
    forall k | i <= k < |log| && log[k].Redeemed? && log[k].code == code ensures k == j {
      OnlyRedemption(sha256, log, j, k);
    }
    assert Provenance(sha256, log, i, j, code, grant);
  }

  /** The exchange spends credential number `p` and hands out numbers `n` and `n + 1`, which are larger. */
  ghost predicate OlderBy(e: Event, p: nat, n: nat)
    requires e.Redeemed? || e.Rotated?
  {
    p < n && e.refresh == Name(RefreshKind, n + 1) && e.access == Name(AccessKind, n)
    && (e.Redeemed? ==> e.code == Name(CodeKind, p)) && (e.Rotated? ==> e.oldRefresh == Name(RefreshKind, p))
  }

  /** Each step back along a family lands on a credential with a strictly smaller number. */
  lemma ParentIsOlder(sha256: string -> Digest, log: Log, e: Event)
    requires ValidLog(sha256, log) && Enabled(sha256, log, e) && (e.Redeemed? || e.Rotated?)
    ensures exists p: nat, n: nat :: OlderBy(e, p, n)
  {
    hide Name, ValidLog, Replay;
    LogKeepsInv(sha256, log);
    var g := Replay(log);
    if e.Redeemed? {
      assert Named(e.code, CodeKind, g.sequence);
      var p: nat :| 1 <= p <= g.sequence && e.code == Name(CodeKind, p);
      assert OlderBy(e, p, g.sequence + 1);
    } else {
      assert Named(e.oldRefresh, RefreshKind, g.sequence);
      var p: nat :| 1 <= p <= g.sequence && e.oldRefresh == Name(RefreshKind, p);
      assert OlderBy(e, p, g.sequence + 1);
    }
  }

  /** A refresh token numbered `n` has a root numbered below it. */
  ghost predicate YoungerThanRoot(kind: Kind, token: string, root: Option<string>) {
    exists p: nat, n: nat :: p < n && token == Name(kind, n) && root == Some(Name(CodeKind, p))
  }

  ghost predicate RootsAreOlder(log: Log) {
    && (forall r :: r in Replay(log).refresh ==> YoungerThanRoot(RefreshKind, r, Root(log, r)))
    && (forall a :: a in Replay(log).access ==> YoungerThanRoot(AccessKind, a, AccessRoot(log, a)))
  }

  lemma MintedYounger(p: nat, n: nat)
    requires p < n
    ensures YoungerThanRoot(AccessKind, Name(AccessKind, n), Some(Name(CodeKind, p)))
    ensures YoungerThanRoot(RefreshKind, Name(RefreshKind, n + 1), Some(Name(CodeKind, p)))
  {}

  lemma RotatedYounger(p: nat, n: nat, root: Option<string>)
    requires p < n && YoungerThanRoot(RefreshKind, Name(RefreshKind, p), root)
    ensures YoungerThanRoot(AccessKind, Name(AccessKind, n), root)
    ensures YoungerThanRoot(RefreshKind, Name(RefreshKind, n + 1), root)
  {
    hide Name;
    var q: nat, m: nat :| q < m && Name(RefreshKind, p) == Name(RefreshKind, m) && root == Some(Name(CodeKind, q));
    NameInjective(RefreshKind, p, RefreshKind, m);
    MintedYounger(q, n);
  }

  /** The numbers of an exchange: the new tokens come after whatever is behind the spent credential. */
  lemma ExchangeIsYounger(sha256: string -> Digest, log: Log, e: Event)
    requires ValidLog(sha256, log) && Enabled(sha256, log, e) && (e.Redeemed? || e.Rotated?)
    requires e.Rotated? ==> YoungerThanRoot(RefreshKind, e.oldRefresh, Root(log, e.oldRefresh))
    ensures var root := if e.Redeemed? then Some(e.code) else Root(log, e.oldRefresh);
            YoungerThanRoot(AccessKind, e.access, root) && YoungerThanRoot(RefreshKind, e.refresh, root)
  {
    hide Name, ValidLog, Enabled, Root, YoungerThanRoot;
    ParentIsOlder(sha256, log, e);
    var p: nat, n: nat :| OlderBy(e, p, n);
    if e.Redeemed? {
      MintedYounger(p, n);
    } else {
      RotatedYounger(p, n, Root(log, e.oldRefresh));
    }
  }

  lemma AppendKeepsRootsOlder(sha256: string -> Digest, log: Log, e: Event)
    requires ValidLog(sha256, log) && Enabled(sha256, log, e) && RootsAreOlder(log)
    ensures RootsAreOlder(log + [e])
  {
    hide Name, YoungerThanRoot, ValidLog, Challenge, IsPkceValue, RegistrationSeen;
    var next := log + [e];
    assert next[..|log|] == log;
    if e.Redeemed? || e.Rotated? {
      ExchangeIsYounger(sha256, log, e);
    }
  }

  /**
   Following a live token back to the code it stems from leads to a strictly smaller number, however many rotations lie
   in between.
   */
  lemma {:induction false} LiveTokensAreYoungerThanRoots(sha256: string -> Digest, log: Log)
    requires ValidLog(sha256, log)
    ensures RootsAreOlder(log)
  {
    if log != [] {
      var init, e := log[..|log| - 1], log[|log| - 1];
      assert log == init + [e];
      LiveTokensAreYoungerThanRoots(sha256, init);
      hide RootsAreOlder;
      AppendKeepsRootsOlder(sha256, init, e);
    }
  }

  // ---- Accounting -----------------------------------------------------------------

  /** Registrations and committed updates since the last reset. */
  function ManagementCommits(log: Log): nat {
    if log == [] then 0
    else
      var init, e := log[..|log| - 1], log[|log| - 1];
      if e.Reset? then 0
      else if e.Registered? || e.Updated? then ManagementCommits(init) + 1
      else ManagementCommits(init)
  }

  /** The counter is fully accounted for by commits and credentials. */
  lemma {:induction false} SequenceAccounting(sha256: string -> Digest, log: Log)
    requires ValidLog(sha256, log)
    ensures var g := Replay(log);
            g.sequence == ManagementCommits(log) + |g.codes| + |g.usedCodes| + 2 * |g.access|
  {
    if log != [] {
      hide Enabled, Inv, Effect;
      LastEvent(sha256, log);
      var init, e := log[..|log| - 1], log[|log| - 1];
      SequenceAccounting(sha256, init);
      if !e.Reset? {
        StepAccounting(Replay(init), e);
      } else {
        assert Effect(Replay(init), e) == EMPTY by { ResetEmpties(Replay(init)); }
      }
    }
  }

  lemma ResetEmpties(g: Grants)
    ensures Effect(g, Reset) == EMPTY
  {}

  lemma StepAccounting(g: Grants, e: Event)
    requires Admissible(g, e) && !e.Reset?
    ensures var h := Effect(g, e);
            h.sequence - |h.codes| - |h.usedCodes| - 2 * |h.access| ==
            g.sequence - |g.codes| - |g.usedCodes| - 2 * |g.access| + (if e.Registered? || e.Updated? then 1 else 0)
  {
    if e.Redeemed? {
      var rest := g.codes - {e.code};
      assert rest.Keys == g.codes.Keys - {e.code};
      assert |rest| == |g.codes| - 1;
    }
  }

  // ---- The life of one credential ---------------------------------------------------

  datatype Phase = Unissued | Live | Used

  function CodePhase(g: Grants, code: string): Phase {
    if code in g.usedCodes then Used else if code in g.codes then Live else Unissued
  }

  function RefreshPhase(g: Grants, refresh: string): Phase {
    if refresh in g.usedRefresh then Used else if refresh in g.refresh then Live else Unissued
  }

  lemma CodeStep(g: Grants, e: Event, code: string)
    requires Admissible(g, e)
    ensures var before, after := CodePhase(g, code), CodePhase(Effect(g, e), code);
            if e.Reset? then after == Unissued
            else if e.Minted? && e.code == code then before == Unissued && after == Live
            else if e.Redeemed? && e.code == code then before == Live && after == Used
            else after == before
  {}

  lemma RefreshStep(g: Grants, e: Event, refresh: string)
    requires Admissible(g, e)
    ensures var before, after := RefreshPhase(g, refresh), RefreshPhase(Effect(g, e), refresh);
            if e.Reset? then after == Unissued
            else if (e.Redeemed? || e.Rotated?) && e.refresh == refresh then before == Unissued && after == Live
            else if e.Rotated? && e.oldRefresh == refresh then before == Live && after == Used
            else after == before
  {}

  /**
   Seen from one credential the server is a three-state machine: minting takes it from Unissued to Live, its exchange
   from Live to Used, a reset back to Unissued, and nothing else touches it.
   */
  lemma CodeLifeCycle(sha256: string -> Digest, log: Log, e: Event, code: string)
    requires ValidLog(sha256, log) && Enabled(sha256, log, e)
    ensures var before, after := CodePhase(Replay(log), code), CodePhase(Effect(Replay(log), e), code);
            if e.Reset? then after == Unissued
            else if e.Minted? && e.code == code then before == Unissued && after == Live
            else if e.Redeemed? && e.code == code then before == Live && after == Used
            else after == before
  {
    hide Enabled, Inv, Effect, ValidLog;
    LogKeepsInv(sha256, log);
    EnabledIsAdmissible(sha256, log, e);
    CodeStep(Replay(log), e, code);
  }

  lemma RefreshLifeCycle(sha256: string -> Digest, log: Log, e: Event, refresh: string)
    requires ValidLog(sha256, log) && Enabled(sha256, log, e)
    ensures var before, after := RefreshPhase(Replay(log), refresh), RefreshPhase(Effect(Replay(log), e), refresh);
            if e.Reset? then after == Unissued
            else if (e.Redeemed? || e.Rotated?) && e.refresh == refresh then before == Unissued && after == Live
            else if e.Rotated? && e.oldRefresh == refresh then before == Live && after == Used
            else after == before
  {
    hide Enabled, Inv, Effect, ValidLog;
    LogKeepsInv(sha256, log);
    EnabledIsAdmissible(sha256, log, e);
    RefreshStep(Replay(log), e, refresh);
  }

  /** A minted code stays redeemable, as minted, until it is redeemed or the server is reset. */
  lemma {:induction false} CodeStaysLive(sha256: string -> Digest, log: Log, i: nat)
    requires ValidLog(sha256, log) && i < |log| && log[i].Minted?
    requires forall k :: i < k < |log| ==> !log[k].Reset? && (log[k].Redeemed? ==> log[k].code != log[i].code)
    ensures Holds(Replay(log).codes, log[i].code, log[i].record)
    decreases |log|
  {
    hide Enabled, Inv;
    LastEvent(sha256, log);
    if i < |log| - 1 {
      CodeStaysLive(sha256, log[..|log| - 1], i);
    }
  }
}
