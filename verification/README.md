# Verified model of the mock MCP server

A Dafny model of three parts of the repository, with proofs about it. `dafny verify dfyconfig.toml` checks everything.

**The OAuth fixture** (`oauth_fixtures.go`) is modelled three times, each time closer to the code.

- `Ledger` is the abstract form: a run of the server is a log of events (a client registered, a code minted, a token
  rotated, a reset, …), with what each event needs (`Enabled`) and what it does to the credential maps (`Effect`).
  `History` and `Families` prove the theorems about all valid logs. An *epoch* is a stretch of log without a reset:
  a reset zeroes the counter, so credential strings repeat afterwards and every "never again" is meant within an epoch.
- `Handlers` cuts every HTTP handler at the points where it takes the mutex; a `Region` is one locked section with the
  checks in front of it. `Schedule` runs any number of handlers, interleaved at these points in any order, resets
  included, and proves that every such run replays a valid log. `Runs` carries the theorems over to runs and to what
  clients see; `EvidenceAgreement` does the same for the request counters and captures, `RedirectSafety` for redirects,
  `Minting` and `Updating` for what a handler has read before it mints or updates. `Answers` says case by case what each
  handler answers and leaves unchanged, `Requests` what the request behind a step of a run has said. `Witnesses` builds
  runs that show what can happen.
- `Server` is the object itself: a class with the nine maps, the counter and the capture list, updated in place. Its
  methods are proved to change the fields as the regions change the abstract state, and to keep `Valid`.

Around it stand `Names` (the printed credentials), `Pkce` (base64url and the PKCE checks), `StrictJson` (the strict
check of client metadata in front of Go's lenient decoding, read member by member in `Metadata`, with examples in
`OtherSpellings`) and `Callback` (the redirect parameters).

**The OpenAPI tools** (`oasmcp.go`): `ToolCalls` builds the schema and binding of an operation and rebuilds the HTTP
request of a call; an upstream server that parses the request gets every argument back. `Templates` compares the loop of
`strings.ReplaceAll` with simultaneous substitution, `UrlCodec` models the escaping of `net/url`, `ToolNames` the names.

**Orders and posts** (`store/store.go` and `process_order` in `main.go`): `Orders` interleaves any number of calls and
proves that stock and money are conserved; `Oversell` bounds the overselling and shows that the bound is attained;
`Store` is the store itself, with products updated through shared records. `Sums` and `Enumerations` are auxiliary.

Some properties one may expect of the code do not hold, and are stated as what does hold:

- Deleting a client revokes neither its codes nor its tokens (`Witnesses.DeletedClientIsAdmitted` is a run), and
  `authorize` may mint for a client deleted since the lookup (`Witnesses.CodeForDeletedClient`). If no reset comes in
  between, the client is still registered exactly when no deletion of it came in between; across a reset, exactly when it
  was registered again and not deleted since (`Minting.MintedForRegisteredExactly`).
- The project's own README.md (lines 202-203) says that a refresh rotates both tokens. The old refresh token is indeed
  spent, but the old access token stays valid until the next reset (`History.EventGrows`,
  `Witnesses.OldAccessIsAdmitted`).
- An update that straddles a reset may commit to a later registration, whose token is the same string. It commits to the
  registration it has read the token of exactly when no reset comes in between (`Updating.UpdatesWhatItReadExactly`,
  `Witnesses.UpdateOfAnotherRegistration`).
- `registerClient` commits before the identity is resolved for the answer, so that a `server_error` there comes with a
  new client (`Handlers.RegistrationCommits`).
- The strict JSON check protects two field names. Any other field decodes as its exact name says unless the last member
  that counts for it is spelled and reads differently, or is a list with a null where an earlier list still shows
  (`StrictJson.FieldsDecodeExactlyUnless`). `Handlers.UpdateUnderOtherSpelling` is an update that commits although its
  exact `client_id` is another one, `Handlers.UpdateOverNulls` one whose exact `grant_types` has nothing but nulls.
- The method counters can exceed the `mcp` counter after a reset in the middle of MCP requests. The excess is exactly the
  number of requests recorded before the last reset and counted after it, less those recorded since and not counted
  (`EvidenceAgreement.ExcessExactly`); `Witnesses.BoundBreaksInSomeRun` is a run in which it is positive. A reset in the
  middle of a request alone does not break the bound: the request may never be counted, or others make up for it.
- The order of path parameters matters for exactly those templates with a stray opening brace before a stray closing one
  (`Templates.OrderMattersExactly`), as with nested braces.
- A declared path parameter that the template does not mention is lost, and nothing else that the schema names
  (`ToolCalls.EveryArgumentLands`, `ToolCalls.LosingOperation`).
- Operation ids share a tool name with another id exactly when they begin with a letter, or past the start have a capital
  or an underscore before a small letter (`ToolNames.TwinsExactly`); within ids without capitals, and within ids without
  underscore or leading capital, names are distinct. Operations without ids share one exactly when their routes agree up
  to braces and separators (`ToolNames.SlugToolsCollideExactly`); with one, exactly when the id spells out to the name
  (`ToolNames.MixedToolsCollideExactly`), as `getUsers` and `get_users` do for GET `/users`.
- A live code can be redeemed exactly when some well-formed verifier hashes to its challenge (`Runs.RedeemableExactly`).
  `authorize` also mints codes for which there is none (`Witnesses.MintsUnredeemableCode`).
- With negative quantities the stock can rise, so that the bound on overselling is in terms of the largest stock along
  the run (`Oversell.StockLowerBound`); without, that is the initial stock.

What the model takes as given: the hash (any function to 32 bytes), `url.Parse` and `url.ParseRequestURI` on redirect
URIs (any functions; both in `Handlers.Env`), the outcome of `identities` and of reading a body (parts of a `Request`),
and the ids of the UUID generator (parameters, assumed new where the theorem says so).

## Model

| member | source | states |
|---|---|---|
| `Names.NameInjective` | oauth_fixtures.go:579-583 | two credentials printed alike are of the same kind and have the same number |
| `Names.PrintedNames` | oauth_fixtures.go:231-232 | the five kinds of credential, as printed |
| `Ledger.EventKeepsInv` | oauth_fixtures.go:470-477 | every event keeps the state invariant: clients and management tokens have the same keys, tokens are distinct, every name in use is within the counter, live and used credentials are apart, and the live and used counts balance |
| `Ledger.LogKeepsInv` | oauth_fixtures.go:62-76 | the invariant holds after every valid log, resets included |
| `History.EventGrows` | oauth_fixtures.go:579-587 | short of a reset, no event takes an access token back or changes it, un-spends a credential, loses a live one without marking it used, or revives a retired management token or deleted client |
| `History.QuietGrows` | oauth_fixtures.go:672-690 | the same between any two points of an epoch |
| `History.CodeRedeemedOnce` | oauth_fixtures.go:526-554 | two redemptions of the same code have a reset between them |
| `History.RefreshRotatedOnce` | oauth_fixtures.go:556-577 | two rotations of the same refresh token have a reset between them |
| `History.TokenSpentOnce` | oauth_fixtures.go:307-317 | of the updates and deletions that present one management token, at most one takes place per epoch |
| `History.DeletedStaysDeleted` | oauth_fixtures.go:307-312 | nothing registers, updates, deletes or looks up a deleted client again before a reset, whatever tokens are in flight |
| `History.SeenClientStays` | oauth_fixtures.go:411-413 | a client looked up earlier in the epoch is still registered if and only if no deletion of it came in between |
| `History.CredentialsDistinct` | oauth_fixtures.go:579-587 | all credentials handed out in an epoch, of whatever kind, are different strings |
| `History.CurrentTokenIsStored` | oauth_fixtures.go:231-234 | the stored management token is the one the last management event about the client left in force |
| `History.CommitsUseCurrentToken` | oauth_fixtures.go:307-312 | every update or deletion takes place under the token in force at that very point |
| `Families.RefreshFamilies` | oauth_fixtures.go:549-551 | following rotations back is a bijection from the live refresh tokens to the used codes |
| `Families.TokensTraceBack` | oauth_fixtures.go:568-571 | every live token leads back to a code minted and then redeemed in this epoch, and carries its client, resource and scope |
| `Families.MintingAndRedemption` | oauth_fixtures.go:414-431 | behind every live token stands one minting for a redirect URI that an earlier lookup found registered, and exactly one redemption, with a verifier that hashes to the challenge; the scope is `mcp` (`Minting.TokensAreBought` adds that the lookup is the minting request's own) |
| `Families.ParentIsOlder` | oauth_fixtures.go:579-587 | an exchange hands out larger numbers than the one it spends |
| `Families.LiveTokensAreYoungerThanRoots` | oauth_fixtures.go:579-587 | a live access or refresh token numbered n has a root code numbered p < n, however many rotations lie in between |
| `Families.SequenceAccounting` | oauth_fixtures.go:313-316 | the counter equals commits, live codes, used codes and twice the access tokens |
| `Families.CodeLifeCycle` | oauth_fixtures.go:526-554 | seen from one code the server is the machine Unissued, Live, Used, moved by minting, redemption and reset only |
| `Families.RefreshLifeCycle` | oauth_fixtures.go:556-577 | the same for a refresh token |
| `Families.CodeStaysLive` | oauth_fixtures.go:470-477 | a minted code stays stored as minted until its redemption or a reset |
| `Handlers.CheckRedirectURIs` | oauth_fixtures.go:377-396 | the loop accepts exactly non-empty lists of distinct, absolute, fragment-free URIs |
| `Handlers.RedirectURIsExactly` | oauth_fixtures.go:377-396 | that is: as many different URIs as entries, at least one, each absolute and without fragment |
| `Handlers.RegionAdvances` | oauth_fixtures.go:252-284 | every handler finishes after at most three regions, each fitting its request |
| `Handlers.RegistrationCommits` | oauth_fixtures.go:206-250 | registration changes the state if and only if the metadata is good, also when the answer is then `server_error` |
| `Answers.RegistrationAnswered` | oauth_fixtures.go:206-250 | registration case by case: which error for which fault, leaving the state as it was; otherwise a client and a token that are both new, with the document's own redirect URIs, nothing else changed, and an answer that describes exactly this registration |
| `Answers.ManagementAnswered` | oauth_fixtures.go:252-284 | management case by case: only a PUT or DELETE for a registered client that carries its token gets anywhere; a DELETE then removes that client and nothing else |
| `Answers.ManagementProceedsExactly` | oauth_fixtures.go:264-278 | a deletion takes place, or an update goes ahead, if and only if the request carries `Bearer` and the stored token of the client it names; otherwise nothing changes |
| `Answers.UpdateAcceptedExactly` | oauth_fixtures.go:286-301 | metadata is accepted if and only if every field, read off the members, says what it must |
| `Answers.UpdateAnswered` | oauth_fixtures.go:286-327 | an update case by case: which error for which fault; otherwise the client gets the document's redirect URIs and a new token, nothing else changes, and the answer describes exactly that |
| `Answers.AnswerManages` | oauth_fixtures.go:264-283 | with the id and the token of a registration or update answer, a management request is accepted |
| `Answers.LookupAnswered` | oauth_fixtures.go:398-413 | only a GET with a resolvable identity gets to the client lookup |
| `Answers.AuthorizationAnswered` | oauth_fixtures.go:414-481 | authorization case by case: which error for which fault; otherwise a redirect to the URI asked for, one of the client's, that says either denied or carries the code just stored with that URI, nothing else changed |
| `Answers.CodeExchangeAnswered` | oauth_fixtures.go:526-554 | a code exchange case by case: `invalid_target` if only the resource is wrong, `invalid_grant` for anything else, otherwise two new tokens for the code's grant and the code moved to the used ones, nothing else changed |
| `Answers.RefreshExchangeAnswered` | oauth_fixtures.go:556-577 | the same for a rotation |
| `Answers.TokenAnswered` | oauth_fixtures.go:499-524 | which token requests reach which exchange, and the error for each of the others |
| `Answers.BearerAnswered` | oauth_fixtures.go:603-622 | an MCP request is let through if and only if it carries a live token for the resource and the identity resolves; which error otherwise |
| `Answers.OthersAnswered` | oauth_fixtures.go:672-690 | reset, the metadata endpoints and the unreadable MCP body |
| `Requests.CommitsCarryToken` | oauth_fixtures.go:264-283 | in every interleaving, a step that updates or deletes a client belongs to a PUT or DELETE for that client which carries the token it commits under |
| `Requests.MintingsRedirect` | oauth_fixtures.go:470-481 | in every interleaving, a minting step ends its request with a redirect that carries the code to the URI the code is stored with |
| `Requests.WhoRedirected` | oauth_fixtures.go:470-481 | in every reachable world, a redirect that carries a code goes to the URI that this code was stored with |
| `Handlers.MintingIgnoresDeletion` | oauth_fixtures.go:469-477 | whether a code is minted depends on the client as looked up, not on the state at minting |
| `Handlers.AuthorizationGranted` | oauth_fixtures.go:414-437 | `authorize` redirects if and only if every required parameter is given once and says what it must for the client as looked up, and mints if and only if moreover nothing is denied |
| `Handlers.UpdateUnderOtherSpelling` | oauth_fixtures.go:286-327 | in any state, an update commits whose exact `client_id` says something else, if a differently spelled member after it names the client |
| `Handlers.UpdateOverNulls` | oauth_fixtures.go:286-327 | in any state, an update commits whose exact `grant_types` is a list of two nulls, if a list under another spelling before it has the two values |
| `Handlers.ExchangeCodeAccepts` | oauth_fixtures.go:526-554 | a code exchange succeeds if and only if the form presents a live code, once, with its client, redirect URI and resource and a well-formed verifier behind its challenge; the replay test adds nothing |
| `Handlers.ExchangeRefreshAccepts` | oauth_fixtures.go:556-577 | a rotation succeeds if and only if the form presents a live refresh token, once, with its client and resource |
| `Handlers.TokensGranted` | oauth_fixtures.go:499-524 | the token endpoint answers with tokens for exactly these forms, posted without client authentication under the fitting grant type |
| `Minting.WhoLookedUp` | oauth_fixtures.go:411-413 | every handler that carries a client found it at an earlier step of its own |
| `Minting.MintFollowsOwnLookup` | oauth_fixtures.go:411-477 | every minting step rests on an earlier lookup by the same handler, which found the client and the redirect URI registered |
| `Minting.RegisteredExactly` | oauth_fixtures.go:229-235 | in every reachable state a client is registered if and only if its last management event since a reset left a token |
| `Minting.MintedForRegisteredExactly` | oauth_fixtures.go:411-477 | with no reset between lookup and minting, the client is still registered at the minting if and only if no step in between deletes it; with one, if and only if its last management event since is not a deletion |
| `Minting.TokensAreBought` | oauth_fixtures.go:470-551 | every live access token of every reachable state comes from three steps for the code at its root: a lookup, the minting by the same request, and a redemption with a verifier behind the challenge, with no reset after the minting |
| `Minting.RefreshTokensAreBought` | oauth_fixtures.go:470-571 | so does every live refresh token, however often its family was rotated |
| `Minting.AdmittedTokensAreBought` | oauth_fixtures.go:603-622 | so an MCP request is let through only with such a token, for its resource |
| `Witnesses.CodeForDeletedClient` | oauth_fixtures.go:411-477 | a run without resets that mints a code for a client deleted since its lookup |
| `Witnesses.DeletedClientIsAdmitted` | oauth_fixtures.go:280-283 | a run that deletes a client and then lets a request with its access token through |
| `Witnesses.OldAccessIsAdmitted` | oauth_fixtures.go:568-571 | a run that rotates a refresh token and then lets a request with the old access token through |
| `Witnesses.ServedInRun` | oauth_fixtures.go:93-106 | any run can go on by serving one more request alone, with the result the methods of the class have |
| `RedirectSafety.RegionIsSafe` | oauth_fixtures.go:377-396 | no region registers, stores or redirects to anything but valid URIs |
| `RedirectSafety.RedirectsAreSafe` | oauth_fixtures.go:398-482 | in every interleaving, every registered URI is valid, and every code was minted for, and every browser redirected to, an absolute http(s) URI without fragment |
| `Schedule.RegionRefines` | oauth_fixtures.go:398-482 | every locked region leaves the credentials alone or is one enabled event of the ledger |
| `Schedule.RunsRefineLedger` | oauth_fixtures.go:62-76 | in every world of every interleaving the credential maps are the replay of a valid log, and every handler past the client lookup really saw its client |
| `Runs.ReachableStates` | oauth_fixtures.go:526-587 | in every reachable state: the invariant, the bijection, the counts of tokens and of the counter, and provenance |
| `Runs.CodesAreOneUse` | oauth_fixtures.go:528-552 | in any interleaving two steps that redeem one code have a reset step between them |
| `Runs.RefreshTokensAreOneUse` | oauth_fixtures.go:558-571 | in any interleaving two steps that rotate one refresh token have a reset step between them |
| `Runs.ManagementTokensAreOneUse` | oauth_fixtures.go:268-317 | in any interleaving at most one of the updates and deletions holding one management token commits per epoch |
| `Runs.DeletionsAreFinal` | oauth_fixtures.go:280-283 | in any interleaving, after a step that deletes a client no step registers, updates, deletes or looks it up before a reset step |
| `Runs.CommitsUseTokenInForce` | oauth_fixtures.go:307-312 | in any interleaving, a step that updates or deletes a client does so under the token stored for it at that step |
| `Updating.UpdateFollowsOwnRead` | oauth_fixtures.go:268-278 | every committing update rests on an earlier step of the same handler, which read the token that is compared |
| `Updating.UpdatesWhatItReadExactly` | oauth_fixtures.go:286-327 | the registration that an update commits to is the one whose token its handler read if and only if no reset step comes in between |
| `Witnesses.UpdateOfAnotherRegistration` | oauth_fixtures.go:307-317 | a run in which an update commits to a registration made after the one whose token it read |
| `Runs.TokenPairMeansExchange` | oauth_fixtures.go:594-601 | a token pair is answered if and only if an exchange took place |
| `Runs.RedirectCarriesStoredCode` | oauth_fixtures.go:434-481 | a redirect has the callback shape, carries a code unless denied, and that code was stored just then with what was asked |
| `Runs.AdmissionHasProvenance` | oauth_fixtures.go:603-622 | in every interleaving, an MCP request that is let through presents a live token for this resource, and the code that this token traces back to was minted for the same client, resource and a registered redirect URI and redeemed exactly once, with a verifier behind its challenge |
| `Runs.HonestClientRedeems` | oauth_fixtures.go:536-553 | whatever happened since, short of redemption of that code or a reset, the right form with the right verifier gets tokens |
| `Runs.HonestChallengeAuthorizes` | oauth_fixtures.go:414-421 | the challenge of any verifier passes the checks of `authorize` |
| `Runs.RedeemableExactly` | oauth_fixtures.go:536-543 | some form redeems a live code if and only if some well-formed verifier hashes to its challenge |
| `Runs.ForeignChallengeNeverRedeems` | oauth_fixtures.go:536-543 | so a challenge outside the encoder's image is never redeemed, whoever tries |
| `Witnesses.MintsUnredeemableCode` | oauth_fixtures.go:414-421 | a run that mints such a code, which is live and which no form redeems |
| `Runs.RejectedExchangesAreHarmless` | oauth_fixtures.go:499-524 | after any sequence of rejected token requests the grants are unchanged and the next request fares as without them |
| `Runs.RejectionsInterleavedAreHarmless` | oauth_fixtures.go:531-548 | the same in any interleaving: while requests only arrive and token requests are rejected, however they overlap, the grants stay and every handler behaves as before |
| `EvidenceAgreement.CountersMatchCaptures` | oauth_fixtures.go:139-151 | in every reachable state each endpoint counter is the number of its captures, and they sum to the capture length |
| `EvidenceAgreement.CapturedExactly` | oauth_fixtures.go:139-151 | a capture has the method and three headers of its request, and of the authorization only whether there was one |
| `EvidenceAgreement.EndpointsByRequest` | oauth_fixtures.go:252-263 | each kind of request is recorded under its own name |
| `EvidenceAgreement.MethodCountersBounded` | oauth_fixtures.go:638-642 | in runs where no MCP request straddles a reset the method counters sum to at most the `mcp` counter |
| `EvidenceAgreement.CountersCountRequests` | oauth_fixtures.go:605-642 | in every reachable state `mcp` is the number of MCP requests recorded since the last reset, and the method counters sum to the number of requests counted since |
| `EvidenceAgreement.SetsInSteps` | oauth_fixtures.go:605-642 | these requests are the ones with a recording, or counting, step that no reset follows |
| `EvidenceAgreement.ExcessExactly` | oauth_fixtures.go:638-642 | in every reachable state, method counters less `mcp` is the number of requests recorded before the last reset and counted after it, less those recorded since and not counted; so the bound holds if and only if the former are no more than the latter |
| `EvidenceAgreement.CountBreaksExactly` | oauth_fixtures.go:638-642 | counting a request in flight leaves the bound broken if and only if there are no fewer of the former than of the latter before it |
| `EvidenceAgreement.StraddlingBreaksTheBound` | oauth_fixtures.go:672-690 | from any reachable state with a request between bearer check and count, a reset followed by that count breaks the bound |
| `Witnesses.BoundBreaksInSomeRun` | oauth_fixtures.go:638-642 | a run from the empty server that ends with the bound broken |
| `Pkce.RoundTrip` | oauth_fixtures.go:589-592 | decoding undoes unpadded base64url, whose length is the rounded-up four thirds |
| `Pkce.SymbolsInOrder` | oauth_fixtures.go:589-592 | the alphabet, by where its runs start and that they go up one by one |
| `Pkce.EncodesTheSameBits` | oauth_fixtures.go:589-592 | every three bytes and their four symbols are the same 24 bits |
| `Pkce.ValidPkceValue` | oauth_fixtures.go:484-495 | the loop accepts exactly 43 to 128 unreserved characters |
| `Pkce.PkceValues` | oauth_fixtures.go:484-495 | these are the base64url characters, dot and tilde, and all lengths from 43 to 128 and no others |
| `Pkce.ChallengeIsPkceValue` | oauth_fixtures.go:589-592 | every S256 challenge has 43 characters and is accepted |
| `Pkce.ChallengeImage` | oauth_fixtures.go:589-592 | a string encodes some digest if and only if it has 43 symbols, the last with two zero bits |
| `StrictJson.DecodeStrictJSONObject` | oauth_fixtures.go:329-375 | the loop with its two sets accepts exactly the documents with distinct names and canonical security fields; the branch at 355-357 is never taken |
| `StrictJson.AcceptedExactly` | oauth_fixtures.go:329-373 | that is: one object with nothing after it, as many different names as members, the two security fields in no other spelling |
| `StrictJson.FoldExactly` | oauth_fixtures.go:350-350 | which runes fold to which small letter |
| `Metadata.RegistrationDecodesExactly` | oauth_fixtures.go:212-219 | which registrations decode |
| `Metadata.ItemsAlone` | oauth_fixtures.go:212-219 | a list that is stored once reads item by item as the document has it |
| `StrictJson.FillIsExactLookup` | oauth_fixtures.go:374-374 | for a canonically spelled field, decoding up to case with the last member winning is exact lookup |
| `StrictJson.SecurityFieldsDecodeExactly` | oauth_fixtures.go:350-361 | on every accepted document the two security fields decode to the one member of that name, and nothing else could be taken for them |
| `StrictJson.TextIsLastBound` | oauth_fixtures.go:374-374 | on every member list, a string field decodes to the last string among the members that fold to it |
| `StrictJson.ListIsItemByItem` | oauth_fixtures.go:374-374 | on every member list, a list field has the length of the last list that folds to it and holds at each position the text last written there since it was cleared, a null writing nothing |
| `StrictJson.FillSucceeds` | oauth_fixtures.go:374-374 | decoding succeeds if and only if every member that folds to a field has a value of its type |
| `StrictJson.FieldsDecodeExactlyUnless` | oauth_fixtures.go:329-375 | an accepted document decodes a field, of whatever name and kind, as exact lookup would, unless (and only unless) the last member that counts for it is spelled differently and reads differently, or leaves a position of a list to an earlier list |
| `Callback.BuildParameters` | oauth_fixtures.go:439-480 | deleting, setting and adding one by one gives the parameter map described in one expression |
| `Callback.CallbackShape` | oauth_fixtures.go:439-480 | other parameters keep their values, there is a code or else an error, `state` and `iss` occur as often as controlled and start with the true value unless `wrong` is asked |
| `UrlCodec.EscapeRoundTrip` | oasmcp.go:145-145 | unescaping undoes path and query escaping of any bytes |
| `UrlCodec.EscapedIsPlain` | oasmcp.go:145-145 | escaped values are made of unreserved characters, percent signs and what the position keeps |
| `UrlCodec.EscapedForm` | oasmcp.go:145-145 | which bytes are left as they are, and the two capital hexadecimal digits of the others |
| `UrlCodec.QueryRoundTrip` | oasmcp.go:154-154 | parsing an encoded query gives back the parameter map, for any order of the keys |
| `UrlCodec.CallbackRoundTrip` | oauth_fixtures.go:480-480 | a client that parses the redirect's query finds exactly the callback parameters |
| `UrlCodec.ParsedIsInhabited` | oauth_fixtures.go:409-409 | a parsed query has a value for each key, as `authorize` needs for `state[0]` |
| `Templates.SequentialIsSimultaneous` | oasmcp.go:143-146 | on templates in pieces the loop of `ReplaceAll` fills all declared holes at once |
| `Templates.LoopIsSinglePass` | oasmcp.go:143-146 | on every template, balanced or not, where no stray opening brace comes before a stray closing one, the loop is one left-to-right pass |
| `Templates.OrderIrrelevant` | oasmcp.go:143-146 | on such templates the order and repetition of parameters do not matter |
| `Templates.BalancedTemplates` | oasmcp.go:143-146 | both hold of every balanced template without nesting |
| `Templates.OrderMattersExactly` | oasmcp.go:143-146 | the order matters, for some brace-free names and values, if and only if the template has a stray opening brace before a stray closing one |
| `Templates.OnlyHolesMatter` | oasmcp.go:143-146 | only the values of placeholders that occur in the template matter |
| `Templates.EscapedIsBraceFree` | oasmcp.go:145-145 | escaped path values contain no brace, slash, question mark or hash |
| `Templates.FilledPathShape` | oasmcp.go:143-146 | the number of slashes is kept, and no brace remains when all placeholders are declared |
| `Templates.NestedBracesDependOnOrder` | oasmcp.go:143-146 | with nested braces the order decides |
| `ToolCalls.BuildToolFor` | oasmcp.go:85-133 | the binding lists one name per declaration at each location, in order; the schema requires exactly what some path or query parameter, or the body, requires, once per such declaration |
| `ToolCalls.RequiredExactly` | oasmcp.go:116-130 | a name is required if and only if a path or query parameter of that name is, or it is a body property in the body's required list |
| `ToolCalls.ShownAsDeclared` | oasmcp.go:105-115 | a parameter is shown with the schema of its last declaration |
| `ToolCalls.DescribedExactly` | oasmcp.go:109-114 | that schema is the declared one, with the parameter's description if it has none of its own |
| `ToolCalls.UpperExactly` | oasmcp.go:88-88 | the method in capitals |
| `ToolCalls.Contains` | oasmcp.go:299-306 | the search finds exactly the elements |
| `ToolCalls.BuildPath` | oasmcp.go:142-146 | the path is the iterated replacement |
| `ToolCalls.BuildQuery` | oasmcp.go:148-153 | the query has exactly the declared names that were given |
| `ToolCalls.BuildBody` | oasmcp.go:158-167 | the body is the map that `ToolCalls.SentBody` characterises |
| `ToolCalls.SentBody` | oasmcp.go:158-167 | an object is sent if and only if properties are declared, and a property is in it if and only if it is declared and was given, with the value given |
| `ToolCalls.Rebuild` | oasmcp.go:142-167 | the request is what the binding and the arguments describe |
| `ToolCalls.RebuildingLosesNothing` | oasmcp.go:142-167 | the upstream server that splits and decodes the request gets back exactly the path arguments, query arguments and body |
| `ToolCalls.ReceivedExactly` | oasmcp.go:142-167 | name by name, what the upstream server reads: placeholders with the text of their arguments, empty if not given; query parameters and body properties exactly if declared and given |
| `ToolCalls.QueryMarkExactly` | oasmcp.go:154-156 | there is a question mark if and only if some query parameter was given |
| `ToolCalls.ScalarTexts` | oasmcp.go:284-297 | the texts of strings, booleans and null |
| `ToolCalls.SchemaCoversBinding` | oasmcp.go:85-133 | the schema names exactly the arguments that the binding uses |
| `ToolCalls.EveryArgumentLands` | oasmcp.go:85-167 | an argument arrives, unchanged, if and only if it has a placeholder in the path, a query parameter or a body property; of what the schema names only declared path parameters missing from the template are lost |
| `ToolCalls.UnmentionedIsLost` | oasmcp.go:143-146 | for such a parameter the request is the same whatever its value |
| `ToolCalls.LosingOperation` | oasmcp.go:85-133 | an operation that requires an argument and loses it |
| `ToolNames.CamelToSnake` | oasmcp.go:269-282 | the loop computes the snake form |
| `ToolNames.SnakeIdempotent` | oasmcp.go:269-282 | converting twice is converting once, for all strings |
| `ToolNames.CamelOfSnake` | oasmcp.go:269-282 | on ids without underscore or leading capital the conversion can be undone |
| `ToolNames.SnakeInjective` | oasmcp.go:269-282 | distinct ids of this kind have distinct snake forms |
| `ToolNames.OtherIdsCollide` | oasmcp.go:269-282 | every id with a capital has a twin: the underscore form of an inner capital, the small letter of a leading one |
| `ToolNames.TwinsExactly` | oasmcp.go:269-282 | an id shares its name with another one if and only if it begins with a letter, or past the start has a capital or an underscore before a small letter |
| `ToolNames.CapitalFreeIdsDistinct` | oasmcp.go:269-282 | ids without capitals have distinct names, with or without underscores |
| `ToolNames.CamelToolsDistinct` | oasmcp.go:261-267 | tools of such ids have the same name if and only if the ids are the same |
| `ToolNames.SlugShape` | oasmcp.go:265-266 | a slug has no slash, no brace and no underscore at its ends |
| `ToolNames.BracesCollide` | oasmcp.go:265-266 | without ids, routes that differ in braces only share a name |
| `ToolNames.SlugToolsCollideExactly` | oasmcp.go:261-267 | two operations without ids share a name if and only if their methods agree and their paths do up to braces, slashes for underscores, and both at either end |
| `ToolNames.MixedToolsCollideExactly` | oasmcp.go:261-267 | an operation with an id and one without share a name if and only if the slug has no capital and the id leads to that name by spelling out its capitals, one at a time |
| `Orders.LookedUpIsNeverMissing` | main.go:237-239 | the error return after the decrement is never taken |
| `Orders.StockConserved` | store/store.go:267-308 | in every interleaving, stock plus quantities ordered minus quantities not yet decremented is constant, product by product |
| `Orders.RevenueConserved` | store/store.go:365-374 | in every interleaving, revenue is the value of what was sold and of what is still to be decremented |
| `Orders.RevenueIsStockSold` | main.go:235-237 | with nothing in flight, new revenue is price times stock gone, summed over the products |
| `Oversell.StockLowerBound` | main.go:229-238 | with at most n calls past the check, whatever the quantities, the stock never falls below -(n - 1) times its largest value along the run |
| `Oversell.InitialStockBound` | main.go:229-238 | without negative quantities that is -(n - 1) times the initial stock |
| `Oversell.SerialRunsNeverOversell` | main.go:229-238 | one call at a time never makes the stock negative, whatever the quantities |
| `Oversell.LowerBoundAttained` | main.go:229-238 | for every n and every store there is a run that reaches the bound |
| `Store.PostedAllKeepsStatuses` | store/store.go:202-221 | after any run of creations with new ids every post has a status and none is lost |
| `Store.HistogramMatchesListing` | store/store.go:348-357 | every histogram entry is the number of posts the listing by that status has |
| `Store.HistogramAfterAnyRun` | store/store.go:202-221 | so it is after any run of creations with new ids from the initial posts |
| `Store.HistogramGrows` | store/store.go:348-357 | one more post adds one to its status and nothing else |
| `Store.ListingLaws` | store/store.go:185-200 | no filter lists everything, each filter exactly its own, two filters what both list |
| `Store.AloneSections` | main.go:228-241 | which answer an order gets, and that a placed one costs price times quantity and takes the quantity off the stock |
| `Store.Store.constructor` | store/store.go:20-93 | starts with the three products and two posts, no two ids sharing a record |
| `Store.Store.UpdateProductStock` | store/store.go:267-278 | decrements one product in place, or reports it missing and changes nothing |
| `Store.Store.CreateOrder` | store/store.go:293-308 | adds one order |
| `Store.Store.ProcessOrder` | main.go:228-241 | without interference the closure does its four sections in a row |
| `Store.Store.GetTotalRevenue` | store/store.go:365-374 | the loop computes the revenue, whatever order the map is walked in |
| `Store.Store.GetPosts` | store/store.go:185-200 | every matching post once |
| `Store.Store.CreatePost` | store/store.go:202-221 | adds one post and leaves the others, with its own title, content and author, and `draft` for a missing status |
| `Store.HistogramSums` | store/store.go:342-357 | the entries of every histogram of the posts sum to their number |
| `Store.Store.GetPostCount` | store/store.go:342-346 | the number that the entries of any histogram of the posts sum to |
| `Store.Store.GetPostCountByStatus` | store/store.go:348-357 | the loop computes the histogram, whose entries sum to the number of posts |
| `Server.RegionKeepsInv` | oauth_fixtures.go:398-482 | every region keeps the invariant, from any state in which it holds |
| `Server.OAuthFixtures.constructor` | oauth_fixtures.go:78-91 | starts empty and valid |
| `Server.OAuthFixtures.Reset` | oauth_fixtures.go:672-690 | a DELETE empties everything and zeroes the counter, anything else changes nothing |
| `Server.OAuthFixtures.Record` | oauth_fixtures.go:139-151 | counts and captures the request |
| `Server.OAuthFixtures.IssueGrantLocked` | oauth_fixtures.go:579-587 | advances the counter twice and stores the two new tokens for the grant |
| `Server.OAuthFixtures.ExchangeCodeForTokens` | oauth_fixtures.go:526-554 | does to the fields and answers what the abstract exchange says |
| `Server.OAuthFixtures.ExchangeRefreshToken` | oauth_fixtures.go:556-577 | the same for refresh tokens |
| `Server.OAuthFixtures.Token` | oauth_fixtures.go:499-524 | keeps `Valid` and serves the request as its regions do in a row |
| `Server.OAuthFixtures.RegisterNewClient` | oauth_fixtures.go:206-250 | keeps `Valid` and serves the request as its regions do in a row, that is, as `Answers.RegistrationAnswered` says |
| `Server.OAuthFixtures.ManageExistingClient` | oauth_fixtures.go:252-284 | keeps `Valid` and serves the request as its regions do in a row, that is, as `Answers.ManagementAnswered` and `Answers.UpdateAnswered` say |
| `Server.OAuthFixtures.UpdateExistingClient` | oauth_fixtures.go:286-327 | commits exactly when the update is acceptable and the token read earlier is still current |
| `Server.OAuthFixtures.AuthorizeClient` | oauth_fixtures.go:398-413 | keeps `Valid` and serves the request as its regions do in a row |
| `Server.OAuthFixtures.Decide` | oauth_fixtures.go:414-481 | refuses, denies or mints as `Answers.AuthorizationAnswered` says, for the client as it was looked up |
| `Server.OAuthFixtures.RequireAccessToken` | oauth_fixtures.go:603-645 | keeps `Valid` and serves the request as its regions do in a row |

## Left out

- HTTP plumbing, middleware, logging, CORS, shutdown and environment reading: requests arrive parsed, and limits on body size show only as an unreadable body.
- The content of the two metadata documents, their `server_error`, and the endpoints that read counters and captures: they change nothing but the evidence, which is modelled.
- Response headers and the constant members of JSON answers.
- The MCP handler behind the bearer check, the MCP SDK, loading of OpenAPI documents and `schemaToMap`: an operation is a value, with the rendered schema of each property given.
- `doUpstreamCall`, the JSON text of a body and what is done with the upstream's answer: the model ends with the request that is sent.
- `identities` and `url.Parse`: their outcomes are parameters; SHA-256 is an arbitrary function to 32 bytes.
- `strval` on numbers and composite values: they come with their printed text, so that round trips are about that text.
- Go strings are sequences of bytes: in `UrlCodec` and `ToolCalls` a character stands for a byte; in `StrictJson` and `ToolNames` for a rune.
- The JSON lexer: a document is its list of members.
- `UrlCodec.Encode` takes the order of the keys as an argument; the library sorts them, and the theorems hold for every order.
- `Server.OAuthFixtures` runs one request at a time; interleaving is modelled on values in `Schedule`, with the same regions.
- Rounding of float64 prices and overflow of quantities: money is exact and integers are unbounded.
- Freshness of UUIDs: in `Orders` a step that would reuse an order id does not happen.
- The racy read of the stock is one atomic step of its own.
- Users, product filters, `GetAll…` listings, other analytics, `protocol_handler.go`, `cache_fixtures.go`, streaming, prompts, resources, e-mail and date tools: filters, one-branch routing or formatting, which would add only easy members.
