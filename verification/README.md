# Wafie control plane: a verified model

Wafie is a web application firewall for Kubernetes. An API server stores protections, routes and
ModSecurity rules. A gateway turns the protections into Envoy listeners and clusters. Relays next to
the protected pods redirect their traffic to the gateway. A processor loads the rules into the
ModSecurity engine. This project models the logic of these parts in Dafny and proves what they keep
up over every input and every run.

The parts and the modules that hold them:

- **SecLang rules.** `Text` (Go string primitives), `SecLang` (rules and the printer), `Tokenizer` and
  `Cutting` (components), `RuleParser`, `ActionList` (printing and splitting action lists), `LineEnds`,
  `RoundTrip`, `RoundTripQuoted`, `Layout`, `Spelling` (unquoted rules, failures).
- **The rule file as a log.** `RuleIds` (the id scan), `RuleLog` (the `CreateRule` call and its runs).
- **Desired state.** `Removal` (removal by recorded positions), `IpRules`, `Auth` (tokens through
  pointers, users), `AuthLaws`.
- **Ports, gateway, polling.** `Ports` (the listening port allocator), `Gateway` (listeners, clusters),
  `Polling` (version polling and the snapshot pipeline).
- **Relays.** `Nft` (the redirect table), `Relay` (start, stop and configure one after the other),
  `RelayMonitor` (the same steps interleaved with the health monitor), `RelayRefine` (the two
  against each other), `RelayLaunch` (processes without an address, crashes), `Routing` (database,
  gateway and relays together).
- **Ruleset watcher.** `Ruleset` (disk, loader, one tick), `RulesetLaws` (runs, restarts, keys),
  `RulesetFiles` (what the written files hold).

How the source is rendered:

- A loop becomes a method that is proved equal to a function; the laws are lemmas on that function.
  Objects with updated fields (`RuleObject`, `CrsRepository`, `Token`, `TokenAuth`, `BasicAuth`, `IPRules`,
  `PortRepository`, `SocatRelay`, `EnvoyControlPlane`, `Watcher`) are classes.
- A Go panic is an outcome of its own (`Panic`, or `None`), never a precondition.
- Strings are sequences of Unicode code points. Where the code compares a byte index with a byte
  length (the last piece of an action list), the number of bytes of a character is modelled.
- Database errors, DNS answers, failing writes and commands, random draws, md5 and the interleaving
  of goroutines are inputs. A concurrent protocol is a function from a state and a step to the next
  state, and its theorems range over all sequences of steps.

Where the code does not do what one would expect, the model follows the code, and a theorem says
exactly when the expectation holds:

- A rule survives printing and parsing if and only if `RuleFaithful` and `QuotesFit` hold: single quotes
  in action parameters are escaped by the printer and not unescaped by the parser, an action list that
  ends in a character of more than one byte loses its last piece, and double quotes in the actions are
  harmless only after a quoted operator that is not negated, with no space outside them
  (`RoundTripTheorem`, `ActionsRoundTrip`, `LoggedLine`).
- Removing by recorded positions is right if and only if at most one stored entry is listed, and only
  once (`SpliceTheorem`); otherwise it removes the wrong entries or panics (`SplicePanics`).
- Updating a password never takes effect, although the comment in the loop says it does
  (`PasswordUpdate`).
- All ten attempts of the port allocator try the same number (`SearchOutcome`).
- Polling keeps agents current if and only if list calls never fail and no write goes by without a new
  version (`PollingTheorem`). The upstream trigger in `apisrv/internal/models/assets/sql/triggers.sql`
  fires no new version for a change of the mirror policy.
- The redirect table always fits the relay's options if and only if the gateway name always resolves to
  the same address, because the health monitor and a start can interleave (`TableTheorem`), and, run one
  by one, if and only if no deletion fails that would be needed (`RunAgreesIff`). The socat process fits
  the options if and only if none is launched before an address is known (`ProcessTheorem`, `TwoStarts`).
  The relay crashes exactly when the monitor stops it before the first launch (`CrashTheorem`); a panic in
  a request, such as a stop before any start, is recovered by the HTTP server.
- With several gateway addresses, which the lookup picks from at random, a connection passes only one
  relay if and only if all relays of its application hold the same address; otherwise it can go back and
  forth any number of times (`OneRelayTheorem`, `BackAndForth`).
- Components lose text exactly when a quote that opens in the spaces after a component is never closed
  (`ConservationIff`).
- An unquoted operator runs up to the first component that looks like actions (`SpellingTheorem`), except
  that the component right after its name never counts as that (`SecondWordLikeActions`).
- After a restart over an existing disk the loaded rules agree with the server ever after if and only if
  the first tick sees every protection that has a directory (`RestartTheorem`); a failed list call, which
  counts as an empty list, is enough to miss it. A failed write is never
  made good (`FailedWriteStays`) and renamed rule files are not noticed (`RenameTheorem`).
- Cluster names are unique if and only if application names, mirrored names and the processor's name are
  apart (`UniqueNamesTheorem`).

## Model

| member | source | states |
|---|---|---|
| Tokenizer.SplitRuleIntoComponents | apisrv/pkg/seclang/parser.go:138-192 | the nested scanning loops end for every text and yield exactly the components of `Components` |
| Tokenizer.CollectQuoted | apisrv/pkg/seclang/parser.go:160-177 | the inner loop takes the quoted string up to its closing quote; an unclosed one is consumed and yields nothing |
| Tokenizer.ConservationTheorem | apisrv/pkg/seclang/parser.go:138-192 | with an even number of double quotes, the components concatenate to the text without exactly its unquoted spaces, and each is non-empty with an even number of quotes |
| Tokenizer.ComponentsPrefix | apisrv/pkg/seclang/parser.go:138-192 | for any text and any state of the loop, only a tail can get lost, and it is not empty exactly if the scan ends inside quotes that opened in a gap |
| Tokenizer.ConservationIff | apisrv/pkg/seclang/parser.go:138-192 | for any text, the components concatenate to the text without its unquoted spaces if and only if a five-state scan, character by character, does not end inside quotes that opened in the spaces directly after a component |
| Tokenizer.ScanParity | apisrv/pkg/seclang/parser.go:147-150 | that scan ends inside quotes exactly if the number of quotes is odd |
| Tokenizer.UnclosedExamples | apisrv/pkg/seclang/parser.go:155-177 | an unclosed quote after a space loses its text; one inside a component, or after a component that was itself taken from a gap, does not |
| Cutting.SpaceCut | apisrv/pkg/seclang/parser.go:151-158 | outside quotes a space cuts: the components of a text are those of both sides, one after the other, unless the right side goes on with a quote after a component |
| Cutting.QuoteCut | apisrv/pkg/seclang/parser.go:160-182 | a quoted string after a component and a space is a component of its own, and the next one begins right after its closing quote |
| Cutting.OneComponent | apisrv/pkg/seclang/parser.go:144-192 | text without a space outside quotes is one component |
| Cutting.WordsCut | apisrv/pkg/seclang/parser.go:138-192 | words joined by spaces are exactly the components |
| RuleParser.ParseVariables | apisrv/pkg/seclang/parser.go:195-228 | the loop over the parts computes `VariablesFrom`, empty parts skipped, an error when none is left |
| RuleParser.SplitActions | apisrv/pkg/seclang/parser.go:297-328 | the quote-aware loop computes `Pieces`, with the last piece kept only if the text ends in a one-byte character |
| RuleParser.ParseActions | apisrv/pkg/seclang/parser.go:257-294 | the loop computes `ActionsFrom`, with the panic on a parameter that is a lone quote |
| RuleParser.IsActionsLikePart | apisrv/pkg/seclang/parser.go:362-382 | the search computes `ActionsLike`, that one of the action prefixes occurs in the lower-cased part |
| RuleParser.FindOperator | apisrv/pkg/seclang/parser.go:70-98 | the search over the components computes operator text and first action component of `LocateOperator`; what that means is `Spelling.SpellingTheorem` |
| RuleParser.CleanLineContinuations | apisrv/pkg/seclang/parser.go:331-359 | the loop over lines computes `Clean` |
| RuleParser.ParseRule | apisrv/pkg/seclang/parser.go:22-135 | the parser computes `Parse`, with its errors and panics |
| Spelling.SpellingTheorem | apisrv/pkg/seclang/parser.go:70-98 | an unquoted operator of two or more words, none after the first action-like, followed by an action-like or last component: the rule reads as with the operator in quotes and that component as its actions, and what follows is ignored |
| Spelling.SecondWordLikeActions | apisrv/pkg/seclang/parser.go:80-97 | when the component right after the operator name looks like actions, the last component is taken for the actions and all between is the operator |
| Spelling.CaseIgnored | apisrv/pkg/seclang/parser.go:374-379 | the case of letters makes no difference to what looks like actions |
| Spelling.ShortSpelling | apisrv/pkg/seclang/parser.go:70-73 | with two or three components the second is the operator, in quotes or not |
| Spelling.OperatorSpelling | apisrv/pkg/seclang/parser.go:100-110 | quotes around an operator, inside its negation mark, do not change what it means |
| Spelling.ActionsSpelling | apisrv/pkg/seclang/parser.go:117-131 | quotes around an action list do not change what it means |
| Spelling.ParseSpelling | apisrv/pkg/seclang/parser.go:22-135 | for whole texts of words: the unquoted and the quoted spelling of a rule parse alike |
| Spelling.ParseUnquotedOperator | apisrv/pkg/seclang/parser.go:22-135 | ... and with the actions in quotes and only the operator unquoted |
| Spelling.KeywordOptional | apisrv/pkg/seclang/parser.go:33-36 | a rule parses alike with and without the SecRule keyword |
| Spelling.BarePattern | apisrv/pkg/seclang/parser.go:238-251 | an operator text that is no named operator is the regular expression operator with that text, as if @rx stood before it |
| Spelling.FailureTheorem | apisrv/pkg/seclang/parser.go:52-135 | for any components, exactly when the parser reports an invalid rule, missing variables or a missing operator, and exactly when it panics |
| Spelling.BlanksSkipped | apisrv/pkg/seclang/parser.go:203-207 | blank parts of a variable list and blank pieces of an action list make no difference |
| Spelling.PaddedAction | apisrv/pkg/seclang/parser.go:274-285 | white space around the name and the parameter of an action makes no difference |
| SecLang.ToModSecurityRule | apisrv/pkg/seclang/types.go:91-155 | the printing loops compute `RuleText` |
| SecLang.FirstNamed | apisrv/pkg/seclang/types.go:211-220 | the position of the first action of a name: earlier actions have other names |
| SecLang.RuleObject.AddAction | apisrv/pkg/seclang/types.go:211-220 | replaces the first action of the same name or appends, and changes nothing else |
| ActionList.PiecesInvertJoin | apisrv/pkg/seclang/parser.go:297-328 | splitting inverts the comma-join of non-empty pieces without an unquoted comma if and only if the last piece ends in a one-byte character |
| ActionList.RereadAction | apisrv/pkg/seclang/types.go:143-155 | what the parser makes of one printed action without single quotes: its name, and its parameter, trimmed if it was printed unquoted |
| ActionList.LostCharacter | apisrv/pkg/seclang/parser.go:321-324 | every action text that ends in a wide character is read with that character missing |
| ActionList.DroppedPiece | apisrv/pkg/seclang/parser.go:321-324 | no list whose printed text ends in a wide character survives |
| ActionList.KeptBackslashes | apisrv/pkg/seclang/parser.go:257-294 | the parser never drops a backslash from a list that ends in a one-byte character |
| ActionList.EscapedQuotes | apisrv/pkg/seclang/types.go:143-155 | no list with a single quote in a parameter survives |
| ActionList.ActionsRoundTrip | apisrv/pkg/seclang/types.go:104-155 | a non-empty list of well-named actions survives printing and parsing if and only if each is faithful and the text ends in a one-byte character |
| RoundTrip.VariablesRoundTrip | apisrv/pkg/seclang/parser.go:195-228 | printed variables are read back exactly if each one's name and collection agree |
| RoundTrip.OperatorRoundTrip | apisrv/pkg/seclang/parser.go:231-254 | the printed operator is read back with its negation, kind and parameter exactly if it is faithful |
| RoundTrip.PrintedComponents | apisrv/pkg/seclang/types.go:91-140 | the printed text of every printable rule without double quotes in its actions tokenizes into exactly two components, or three with actions, and which they are |
| RoundTrip.ParsePrinted | apisrv/pkg/seclang/parser.go:22-135 | parsing a printed rule on one line, which does not end in white space or a backslash, is reading its sections separately |
| RoundTrip.RaggedRoundTrip | apisrv/pkg/seclang/types.go:120-140 | a rule whose unquoted operator name has outer white space never survives |
| RoundTrip.PlainRoundTrip | apisrv/pkg/seclang/parser.go:22-328 | for every printable rule without double quotes, parsing the printed text gives back the rule, in variables, operator and ordered actions, if and only if it is faithful |
| RoundTripQuoted.FittingQuotes | apisrv/pkg/seclang/parser.go:138-192 | with double quotes in the actions: after a quoted operator that is not negated, actions without a bare space are still read as one component |
| RoundTripQuoted.TooManyQuotes | apisrv/pkg/seclang/parser.go:62-110 | components that put more quotes into the operator than an outer pair never give back an operator without quotes |
| RoundTripQuoted.RoundTripTheorem | apisrv/pkg/seclang/parser.go:22-328 | for every printable rule, with or without double quotes in its actions, parsing the printed text gives back the rule if and only if it is faithful and its quotes fit |
| LineEnds.ParsedOneLine | apisrv/pkg/seclang/parser.go:22-36 | whatever the text, a parsed rule has no line end in its variables, operator or actions |
| Layout.CleanLayout | apisrv/pkg/seclang/parser.go:331-359 | any arrangement of trimmed pieces with indentation, continuation backslashes and blank lines cleans to the pieces joined by one space |
| Layout.ParseIsClean | apisrv/pkg/seclang/parser.go:22-36 | parsing sees a text only through its cleaned line, outer white space included |
| Layout.LayoutIndependence | apisrv/pkg/seclang/parser.go:22-36 | two arrangements of the same pieces parse to the same result, errors included |
| RuleIds.NextRuleId | apisrv/internal/models/crs.go:275-293 | the result is 1 without a match, otherwise the largest number found plus one, and the error exactly if some number found does not fit in an int |
| RuleIds.NextTheorem | apisrv/internal/models/crs.go:275-293 | the same of the function the log is built on |
| RuleIds.ValueOfDecimal | apisrv/internal/models/crs.go:113-122 | reading the decimal text of a number gives the number |
| RuleIds.FoundIff | apisrv/internal/models/crs.go:276-277 | the regular expression scan finds exactly the numbers that stand somewhere in the text after id: and white space, with no digit after them |
| RuleIds.FindAllAppend | apisrv/internal/models/crs.go:276-277 | the matches in a text with a separate one appended are those of the two |
| RuleLog.CrsRepository.CreateRule | apisrv/internal/models/crs.go:101-132 | one call on the stored files: it creates exactly if the file is known, its ids fit and all rules parse; then it replaces that file's content by that of `Call`; otherwise all files stay |
| RuleLog.CreatedIff | apisrv/internal/models/crs.go:101-132 | a call creates if and only if every id in the file fits in an int and every rule parses, and otherwise leaves the text unchanged |
| RuleLog.RejectedAt | apisrv/internal/models/crs.go:116-120 | the first rule that does not parse decides the answer |
| RuleLog.AppendedText | apisrv/internal/models/crs.go:116-126 | a batch adds one line per rule under one id, or fails with the first rule that does not parse |
| RuleLog.CallEffect | apisrv/internal/models/crs.go:101-132 | a created batch is the old text followed by its lines under the next id; anything else leaves the text unchanged |
| RuleLog.LogShape | apisrv/internal/models/crs.go:101-132 | over any run of calls the file is the initial text followed by what each call added |
| RuleLog.LinesFound | apisrv/internal/models/crs.go:113-122 | the lines of a batch keep every id found before and show the new one |
| RuleLog.IdFresh | apisrv/internal/models/crs.go:113-122 | the id of a call exceeds every id found before it |
| RuleLog.IdsIncrease | apisrv/internal/models/crs.go:101-132 | in any run, of two calls that create something the later has the larger id, so ids of different calls never collide |
| RuleLog.LoggedLine | apisrv/internal/models/crs.go:116-126 | a logged line reads back as the submitted rule with only its first id replaced or appended, if and only if the rule is loggable |
| RuleLog.LogLines | apisrv/internal/models/crs.go:101-132 | after any run of calls, the lines of the file are the lines it had, followed by exactly one line for each rule of each created batch, in order |
| RuleLog.LogEntry | apisrv/internal/models/crs.go:101-132 | every rule of every created batch is a line of the file after the initial ones, printed under the id of its call; it reads back with the same variables and operator, and with only the first id action replaced or appended, exactly if the rule is loggable |
| Removal.RecordMatches | apisrv/internal/models/protection.go:255-264 | the nested loops record, in ascending order, each stored position once per matching removal |
| Removal.SpliceOut | apisrv/internal/models/protection.go:265-268 | splicing the recorded positions out one after the other is `Splice`, a panic when one is out of range |
| Removal.SpliceWrong | apisrv/internal/models/protection.go:255-268 | with two or more recorded positions, splicing never gives the filtered list |
| Removal.SpliceTheorem | apisrv/internal/models/protection.go:255-268 | splicing equals filtering if and only if at most one stored entry is listed for removal, and that one only once |
| Removal.SplicePanics | apisrv/internal/models/protection.go:265-268 | it panics if and only if some recorded position lies beyond what is left by then |
| Removal.ShiftedTheorem | apisrv/internal/models/protection.go:255-268 | moving the j-th position left by j makes the removal right for any number of matches |
| Removal.SpliceDistinct | apisrv/internal/models/protection.go:323-336 | splicing never makes duplicates |
| IpRules.RemoveIPs | apisrv/internal/models/protection.go:761-774 | the loops filter out the listed addresses |
| IpRules.AddIPs | apisrv/internal/models/protection.go:732-759 | the loops keep what is not listed and append the listed addresses once each |
| IpRules.IPRules.Merge | apisrv/internal/models/protection.go:396-434 | the allow list becomes the old one minus the removed plus the added of the request's allow lists, the block list likewise of its block lists |
| IpRules.MergeTheorem | apisrv/internal/models/protection.go:396-434 | both lists as sets and in order, in the fields of the request |
| IpRules.AppendNewFresh | apisrv/internal/models/protection.go:746-757 | new addresses follow in request order |
| IpRules.MergeElems | apisrv/internal/models/protection.go:396-434 | as sets, a list becomes the old minus the removed plus the added |
| IpRules.MergeShape | apisrv/internal/models/protection.go:732-774 | the order: what is neither removed nor added, then the added addresses once each |
| IpRules.MergeIdempotent | apisrv/internal/models/protection.go:396-434 | applying a request twice gives the same sequence as once |
| IpRules.MergeDistinct | apisrv/internal/models/protection.go:396-434 | a merge keeps a list free of duplicates |
| IpRules.RunDistinct | apisrv/internal/models/protection.go:396-434 | both lists stay free of duplicates over any run of requests |
| Auth.Token.Update | apisrv/internal/models/protection.go:364-378 | a stored token takes the fields the request sets and keeps the others and its name |
| Auth.TokenAuth.PatchStored | apisrv/internal/models/protection.go:363-378 | updating through pointers changes the tokens of the requested name and no other object |
| Auth.TokenAuth.UpsertToken | apisrv/internal/models/protection.go:361-394 | one requested token: patched in place, or appended when missing |
| Auth.TokenAuth.RemoveTokens | apisrv/internal/models/protection.go:350-360 | removal by recorded positions on the pointers acts on the values as `Splice` does |
| Auth.TokenAuth.Merge | apisrv/internal/models/protection.go:311-394 | the whole request acts on the stored value as `MergedToken`, or panics; header and switch are set as requested |
| Auth.AddUsers | apisrv/internal/models/protection.go:294-308 | the loops append the missing users; the password assigned to the loop's copy is lost |
| Auth.BasicAuth.Merge | apisrv/internal/models/protection.go:250-308 | the whole basic-auth request acts on the stored value as `MergedBasic`, or panics |
| AuthLaws.UpsertIsPut | apisrv/internal/models/protection.go:361-394 | on distinct names, one upsert is a per-field put into the map of tokens |
| AuthLaws.UpsertAllIsPuts | apisrv/internal/models/protection.go:361-394 | all upserts are the puts in request order, new names at the end |
| AuthLaws.KeptMap | apisrv/internal/models/protection.go:350-360 | filtering the tokens is removing their names from the map |
| AuthLaws.TokenMergeTheorem | apisrv/internal/models/protection.go:311-394 | when at most one stored entry matches the removals in each list, the merge does not panic; the tokens are the stored ones not removed and the requested ones; validity, description of each are the last value the request writes, else the stored one, else nothing; names, paths, header and switch come out in order |
| AuthLaws.MergedDistinct | apisrv/internal/models/protection.go:311-394 | a merge that does not panic keeps tokens and paths free of duplicates |
| AuthLaws.RunTokensDistinct | apisrv/internal/models/protection.go:311-394 | ... over any run of requests |
| AuthLaws.PasswordUpdate | apisrv/internal/models/protection.go:294-308 | a stored user has the requested password afterwards if and only if it had it before |
| AuthLaws.AddedUsersNames | apisrv/internal/models/protection.go:294-308 | stored users stay as they are and the missing ones follow in request order, once each |
| AuthLaws.AddedUsersFirst | apisrv/internal/models/protection.go:294-308 | a new user has the password of the first request for it |
| AuthLaws.BasicMergeTheorem | apisrv/internal/models/protection.go:250-308 | when at most one stored path and user match the removals, the merge does not panic, keeps the other users with their passwords, filters and extends the paths, and appends the missing users |
| Ports.ProxyPortAllocator | apisrv/internal/models/port.go:166-186 | the attempt loop ends and computes `Search` |
| Ports.SearchOutcome | apisrv/internal/models/port.go:166-186 | the search finds a port if and only if its first query works and the drawn number is free, and then it is the drawn number |
| Ports.PortRepository.SavePorts | apisrv/internal/models/port.go:57-94 | a successful save stores every desired port under this upstream and ingress with its name, status, description and, unless a container port, listening port; any save leaves other rows alone |
| Ports.SaveTheorem | apisrv/internal/models/port.go:57-94 | the same of the function that runs are built on |
| Ports.SaveOneRow | apisrv/internal/models/port.go:162-217 | one row: the listening port of a container row is the stored one or the drawn number, all else as requested |
| Ports.FailedSave | apisrv/internal/models/port.go:73-93 | a save that fails has saved exactly the ports before the failing one |
| Ports.SaveOneKeeps | apisrv/internal/models/port.go:162-217 | a saved row keeps the invariant: container rows listen in [49152, 65535), no two on the same port; and no stored port changes |
| Ports.SaveFromKeeps | apisrv/internal/models/port.go:57-94 | ... for a list of rows, also one that fails half way |
| Ports.RunKeeps | apisrv/internal/models/port.go:57-94 | ... over any run of saves |
| Ports.SaveOneFails | apisrv/internal/models/port.go:162-217 | saving a container row fails if and only if a query fails or the row is new and the drawn number is in use |
| Gateway.ProtectionContainerPort | gateway/pkg/controlplane/utils.go:19-26 | the search returns the container port of the first ingress that no other precedes, or the error when there is none |
| Gateway.BuildListeners | gateway/pkg/controlplane/state.go:297-333 | one slot per protection, empty without a container port; a panic exactly when a protection has no application or ingress |
| Gateway.ListenerContents | gateway/pkg/controlplane/state.go:171-206 | a listener binds the listening port of the first container port, carries the protection, sends to the application's cluster, names the mirror cluster exactly if the policy is enabled and the processor exactly if the protection is on |
| Gateway.ContainerPortsEndpoints | gateway/pkg/controlplane/state.go:369-379 | the nested loops compute the targets, endpoints by container ports |
| Gateway.BuildClusters | gateway/pkg/controlplane/state.go:381-415 | the loop computes the clusters of all complete protections and the processor's cluster |
| Gateway.ClustersExactly | gateway/pkg/controlplane/state.go:381-415 | the built clusters are exactly: per protection its endpoints at its container ports, the mirror by DNS name or address if enabled, and the processor's |
| Gateway.SnapshotClosure | gateway/pkg/controlplane/state.go:171-206 | every cluster that a built listener names in its route, its mirrors and its processing filter is among the built clusters, and exactly protections that are on have the filter |
| Gateway.TargetCount | gateway/pkg/controlplane/state.go:369-379 | a cluster has as many targets as endpoints times container ports |
| Gateway.TargetAt | gateway/pkg/controlplane/state.go:369-379 | which target stands where |
| Gateway.TargetIff | gateway/pkg/controlplane/state.go:369-379 | the targets are exactly the listed endpoints at the listed container ports |
| Gateway.UniqueNamesTheorem | gateway/pkg/controlplane/state.go:381-422 | built cluster names are unique if and only if application names differ and none is another's mirrored name or the processor's name |
| Nft.RulesState | relay/pkg/relay/nftables.go:78-114 | the search tells whether the chain holds a rule of this table |
| Nft.AppliedIffPresent | relay/pkg/relay/nftables.go:54-114 | on a table with a single rule and address, the state probe tells exactly whether it is there |
| Nft.ProgrammedEffect | relay/pkg/relay/nftables.go:116-128 | adding gives the table with one rule and one address for the options, and never touches a table that is there |
| Nft.UnprogrammedEffect | relay/pkg/relay/nftables.go:130-132 | deleting removes the whole table, or fails and leaves it |
| Relay.SocatRelay.StartRelay | relay/pkg/apisrv/srv.go:58-72 | the options afterwards are the requested ones, in name and all ports; a call whose deletion works keeps the agreement: table absent or exactly that of the current options, and a process launched with an address forwards as they say; also when the call panics |
| Relay.StartFollows | relay/pkg/relay/socat.go:116-139 | a start leaves the name and ports it was asked for, whatever state it finds and whatever fails |
| Relay.StartAgain | relay/pkg/relay/socat.go:41-49 | a start that asks for what a running relay already does changes nothing |
| Relay.SocatRelay.StopRelay | relay/pkg/apisrv/srv.go:79-88 | a stop call whose deletion works leaves neither process nor table, panics exactly if nothing was ever launched, and keeps the options exactly if an address is known |
| Relay.NextAgrees | relay/pkg/relay/socat.go:116-139 | every start, stop, reconfiguration and health restart whose deletion works keeps the agreement |
| Relay.RunAgrees | relay/pkg/relay/socat.go:116-264 | over any sequence of them, with lookups, launches and additions failing at will, the table is absent or holds one rule and one address, those of the current options, and a process launched with an address fits them |
| Relay.NextAgreesIff | relay/pkg/relay/socat.go:237-263 | with failing deletions too: a step keeps the agreement if and only if it does not leave a table that misfits the options it goes on with |
| Relay.RunAgreesIff | relay/pkg/relay/socat.go:116-264 | over any sequence at all, the agreement holds throughout if and only if no step leaves such a table |
| Relay.ReconfigureIff | relay/pkg/relay/socat.go:41-49 | after a changed configuration the table fits the new options if and only if the old table could be deleted or was the wanted one already |
| Relay.StartEffect | relay/pkg/relay/socat.go:187-226 | what a start whose commands work leaves: the requested options at the address looked up, or the known one when nothing changed; the process of these options exactly unless one without an address is still running, the table exactly unless socat was running without one, both unless the start reconfigures |
| Relay.RestartEffect | relay/pkg/relay/socat.go:98-102 | what a health restart whose commands work leaves: the options at the new address, or the old one when the lookup fails, with their process and table |
| Relay.TwoStarts | relay/pkg/relay/socat.go:141-191 | a start whose lookup fails, then the same start with an answer: socat goes on forwarding to no address, and there is no table |
| RelayMonitor.NextHandoff | relay/pkg/relay/socat.go:82-114 | every step of the monitor or of the running call keeps the hand-off invariant |
| RelayMonitor.HandoffTheorem | relay/pkg/relay/socat.go:82-114 | in every interleaving, from a stop's hand-off to the next start's the monitor is switched off at its select, and a stop cleans up only in that time |
| RelayMonitor.NoRestartBetween | relay/pkg/relay/socat.go:82-114 | in every run, no step between a stop's hand-off and the next start's is a check or a restart of the monitor |
| RelayMonitor.StaysStopped | relay/pkg/relay/socat.go:228-268 | in every run, after a stop has deleted the table there is neither process nor table until a start has handed off: the monitor never revives a stopped relay |
| RelayMonitor.MonitorIdleWhenHandedOff | relay/pkg/relay/socat.go:168-174 | after the hand-off no monitor step changes anything |
| RelayMonitor.RunKeeps | relay/pkg/relay/socat.go:82-268 | with one address per name, in every interleaving the table, and a process launched with an address, fit the options whenever no reconfiguration is under way, crashed runs included |
| RelayMonitor.Race | relay/pkg/relay/socat.go:98-102 | with two addresses for one name there is an interleaving after which the table holds the other address than the options |
| RelayMonitor.TableTheorem | relay/pkg/relay/socat.go:82-268 | this holds in all interleavings if and only if every name resolves to a single address |
| RelayRefine.StartRefines | relay/pkg/relay/socat.go:228-231 | a start that nothing interrupts does, step by step, what the start call does as a whole |
| RelayRefine.StopRefines | relay/pkg/relay/socat.go:265-268 | ... and a stop |
| RelayRefine.StopRefinesPanic | relay/pkg/relay/socat.go:237-242 | ... also when the stop panics because nothing was ever launched |
| RelayRefine.BeatRefines | relay/pkg/relay/socat.go:88-105 | a beat of the monitor that nothing interrupts restarts the relay exactly when it is switched on, an address is known, the namespace is there and the proxy does not answer; stops it and exits when the namespace is gone; and else does nothing |
| RelayRefine.OptionsFollow | relay/pkg/relay/socat.go:116-139 | in every interleaving the options are those of the last start request, in name and all ports, unless a later stop dropped them |
| RelayLaunch.LeftBehind | relay/pkg/relay/socat.go:187-191 | after any launch without an address, a start whose lookup works leaves a process that misfits the options |
| RelayLaunch.ProcessTheorem | relay/pkg/relay/socat.go:82-268 | with one address per name, in every interleaving: the process fits the options at every point of the run, and goes on to while launches have an address, if and only if no request of the run launches one without an address |
| RelayLaunch.CrashTheorem | relay/pkg/relay/socat.go:237-242 | a run of interleaved steps ends in a crash if and only if its last step is a kill by the monitor and nothing was launched before it |
| RelayLaunch.CrashExample | relay/pkg/relay/socat.go:92-102 | such a run: the proxy is found away while the first start is still under way |
| Polling.EnvoyControlPlane.StateVersionChanged | gateway/pkg/controlplane/cp.go:100-121 | reports a change exactly on a new version, which it records, and nothing on an error |
| Polling.NextKeeps | gateway/pkg/controlplane/cp.go:123-167 | every step keeps: builds travel in order without loss or doubling, and an unchanged version means a current build |
| Polling.RunKeeps | gateway/pkg/controlplane/cp.go:123-167 | ... over any run |
| Polling.PollingSound | gateway/pkg/controlplane/cp.go:100-149 | in any run, when the version is unchanged, its list call has succeeded and nothing was written silently, the last build is of the current protections |
| Polling.SnapshotsFollow | gateway/pkg/controlplane/cp.go:137-167 | installed snapshots are the accepted builds in build order, and all of them once nothing is in flight and none was refused |
| Polling.NothingBuilt | gateway/pkg/controlplane/cp.go:123-149 | a missed list or a silent write is never made up for before the next new version |
| Polling.ListFailureExample | gateway/pkg/controlplane/cp.go:112-145 | after a failed list call the version is recorded although nothing was built |
| Polling.SilentWriteExample | apisrv/internal/models/assets/sql/triggers.sql:17-46 | after a write without a new version the last build is no longer current |
| Polling.PollingTheorem | gateway/pkg/controlplane/cp.go:100-149 | an idle agent with the current version has built the current protections in all runs if and only if list calls never fail and every write brings a new version |
| Polling.CatchUp | gateway/pkg/controlplane/cp.go:123-167 | from any state of the pipeline, an agent that is behind can catch up by its own steps until the current protections are installed last |
| Polling.WriteReachesSnapshot | gateway/pkg/controlplane/cp.go:100-167 | in any run, whatever failed before, a write with a new version can be followed up to its installation |
| Routing.DistinctListeners | apisrv/internal/models/protection.go:703-720 | listeners built for different applications from the port table bind different ports |
| Routing.DistinctAfterSaves | apisrv/internal/models/port.go:57-94 | ... after any run of saves from an empty table, and in the dynamic range |
| Routing.OptionsIff | relay/pkg/control/controller.go:121-136 | a relay gets no options exactly if its protection is on without a container port; options of a protection that is not on never resolve to an address |
| Routing.RelayAgreement | relay/pkg/control/controller.go:121-136 | after any run of saves, the port a relay forwards to is bound for its own protection and for no other |
| Routing.DatabasePortsApart | gateway/pkg/controlplane/state.go:297-333 | a list of distinct applications has pairwise distinct listeners |
| Routing.HopDecreases | relay/pkg/relay/nftables.go:173-185 | where every table exempts every gateway, each hop of each connection decreases a measure, whatever target is picked |
| Routing.SingleExempt | relay/pkg/relay/nftables.go:116-128 | with a single gateway address and relays in the state that all their runs keep, every table exempts every gateway |
| Routing.AtMostOnce | relay/pkg/relay/nftables.go:116-128 | with a single gateway address, every walk of every connection enters at most one relay and the gateway at most once |
| Routing.GatewayForwards | gateway/pkg/controlplane/state.go:171-206 | the gateway sends what arrives on a protection's port to a target of that protection's application |
| Routing.OnePass | relay/pkg/relay/socat.go:193-202 | with a single gateway address, a connection to the protected port of a pod with its relay is redirected once, passes the gateway once and ends at a listed endpoint and container port of the same application |
| Routing.BackAndForth | relay/pkg/relay/socat.go:157-161 | two relays of one application with different gateway addresses: for every n there is a walk of a connection from outside that enters n relays and n times a gateway |
| Routing.OneRelayTheorem | relay/pkg/relay/socat.go:157-161 | with any number of gateway addresses, for an application whose endpoints all have their relay: no walk from outside enters more than one relay if and only if all those relays hold the same gateway address |
| Ruleset.RuleSetMD5 | xproc/pkg/modsec/modsec.go:145-153 | the loop computes the key, the digest of the files' digests |
| RulesetLaws.DigestTextConcat | xproc/pkg/modsec/modsec.go:145-153 | the digests enter the key in the order of the files |
| Ruleset.Watcher.WriteRules | xproc/pkg/modsec/modsec.go:155-210 | writes the files unless the directory has any; asks for a reload exactly if all of them were written; what the files then hold is `RulesetFiles.WrittenFile` |
| Ruleset.Watcher.CleanupRules | xproc/pkg/modsec/modsec.go:232-257 | removes exactly the other directories of each reloaded protection |
| Ruleset.Watcher.Turn | xproc/pkg/modsec/modsec.go:267-315 | one turn of the loop is `Tick` |
| RulesetLaws.TickEstablishes | xproc/pkg/modsec/modsec.go:267-315 | a tick without write failures leaves only loaded directories, each with exactly the files it was written from, if they were loaded before or the first tick mentions them |
| RulesetLaws.TickAgrees | xproc/pkg/modsec/modsec.go:267-315 | after such a tick, each active protection is loaded from the directory of its current key, and that is its only directory |
| RulesetLaws.QuietTick | xproc/pkg/modsec/modsec.go:155-204 | a tick whose directories are all there writes, reloads and removes nothing |
| RulesetLaws.TickIdempotent | xproc/pkg/modsec/modsec.go:267-315 | two ticks on the same content are one |
| RulesetLaws.RulesetTheorem | xproc/pkg/modsec/modsec.go:145-315 | from an empty disk, after any run of ticks the copy agrees with what the last tick fetched, whatever came before, and a further tick changes nothing |
| RulesetLaws.RestartTheorem | xproc/pkg/modsec/modsec.go:267-315 | from an existing disk, agreement holds in all further runs if and only if the first tick mentions every protection that has a directory |
| RulesetLaws.KeyTheorem | xproc/pkg/modsec/modsec.go:145-153 | without collisions among the texts at hand, two rule sets have the same key if and only if they have the same contents in order |
| RulesetLaws.CurrentContent | xproc/pkg/modsec/modsec.go:178-210 | where the copy agrees and names are unchanged, the loaded directory holds exactly the server's current files with the base path filled in |
| RulesetFiles.ReplaceTheorem | xproc/pkg/modsec/modsec.go:206-210 | replacing puts the text in place of every mark and changes nothing else, for a mark that does not overlap itself |
| RulesetFiles.MarkParts | xproc/pkg/modsec/modsec.go:206-210 | every text is parts without the mark joined by the mark, so that covers all texts |
| RulesetFiles.WrittenFile | xproc/pkg/modsec/modsec.go:192-210 | a written file is the server's text with every base path mark replaced by the path of its directory |
| RulesetFiles.WrittenNothingElse | xproc/pkg/modsec/modsec.go:192-202 | a written directory has no other names |
| RulesetFiles.PathTextInjective | xproc/pkg/modsec/modsec.go:259-265 | directories of different protections or keys have different paths |
| RulesetFiles.CurrentFile | xproc/pkg/modsec/modsec.go:178-210 | where the copy agrees and names are unchanged, every file of the server is in the loaded directory with its marks replaced |
| RulesetLaws.ReloadIff | xproc/pkg/modsec/modsec.go:298-312 | rules are loaded if and only if this is the first tick or some directory was written whole; then every listed protection with rules is loaded from its directory |
| RulesetLaws.SkippedUntouched | xproc/pkg/modsec/modsec.go:276-296 | a protection that is not listed, cannot be fetched or has no single active version with rule files keeps its directories and what is loaded for it |
| RulesetLaws.RenameTheorem | xproc/pkg/modsec/modsec.go:145-176 | renamed files with unchanged contents: the tick changes nothing, and the directory is that of the server's files if and only if the new names give every name the text it had |
| RulesetLaws.SameFilesNames | xproc/pkg/modsec/modsec.go:192-202 | among distinct names with distinct texts, that is only so if all names are the same |
| RulesetLaws.NeverRewritten | xproc/pkg/modsec/modsec.go:155-176 | a directory with anything in it stays as it is over any run with the same content |
| RulesetLaws.FailedWriteStays | xproc/pkg/modsec/modsec.go:192-204 | a write that fails after the first file leaves, over any such run, only the files before the failure |

## Left out

- RoundTripTheorem: rules with a double quote in the operator are outside `Printable`; the printer writes such quotes as they are, and what they cut off can be joined to the operator again or not, depending on the components that follow.
- LoggedLine: the same restriction; `LogShape`, `LogLines`, `IdFresh` and `IdsIncrease` hold for all rules.
- TokenMergeTheorem: requests that match more than one stored entry are covered by `SpliceTheorem` and `MergedDistinct` only.
- BasicMergeTheorem: the same for its paths and users.
- StateVersionChanged: the relay controller has the same method with the same lines; it is modelled once, for the gateway.
- Invalid UTF-8: strings are sequences of code points.
- `ValidateRule`, `RemoveAction`, `UpdateAction` and the `String` methods of the SecLang types: one-branch readings.
- The merges of `AntiBot`, `CaptchaV2` and `Waf`: plain field assignments, some of which dereference a missing value.
- Database access: tables are maps, a hook with its insert is one step, transactions around several repositories are not modelled.
- The unused id range of the rule file and `deleteUnexistingPorts`, whose deletion is commented out.
- Envoy details that carry no reference to another resource (timeouts, TLS, header mutations, discovery types).
- The goroutine that starts the socat process is part of the start step. A socat command that cannot be started at all, whose missing process that goroutine dereferences, and a start request without options are not modelled.
- An nftables transaction that carries an empty address is taken to be rejected as a whole.
- Kubernetes informers, container runtime and network namespace calls, and the deployment and removal of relay pods by the controller.
- A rules directory that was created before its first file could not be written counts as absent, and a protection listed twice in one tick is taken in list order, where the source goes through a Go map.
- The C loader behind the ruleset watcher is taken to replace the loaded path of each protection it is given; its own errors are not modelled.
- Rendering of rule templates on the server, and md5 itself, which is any function of texts with results of fixed length.
- The external processing server, audit log rotation, the command line tools, logging and proto conversions.
