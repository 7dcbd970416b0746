# kube-signalhound board synchronizer, modelled in Dafny

This project models the part of kube-signalhound that files a test-failure
issue on the Kubernetes CI "signal" GitHub Projects v2 board
(`internal/github/github.go`). It covers four pieces.

- **Field discovery** (`GetProjectFields`). The board's custom fields arrive
  as typed GraphQL nodes: single-select, iteration, or any other type. They
  are normalised into `ProjectFieldInfo` records, and each single-select
  field's options are indexed by name.
- **Role resolution** (the first loop of `CreateDraftIssue`). Each of the
  four roles (K8s Release, View, Status, Testgrid Board) gets a field ID
  and an option ID, chosen by name heuristics. The release option with the
  newest version wins.
- **Version utilities.**
  - `extractVersion` pulls `major.minor` out of an option label.
  - `compareVersions` compares dotted versions part by part as integers.
- **Create, then update best-effort.** The draft item is created, then
  the update loop runs over the four roles in a fixed order. A failed
  update only produces a warning.

Modules follow the program's layers:

- `Wrappers`: `Option`, `Result`, `Outcome`.
- `Text`: `strings.ToLower`, `strings.Contains`, `strings.Split` on ".", and
  `strconv.Atoi`.
- `Versions`: `extractVersion` and `compareVersions`.
- `Discovery`: the node types and the normalisation loop.
- `Resolver`: the resolver loop, one specification function per role.
- `Drafts`: `CreateDraftIssue` and its update loop.

How the model treats what code cannot see:

- **Remote calls.** The GraphQL query, the draft-creation mutation and each
  field-update mutation are not executed. Their outcomes are inputs, given
  as a `Result` or `Outcome` per call. `CreateDraftIssue` returns the
  `Call`s it issues as a trace, together with the warnings it would print.
- **Map iteration order.** Go leaves the order of `range` over a map
  unspecified. The source ranges over a field's options once per role.
  Each of those passes is therefore an explicit input sequence (`Scans`,
  four per field). Under `ValidScans`, each sequence lists the field's
  option map exactly once. The resolver properties are proved for every
  such order.
- **Unset identifiers.** The eight role IDs are declared as `g4.ID`, an
  empty interface, so a role that is never resolved keeps the Go value
  `nil`. The model writes them as `Option<ID>`, with `None` for `nil`.
  Option and field identifiers that come from the server are strings.
- **The regular expression.** `v?(\d+)\.(\d+)` under Go's leftmost-first
  matching is written as a left-to-right scan. The result is the first
  maximal digit run followed by a dot and a digit, the dot, and the
  maximal digit run after the dot. The optional `v` never changes the
  captured groups.

The code returns plain wrapped error strings. `Discovery.Error` keeps
the two ways field discovery fails, and `Drafts.DraftError` the three
ways `CreateDraftIssue` fails, with the discovery error nested inside
as the code wraps it.

The methods follow the code as written throughout, including the update
guard at line 246, which lets `nil` IDs through (see "## Findings"). The
intended guard is modelled beside it, as `Drafts.Guard.Resolved`. The
properties of the update loop are proved for both guards.

## Model

| member | source | states |
|---|---|---|
| Text.Split | internal/github/github.go:273-274 | `strings.Split(v, ".")` gives at least one piece; no piece contains a dot, and joining the pieces with "." gives back the input |
| Text.SplitJoin | internal/github/github.go:273-274 | splitting a join of dot-free pieces gives back exactly those pieces, so the split is unique |
| Text.AtoiDecimal | internal/github/github.go:284-287 | `Atoi` reads a decimal numeral as its value, and also reads it with a leading "-" (negative) or "+" |
| Text.AtoiExamples | internal/github/github.go:284-287 | "-1" reads as -1, "+7" as 7 and "030" as 30; "", "-", "x1" and "1x" fail, and the ignored error leaves 0 |
| Text.EmptyIsContained | internal/github/github.go:188 | `strings.Contains(s, "")` holds for every `s` |
| Text.MissingCharNotContained | internal/github/github.go:152-196 | a text lacking one of the characters of `sub` does not contain `sub` |
| Text.ToLower | internal/github/github.go:149 | definition: `strings.ToLower` on ASCII letters, character by character |
| Text.Contains | internal/github/github.go:152-200 | definition: `strings.Contains(s, sub)` holds when `sub` occurs at some position of `s`, the end included |
| Text.Atoi | internal/github/github.go:284-287 | definition: `strconv.Atoi` with its error read as 0; its meaning is stated by `AtoiDecimal` and `AtoiExamples` |
| Versions.ExtractVersion | internal/github/github.go:262-268 | definition: the left-to-right scan for the first digit-dot-digit; its meaning is stated by `ExtractVersionSpec` |
| Versions.ExtractVersionSpec | internal/github/github.go:262-268 | the result is "" exactly when the text has no digit-dot-digit; otherwise it is the whole digit run before the leftmost such dot, the dot, and the whole digit run after it |
| Versions.ExtractVersionShape | internal/github/github.go:262-268 | a non-empty result is digits, one dot, digits (leading zeros kept) |
| Versions.FirstDotIndex | internal/github/github.go:264 | when some digit-dot-digit exists, a leftmost one exists |
| Versions.ExtractVersionExamples | internal/github/github.go:261-268 | "v1.32 stable" gives "1.32", "1.30" gives "1.30", "latest" gives "", and "v01.002" gives "01.002" |
| Versions.CompareParts | internal/github/github.go:281-298 | the padded part-by-part comparison returns only -1, 0 or 1 |
| Versions.Numbers | internal/github/github.go:273-287 | definition: each dot-separated part of a version read with `Atoi`, a malformed part reading as 0 |
| Versions.Compare | internal/github/github.go:272-299 | definition: the value `compareVersions(v1, v2)` returns, the padded comparison of the two part lists; its meaning is stated by `ComparePartsSpec` and `CompareVersionsOrder` |
| Versions.CompareVersions | internal/github/github.go:272-299 | the loop returns `Compare(v1, v2)`: the result of the first padded part where the integers differ, else 0; it is always -1, 0 or 1 |
| Versions.ComparePartsSpec | internal/github/github.go:276-296 | the comparison is 0 exactly when every padded part is equal; otherwise there is a first differing part, and the sign is the sign of that difference |
| Versions.CompareReflexive | internal/github/github.go:272-299 | a part list compares equal to itself |
| Versions.CompareAntisymmetric | internal/github/github.go:272-299 | swapping the arguments negates the result |
| Versions.CompareTransitive | internal/github/github.go:272-299 | "not older than" is transitive, and stays strict when either step is strict |
| Versions.CompareVersionsOrder | internal/github/github.go:270-299 | on version strings: `compareVersions(a, a) == 0`, `compareVersions(a, b) == -compareVersions(b, a)`, and the comparison is transitive |
| Versions.CompareExampleMinor | internal/github/github.go:270-299 | "1.30" is older than "1.31" |
| Versions.CompareExampleNumeric | internal/github/github.go:270-299 | "1.32" is newer than "1.4": parts compare as integers, not as text |
| Versions.CompareExamplePadding | internal/github/github.go:276-288 | "1.30" equals "1.30.0": a missing part counts as 0 |
| Versions.CompareExampleOlder | internal/github/github.go:270-299 | "1.30" is older than "1.32" |
| Versions.ShortRelease | internal/github/github.go:262-268 | a label `v<d>.<dd>` yields the label without its `v` |
| Discovery.OptionMap | internal/github/github.go:104-113 | definition: the option map built by inserting the options in list order; its meaning is stated by `OptionMapSpec` |
| Discovery.FieldOf | internal/github/github.go:106-119 | definition: the `switch` on `__typename`. A single-select node gives its ID, name and option map, an iteration node its ID, name and an empty map, and any other node nothing |
| Discovery.Normalize | internal/github/github.go:99-128 | definition: the list of fields for a list of nodes, node by node; its meaning is stated by `NormalizeKeeps` |
| Discovery.OptionMapSpec | internal/github/github.go:104-113 | the options map has exactly the option names as keys; a repeated name maps to the ID of its last occurrence |
| Discovery.NormalizeAppend | internal/github/github.go:99-128 | normalisation works node by node, so it distributes over concatenation |
| Discovery.NormalizeKeeps | internal/github/github.go:99-128 | one field per single-select or iteration node, in input order; every field comes from such a node; the output is never longer than the input |
| Discovery.DropsOther | internal/github/github.go:117-118 | a node of any other `__typename` contributes nothing wherever it sits, and causes no error |
| Discovery.IterationHasNoOptions | internal/github/github.go:114-116 | an iteration node becomes a field with an empty options map |
| Discovery.GetProjectFields | internal/github/github.go:60-129 | no client gives the nil-client error; a failed query gives the wrapped query error; otherwise the loop returns exactly the normalised fields |
| Resolver.Picks | internal/github/github.go:174-203 | definition: the option test of each role; Release is a non-empty `extractVersion`, View and Status are lower-cased substring tests, Board is the lower-cased option name inside the unchanged board string |
| Resolver.Keyword | internal/github/github.go:152-196 | definition: the lower-case text each role's field name must contain: "k8s release", "view", "status", "board" |
| Resolver.NameMatches | internal/github/github.go:149-196 | definition: a field serves a role when its lower-cased name contains the role's keyword |
| Resolver.Latest | internal/github/github.go:155-165 | definition: the `(latestVersion, latestVersionID)` pair after the release pass; its meaning is stated by `LatestSpec` |
| Resolver.RoleStep | internal/github/github.go:152-205 | definition: one field's effect on one role's IDs: a matching name sets the field ID; the value ID changes only when the field's pass finds an option, and for Release only to a non-"" ID |
| Resolver.ResolveRole | internal/github/github.go:145-206 | definition: one role's (field ID, value ID) pair after the loop has visited the fields in order, starting from `nil`, `nil`; its meaning is stated by `ResolvedFieldIsLastMatch`, `ResolvedValueIsSound` and `ResolvedValueFromLastField` |
| Resolver.Resolve | internal/github/github.go:145-206 | definition: the four roles' pairs, each resolved independently over the same fields |
| Resolver.FirstPick | internal/github/github.go:172-205 | a View, Status or Board pass finds nothing exactly when no option passes the role's test; otherwise it finds the first passing option in range order (the `break`) |
| Resolver.LatestSpec | internal/github/github.go:154-165 | the release pass finds a version exactly when some option has one, and returns that option's ID. The chosen version is not older than any option's version, and strictly newer than every earlier one. With no version, both results stay "" |
| Resolver.StepChoice | internal/github/github.go:152-205 | when a field's own pass sets the value, the value is an option of that field that the role accepts: a newest version for Release, a passing option otherwise. A pass over a field with a candidate always sets it |
| Resolver.ResolvedFieldIsLastMatch | internal/github/github.go:145-206 | a role's field ID is that of the last field whose lower-cased name contains the role's keyword; with no such field, both IDs stay `nil` |
| Resolver.ResolvedValueIsSound | internal/github/github.go:145-206 | a role's value ID is `nil` or an acceptable option of some field whose name matches the role, for every enumeration order |
| Resolver.ResolvedValueFromLastField | internal/github/github.go:148-206 | when the last matching field has a candidate option, the role gets that field's ID and a (non-`nil`) value from that same field |
| Resolver.NewestReleaseChosen | internal/github/github.go:152-169 | options "v1.30", "v1.32" and "stable" on a "K8s Release" field select "v1.32" in every enumeration order |
| Resolver.OnlyReleaseResolved | internal/github/github.go:145-206 | a board whose only field is "K8s Release" with option "v1.32" resolves the release role to that field and option, and leaves both IDs of View, Status and Testgrid Board `nil` |
| Resolver.OneFieldSeveralRoles | internal/github/github.go:148-206 | a field named "K8s Release Board" fills both the release role and the board role, because the four checks are independent |
| Resolver.StaleValueSurvives | internal/github/github.go:171-182 | a later View field whose pass finds nothing takes over the field ID but keeps the earlier field's option ID |
| Resolver.BoardMatchIsOneSided | internal/github/github.go:188 | the board string is not lower-cased: "" matches any board, "Master" matches "master-blocking", and "master" does not match "MASTER" |
| Resolver.EmptyBoardOptionMatchesAnyBoard | internal/github/github.go:184-193 | a board field whose only option has the empty name fills the board role with that option, whatever the board string |
| Resolver.ResolveTargets | internal/github/github.go:145-206 | the loop over the fields yields exactly the four pairs of the per-role specification `Resolve` |
| Resolver.StepRole | internal/github/github.go:152-205 | one role's block of the loop body does exactly one step of that role's specification |
| Resolver.FindLatestVersion | internal/github/github.go:155-165 | the release-option loop returns `(latestVersion, latestVersionID)` as `Latest` specifies |
| Resolver.FindOption | internal/github/github.go:175-181 | the option loop with `break` returns the first option that passes the role's test, or nothing |
| Drafts.UpdatePlan | internal/github/github.go:234-243 | the table has four entries; the entry at each role's fixed position carries that role's field ID, value ID and field name |
| Drafts.FormatID | internal/github/github.go:247 | definition: `fmt.Sprintf("%s", id)`, the identifier itself, or `%!s(<nil>)` for `nil` |
| Drafts.Sends | internal/github/github.go:246 | definition: the guard of an update. `AsWritten` compares each ID with "", so a `nil` ID passes; `Resolved` requires both IDs set |
| Drafts.CallFor | internal/github/github.go:247-252 | definition: the update mutation for one entry: the project and item IDs, the field ID as held, and the option ID formatted by `FormatID` |
| Drafts.UpdateCalls | internal/github/github.go:245-257 | definition: the update mutations sent for a table, in table order, one per entry the guard passes; its meaning is stated by `UpdateCallsSpec` |
| Drafts.Warnings | internal/github/github.go:245-256 | definition: the warnings for a table and the calls' outcomes, one per sent entry whose call failed, in table order; its meaning is stated by `WarningsSpec` |
| Drafts.GuardsDiffer | internal/github/github.go:246 | every entry the intended guard sends, the code's guard sends too; they differ exactly on entries with a `nil` ID and no "" ID |
| Drafts.UpdateCallsSpec | internal/github/github.go:245-257 | for either guard, exactly the entries it passes are sent: each once, in table order, at most one per entry; every call comes from such an entry with its option ID formatted |
| Drafts.WarningsSpec | internal/github/github.go:245-256 | for either guard, exactly the sent updates whose call failed are reported: each such entry gives the warning with its field name and the call's error, once and in table order (at the position counting the sent, failed entries before it); every warning comes from such an entry, and there are at most as many warnings as sent updates |
| Drafts.ResolvedCallsAreResolvedRoles | internal/github/github.go:234-257 | under the intended guard, every call is the update of a role whose two IDs are set, carrying those IDs, and every such role is updated |
| Drafts.AllFourUpdated | internal/github/github.go:234-257 | with all four roles resolved, both guards send four updates in the order K8s Release, View, Status, Testgrid Board. A failed Status update gives one warning, and the updates after it are still attempted |
| Drafts.UnresolvedRolesStillSent | internal/github/github.go:245-256 | with only the release role resolved, the code sends four updates; the three unresolved ones carry a `nil` field ID and the option text `%!s(<nil>)`, and a failed View update prints a warning |
| Drafts.ResolvedSkipsUnresolved | internal/github/github.go:245-256 | for the same targets, the intended guard sends only the release update and reports no warning for the unsent View update |
| Drafts.ApplyUpdates | internal/github/github.go:245-257 | the update loop sends exactly `UpdateCalls` and reports exactly `Warnings` under the code's guard; no outcome stops it early |
| Drafts.CreateDraftIssue | internal/github/github.go:133-259 | a missing client, failed discovery or failed creation returns the wrapped error, and no update mutation is sent. After a successful creation there is no error. The trace is the query, the creation, then the updates the code's guard passes for the resolved targets, in fixed order. The warnings are those of the update loop |

## Findings

| source | as written | input that shows it | evidently intended | confidence | as-written member | corrected member |
|---|---|---|---|---|---|---|
| internal/github/github.go:246 | The eight role IDs (lines 145-146) are `g4.ID`, an empty interface, so an unresolved one stays `nil`. The guard `update.fieldID != "" && update.optionID != ""` is true for `nil`, so updates for unresolved roles are sent, with a `nil` field ID and the option text `%!s(<nil>)` (line 247). `Resolver.OnlyReleaseResolved` gives the targets for the input; `Drafts.ApplyUpdates` and `Drafts.CreateDraftIssue` send what the guard passes | A board whose only field is "K8s Release", with option "v1.32"; draft creation succeeds. The code sends four updates instead of one | Send an update only for a role whose field ID and option ID were both resolved: the `Resolved` guard. `Drafts.ResolvedSkipsUnresolved` shows it on the same input | not executed | Drafts.UnresolvedRolesStillSent | Drafts.ResolvedCallsAreResolvedRoles |

## Left out

- `cmd/abstract.go` is not part of this model. It holds command-line flag wiring, the token lookup, TestGrid HTTP fetching and terminal rendering, all I/O over collaborators.
- The githubv4 and oauth2 clients, the GraphQL query and mutation structs and `context` are not modelled. Each remote call is represented only by its success-or-error outcome and by the `Call` recorded in the trace.
- The `fmt.Printf` warning on a failed update is recorded as a `Warning(fieldName, cause)` value rather than printed.
- The `fields(first: 50)` page limit of the query is enforced by the server. The model takes the returned nodes as given.
- `NewProjectManager`, the unused `fields` map of `ProjectManager`, and the hard-coded project and organisation constants are not modelled. The project ID is a field of `Drafts.ProjectManager`, and a nil client is the flag `hasClient`.
- Text.ToLower: lower-cases only the ASCII letters A-Z. Go's `strings.ToLower` also maps non-ASCII letters.
- Text.Atoi: works on unbounded integers. `strconv.Atoi` reports a range error for digit strings beyond 64 bits, which the source's ignored error turns into a clamped value (not 0). Such inputs are not modelled.
- Drafts.CreateDraftIssue: requires only one `Scans` value (four option sequences) per discovered field, and places no constraint on their contents. The per-role properties (`ResolvedValueIsSound`, `NewestReleaseChosen` and the others) are stated under `ValidScans`, which also requires each of those sequences to list its field's option map exactly once.
- Go's randomised map iteration order is not modelled as randomness: every enumeration allowed by `ValidScans` is covered.
- What the server does with an update that carries a `nil` field ID is not modelled. Its outcome is an input like any other call's.
