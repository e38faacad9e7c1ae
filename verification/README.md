# Verified models of the CLI, release and contract tooling

A Dafny project beside the repository. It models the parts of the command-line tool, of its MCP
server and of the contract and release scripts whose correctness is not visible in one function
body, and proves what they promise for every input, every chunking, every run.

`dafny verify dfyconfig.toml` checks all of it.

| module | what it models |
|---|---|
| `ContractDefaults` | filling schema defaults into request examples, over acyclic `$ref`/`anyOf` graphs |
| `UrlText` | percent-encoding of components and query strings, and reading them back |
| `ContractUrls` | two-level parameter merge, path-template expansion, the request half of a fixture |
| `ContractPatch` | adding two event types to the `oneOf` unions of the Runs contract |
| `VersionText`, `DenoVersion`, `SemVer` | version rewriting in source text and in deno.json, and the version bump |
| `JsonText`, `DenoJson`, `Release` | what `JSON.parse` reads as the version of deno.json, before and after a release |
| `LogSanitizer` | making remote text safe to log, in UTF-16 code units |
| `StdioJsonRpc`, `McpServer` | the line-framed stdio loop, JSON-RPC replies, agreement with HTTP |
| `Credentials`, `TokenStore` | the three walks over candidate credentials, the stored login and the record of its last check |
| `AppState`, `KeyReducer`, `KeyBehaviour` | the terminal app's state, the reducer of its keys, and what each key does |
| `ErrorBody` | the bounded read of an error body and the message built from it |
| `FileOverlay` | overlaying template files, merging and namespacing integration files |
| `Prelude` | options, results, searching and trimming |

Code that computes is modelled by functions. Loops and objects that change state are methods and
classes, each proved against such a function; the theorems are about the function.

## Where the code does less than one would expect

Each of these is proved. Unless a bullet says otherwise the condition is exact: the expected property
holds if and only if it does.

- Filling defaults twice is filling once only when stored defaults are settled and no change of the
  selected variant finds something missing (`IdempotentIff`). The second half follows from a condition
  on the schemas alone, `SteadyVariants`: no variant gives a default that an earlier variant asks for.
  That condition is exact for the selection between two variants the second of which is a plain object
  schema (`SecondKeptIff`), and for two flat variants idempotence itself has an exact condition on the
  schemas (`FlatPairIdempotentIff`); for longer unions and nested schemas it is sufficient only.
  `StolenVariantNotIdempotent` is an input that fails.
- A location that contains a colon can make the parameter merge drop a different parameter
  (`MergeResolvesIff`, `ColonHides`). OpenAPI's own locations cannot.
- A placeholder that occurs twice in a path is filled once (`SequentialIffOnce`, `TwiceFilledOnce`).
- The contract patch keeps a union exclusive only if the copied upstream variants name the added types
  alone, no type twice (`GenerateKeepsExclusiveIff`, `OverlapBreaksExclusive`); a second run changes the
  document when the second event's upstream variant carries a `not` without the first event
  (`GenerateTwiceIff`, `NotBreaksGenerate`).
- A version that starts with a semicolon, is empty or holds a quote is not overwritten cleanly in source
  text (`LastWriteWinsIff`), one that holds a quote is not in deno.json (`FieldLastWriteWinsIff`). No
  version the release resolves is of that kind (`ResolvedSettable`, `LastReleaseWins`).
- The bump of deno.json rewrites the first text that looks like a version field, which need not be the
  top-level one that the release reads with `JSON.parse`. The next release reads the version this one
  wrote exactly when it is (`NextReleaseReadsBumpIff`); otherwise it resolves the same version again
  (`StuckRelease`, `NestedVersionSticks`). Where the matched value holds an escaped quote, the text is
  not JSON any more (`BumpReads`).
- Stdio trims more than JSON allows around a message: a no-break space there is accepted over stdio and
  refused over HTTP (`TransportsAgreeIff`, `NoBreakSpaceDisagrees`).
- An unknown method is answered with -32603, not with the code the protocol reserves for it
  (`UnknownAnswered`).
- A chunk of input such as `12` pushes the new-project selection out of range (`MenuIndexIff`,
  `PastedNumberOvershoots`).
- Moving up past the first row can leave the selected row outside the window (`MoveUpShownIff`,
  `WrapLeavesWindow`).
- The help view is never entered; help is a flag of the dashboard (`AppState.ViewOk`, part of the invariant).
- An error message without an ellipsis can hide a body whose first 2048 bytes are blank
  (`NoEllipsisShowsAllIff`, `BlankPrefixHidesBody`).
- Two integrations can claim one tool path when one's name continues the other's after a hyphen
  (`ToolsCollideIff`), although the documentation calls those paths collision-free. A file outside both
  namespaces can also stand where an environment example goes (`NamespacedMergeIff`).

## Model

| member | source | states |
|---|---|---|
| ContractDefaults.AcyclicIffRanked | scripts/generate-runs-fixtures.ts:73-98 | A document has no cycle of reference or variant edges exactly when the names have a rank that falls along every edge: the termination measure of the recursion |
| ContractDefaults.FillDefaults | scripts/generate-runs-fixtures.ts:73-106 | The recursion with its loops terminates on every acyclic document and computes the specification `Fill` |
| ContractDefaults.FillItems | scripts/generate-runs-fixtures.ts:87-89 | Every array element is filled by the item schema, in place and order |
| ContractDefaults.FillProperties | scripts/generate-runs-fixtures.ts:100-105 | The property loop builds the filled object whatever the order of the keys |
| ContractDefaults.ApplyDefaults | scripts/generate-runs-fixtures.ts:73-106 | The entry with its cases for a missing schema and a missing value computes `WithDefaults` |
| ContractDefaults.NoSchemaKeeps | scripts/generate-runs-fixtures.ts:78-86 | Without a schema nothing changes; a missing value becomes the default of its schema |
| ContractDefaults.ReferenceIsByName | scripts/generate-runs-fixtures.ts:79-85 | Behind `prefix/name` a present and a missing value are filled exactly as by the schema of that name in the document, and not at all if there is none |
| ContractDefaults.RequestGainsDefault | scripts/generate-runs-fixtures.ts:79-105 | An object filled by a reference gains exactly the stored defaults of the named schema that it lacks, and keeps other keys |
| ContractDefaults.ItemsAreFilled | scripts/generate-runs-fixtures.ts:79-89 | Array elements are filled in place by what the item schema refers to |
| ContractDefaults.FillExtends | scripts/generate-runs-fixtures.ts:73-106 | The result keeps array lengths, leaves and present keys of the input at every depth |
| ContractDefaults.ExtendsTransitive | scripts/generate-runs-fixtures.ts:73-106 | Extending is transitive |
| ContractDefaults.ExtendsAntisymmetric | scripts/generate-runs-fixtures.ts:73-106 | Values that extend each other are equal, so extending is an order |
| ContractDefaults.ObjectGainsItsDefaults | scripts/generate-runs-fixtures.ts:92-105 | An object gains exactly the properties of the schema selected through references and variants whose resolved schema has a default, with that default |
| ContractDefaults.FixpointIffComplete | scripts/generate-runs-fixtures.ts:73-106 | Filling leaves alone exactly the values that miss no default at any depth |
| ContractDefaults.SelectionStable | scripts/generate-runs-fixtures.ts:93-98 | Filling an object of a steady union, one where no variant gives a default an earlier variant asks for, selects the same variant again |
| ContractDefaults.SecondKeptIff | scripts/generate-runs-fixtures.ts:93-98 | Between two variants, the second a plain object schema, selection is stable on all objects exactly when the first does not steal from the second |
| ContractDefaults.UnconstrainedFirstIsSteady | scripts/generate-runs-fixtures.ts:93-97 | A union whose first variant restricts nothing, such as a reference, is steady |
| ContractDefaults.FillTwice | scripts/generate-runs-fixtures.ts:73-106 | With settled defaults and harmless changes of selection, filling twice is filling once |
| ContractDefaults.IdempotentIff | scripts/generate-runs-fixtures.ts:73-106 | On every acyclic document, filling is idempotent for all values, a schema, those inside it and those of the document, exactly when stored defaults are settled and no changed selection finds something missing |
| ContractDefaults.SteadyVariantsAreHarmless | scripts/generate-runs-fixtures.ts:92-98 | With steady unions the selection never changes |
| ContractDefaults.IdempotentIffDefaultsSettled | scripts/generate-runs-fixtures.ts:73-106 | With steady unions, filling is idempotent, for the schema, those inside it and all of the document, exactly when every stored default is a fixpoint of its own schema |
| ContractDefaults.FlatPairIdempotentIff | scripts/generate-runs-fixtures.ts:92-105 | For a union of two variants whose properties hold no further schema, filling every object twice is filling it once exactly unless the first steals from the second and asks for a default the second does not give |
| ContractDefaults.StolenVariantNotIdempotent | scripts/generate-runs-fixtures.ts:92-105 | An input on which filling twice is not filling once although defaults are settled: the default makes an earlier variant match |
| UrlText.EncodedPlain | scripts/generate-runs-fixtures.ts:139-142 | Encoded text holds no brace, dollar sign, slash, question mark, ampersand, equals sign or number sign |
| UrlText.DecodesEncoded | scripts/generate-runs-fixtures.ts:139-148 | Encoded text reads back, as a component and as a form field |
| UrlText.QueryReads | scripts/generate-runs-fixtures.ts:148-152 | A written query reads back as the same items, in order |
| UrlText.WithQueryReads | scripts/generate-runs-fixtures.ts:152-152 | Behind a path without a question mark, path and query items read back |
| ContractUrls.QueryConcat | scripts/generate-runs-fixtures.ts:121-150 | The query items of a list of parameters are those of its parts, in order |
| ContractUrls.QuerySingle | scripts/generate-runs-fixtures.ts:143-149 | A single query example is one item of its name and text; null and other locations give none |
| ContractUrls.QueryMany | scripts/generate-runs-fixtures.ts:143-149 | An array example gives the items of each element, in order |
| ContractUrls.InputHoldsLast | scripts/generate-runs-fixtures.ts:135-137 | The grouped input holds exactly the last example of each group and name, header parameters under `headers` |
| ContractUrls.BindingOfOne | scripts/generate-runs-fixtures.ts:138-142 | A path parameter fills its own placeholder with a value that decodes to its example |
| ContractUrls.JoinedText | scripts/generate-runs-fixtures.ts:139-148 | The text of null, of an empty array, and of an array as its elements joined with commas |
| ContractUrls.MergeResolvesIff | scripts/generate-runs-fixtures.ts:50-59 | Each location and name resolves to the operation's entries if present, else the path's, exactly unless a path parameter whose own pair the operation lacks has the joined key of one of its parameters |
| ContractUrls.ColonHides | scripts/generate-runs-fixtures.ts:50-59 | Two parameters for which it does not |
| ContractUrls.ColonFreeLocationsResolve | scripts/generate-runs-fixtures.ts:50-59 | For locations without a colon the merge always resolves by location and name |
| ContractUrls.ReplaceFillsHole | scripts/generate-runs-fixtures.ts:139-142 | Replacing a placeholder's text fills exactly the first hole of that name in the template |
| ContractUrls.SequentialRenders | scripts/generate-runs-fixtures.ts:138-142 | Textual replacement, one value after another, is filling holes of the template, and keeps it well formed |
| ContractUrls.SequentialIffOnce | scripts/generate-runs-fixtures.ts:138-142 | One-at-a-time replacement is simultaneous substitution exactly when every bound placeholder occurs at most once |
| ContractUrls.TwiceFilledOnce | scripts/generate-runs-fixtures.ts:138-142 | A template with a placeholder twice keeps the second |
| ContractUrls.OrderIrrelevant | scripts/generate-runs-fixtures.ts:121-142 | Then the order of the parameters does not matter |
| ContractUrls.AppendElements | scripts/generate-runs-fixtures.ts:144-149 | Every non-null element of a query example becomes one query item, in order |
| ContractUrls.BuildMerged | scripts/generate-runs-fixtures.ts:121-151 | The parameter loop yields the expanded URL, the query items and the grouped examples of all parameters, or names the first required one without example |
| ContractUrls.BuildRequest | scripts/generate-runs-fixtures.ts:118-152 | It succeeds exactly when every merged required parameter has an example, and yields the URL with its query, the items and the grouped examples |
| ContractUrls.BuiltUrlReadsBack | scripts/generate-runs-fixtures.ts:118-152 | Reading the built URL gives back the expanded path and exactly the query items |
| ContractUrls.BuiltUrlFillsTemplate | scripts/generate-runs-fixtures.ts:138-142 | The URL built from encoded examples is the simultaneous substitution into the path template |
| ContractPatch.PatchUnion | scripts/generate-runs-task-input-contract.ts:35-63 | The edit of one union, with its error cases, is the specified step `AddType` |
| ContractPatch.PatchUnions | scripts/generate-runs-task-input-contract.ts:34-64 | The loop over both unions is the specified sequence of steps |
| ContractPatch.PatchEvents | scripts/generate-runs-task-input-contract.ts:24-65 | The loop over both events is the specified sequence of steps, payloads and payload schemas included |
| ContractPatch.ContractFile.Generate | scripts/generate-runs-task-input-contract.ts:18-69 | The file holds the patched document, or is untouched when the patch throws |
| ContractPatch.AddTypeLayout | scripts/generate-runs-task-input-contract.ts:39-63 | Where a step inserts the copied variant and which variant's exclusions it extends, around the first variant with a `not` |
| ContractPatch.AddTypeFixpoint | scripts/generate-runs-task-input-contract.ts:39-63 | A step changes nothing exactly on a union that names the type and whose fallback excludes it |
| ContractPatch.PatchIdempotentIff | scripts/generate-runs-task-input-contract.ts:34-64 | Patching a patched union changes nothing, exactly unless the second type is named neither by the base nor by the copy for the first, and its upstream variant carries a `not` without the first |
| ContractPatch.NamesAfterStep | scripts/generate-runs-task-input-contract.ts:39-63 | After a step exactly the old names and those of the copied variant are there |
| ContractPatch.PatchFrame | scripts/generate-runs-task-input-contract.ts:34-64 | Existing named variants keep contents and order, copies stand right before the fallback, which only gains the missing types |
| ContractPatch.ExclusiveIff | scripts/generate-runs-task-input-contract.ts:58-63 | A union with one fallback is exclusive exactly when no type is named twice and the fallback excludes exactly the named ones |
| ContractPatch.PatchKeepsExclusiveIff | scripts/generate-runs-task-input-contract.ts:34-64 | From an exclusive union, the patched union is exclusive exactly when the copied variants name only added types that the base does not name, none twice |
| ContractPatch.GenerateKeepsExclusiveIff | scripts/generate-runs-task-input-contract.ts:18-69 | Both unions of the document the generator writes are exclusive exactly when the copies fit both |
| ContractPatch.OverlapBreaksExclusive | scripts/generate-runs-task-input-contract.ts:48-56 | A base and an upstream union for which it is not |
| ContractPatch.ExclusiveUpstreamFits | scripts/generate-runs-task-input-contract.ts:48-52 | Copies from an upstream union whose variants do not overlap satisfy the condition on double names |
| ContractPatch.AddEventEffect | scripts/generate-runs-task-input-contract.ts:24-64 | One event steps both unions, installs its payloads and payload schemas, and disturbs no other event's |
| ContractPatch.GenerateFrame | scripts/generate-runs-task-input-contract.ts:18-69 | Outside the two events, their payload schemas and the two unions, every entry of the written document is that of the base, presence included |
| ContractPatch.GenerateInstalls | scripts/generate-runs-task-input-contract.ts:24-33 | Both events have upstream's payload, read payload and payload schemas, by the name behind the last slash |
| ContractPatch.StepCopies | scripts/generate-runs-task-input-contract.ts:39-63 | A step for an unnamed type adds one variant right before the fallback, with the base template's envelope and upstream's discriminant and payload; the fallback only gains the exclusion |
| ContractPatch.StepCopiesNot | scripts/generate-runs-task-input-contract.ts:48-63 | A copied variant with a `not` of its own takes the exclusion instead |
| ContractPatch.StepExcludes | scripts/generate-runs-task-input-contract.ts:39-63 | A step for a named type only touches the fallback's exclusions |
| ContractPatch.GenerateTwiceIff | scripts/generate-runs-task-input-contract.ts:3-70 | A second run of the whole generator changes nothing, exactly unless an upstream variant hides an exclusion in one of the unions |
| ContractPatch.NotBreaksIdempotence | scripts/generate-runs-task-input-contract.ts:48-63 | A base and an upstream union a second patch changes |
| ContractPatch.NotBreaksGenerate | scripts/generate-runs-task-input-contract.ts:18-69 | A document and an upstream document a second run changes |
| VersionText.ScanRenders | scripts/release-version.ts:25-30 | Scanning text into assignments and characters loses nothing |
| VersionText.NoInnerOpening | scripts/release-version.ts:26-29 | No assignment starts inside the opening of another |
| VersionText.NoMatchKept | scripts/release-version.ts:26-29 | Replacement creates no assignment where none started |
| VersionText.ScanRewritten | scripts/release-version.ts:25-30 | Rewritten text scans as the same pieces with the new version: no match is created or destroyed |
| VersionText.BumpRewrites | scripts/release-version.ts:26-29 | The replacement template yields the matched opening around the new version |
| VersionText.BumpSetsVersions | scripts/release-version.ts:24-30 | After a bump every assignment holds the new version and every other character is unchanged |
| VersionText.LastWriteWinsIff | scripts/release-version.ts:24-30 | Bumping twice is bumping once with the later version, for all texts, exactly for versions that are not empty, hold no quote and do not start with a semicolon |
| VersionText.BumpAssignment | scripts/release-version.ts:25-30 | Text that starts with either assignment gets the new version there, and the rest is bumped alike |
| VersionText.BumpCharacter | scripts/release-version.ts:25-30 | A character that starts no assignment stays, and the rest is bumped alike |
| VersionText.DollarStandsFor | scripts/release-version.ts:20-30 | What a dollar sign in a replacement stands for |
| DenoVersion.BumpSetsField | scripts/release-version.ts:16-22 | A bump throws exactly without a version field, and else replaces the value of the first one alone |
| DenoVersion.LocateAgain | scripts/release-version.ts:16-22 | After the bump the field is found at the same place with the new extent |
| DenoVersion.WrittenReadsBackIff | scripts/release-version.ts:16-22 | On every text with the field, its first match holds the written version afterwards exactly when that holds no quote |
| DenoVersion.FieldLastWriteWinsIff | scripts/release-version.ts:16-22 | On every text with the field and for every next version, bumping twice is bumping once with the later one exactly when the first holds no quote |
| SemVer.LessIsStrictOrder | scripts/release-version.ts:32-62 | The precedence of section 11 of SemVer 2.0.0 is a strict order |
| SemVer.CoreParses | scripts/release-version.ts:50-58 | A version the bump writes reads back as itself |
| SemVer.VersionReads | scripts/release-version.ts:38-47 | Three digit strings and identifiers are read as the version they stand for |
| SemVer.VersionParts | scripts/release-version.ts:38-47 | No other text is a version |
| SemVer.NoLeadingZero | scripts/release-version.ts:52-58 | Numbers are written without leading zeros |
| SemVer.HyphenIffPrerelease | scripts/release-version.ts:38-48 | For a valid version, containing a hyphen is being a prerelease |
| SemVer.BumpIsLeast | scripts/release-version.ts:50-58 | A bump is the least stable version above the current one, of all for `patch`, of those with a larger major or major-minor pair for the others |
| SemVer.PrereleaseBump | scripts/release-version.ts:50-58 | On the text of a prerelease: `patch` drops the suffix, `minor` and `major` step up |
| SemVer.StableBump | scripts/release-version.ts:50-58 | On the text of a stable version each kind steps up its number and zeroes the smaller ones |
| SemVer.ExplicitVersion | scripts/release-version.ts:33-36 | An explicit version of three numbers is taken as it is written |
| SemVer.NothingElseAccepted | scripts/release-version.ts:33-62 | Nothing else is accepted than that, or a kind with a valid current version |
| SemVer.PrecedenceRules | scripts/release-version.ts:32-62 | Precedence of prereleases rule by rule, as section 11 of SemVer 2.0.0 lists them |
| Release.ResolvedSettable | scripts/release-version.ts:33-62 | Every resolved version is stable, not empty, and holds no quote, dollar sign or leading semicolon |
| Release.LastReleaseWins | scripts/release-version.ts:24-62 | For all versions a release resolves, releasing twice leaves source text as the later release alone would |
| JsonText.InsideIsNotOutside | scripts/release.ts:239-240 | Text that continues a string literal cannot be read as text outside of one |
| DenoJson.MatchCut | scripts/release-version.ts:16-22 | In JSON text the matched value is a string literal behind a colon, wherever the match starts |
| DenoJson.BumpReads | scripts/release.ts:239-276 | A bump keeps the text JSON exactly when it matches a whole literal; then the parsed top-level version is the written one if the match is the literal that is read, and the old one otherwise |
| DenoJson.WrittenIsReadIff | scripts/release.ts:239-276 | The written version is read back from the parsed text exactly when a whole literal is matched that is the one read, or an equal version is read anyway |
| DenoJson.ReadMatchIsWhole | scripts/release.ts:239-276 | A match that is read is a whole literal, unless the version holds a quote |
| DenoJson.InnerIsNotRead | scripts/release.ts:239-240 | A version within another object is not the one that is read, even if it comes last |
| Release.NextReleaseReadsIff | scripts/release.ts:238-276 | The next release reads the version this one wrote exactly when the matched field is a whole literal and the one that is read, or held it already |
| Release.NextReleaseReadsBumpIff | scripts/release.ts:238-276 | After a release by kind it does exactly when the matched field is the one that is read |
| Release.StuckRelease | scripts/release.ts:238-276 | When another field is matched and the text still parses, the next release reads the version this one read |
| Release.NestedVersionSticks | scripts/release.ts:238-276 | With a version field in a nested object first, the top-level version never changes |
| Release.ReleasesRise | scripts/release.ts:238-276 | While the matched field is the one that is read, successive releases by kind have strictly rising versions |
| LogSanitizer.TidyMarks | scripts/postinstall-lib.js:102-114 | Before the cap, the visible units and which of them touch are unchanged |
| LogSanitizer.SanitizedIsExact | scripts/postinstall-lib.js:102-116 | At most 500 units, no control or line separator, no two adjacent blanks, and the visible units are a prefix of the input's, touching where they touched |
| LogSanitizer.SanitizedIsClean | scripts/postinstall-lib.js:102-116 | Exactly the first 500 units of: the visible units, with the blank itself for each gap of one blank between them, and one space for every other gap |
| LogSanitizer.SanitizeTwice | scripts/postinstall-lib.js:102-116 | A second pass trims the end of the first and does nothing else |
| LogSanitizer.SanitizeThrice | scripts/postinstall-lib.js:102-116 | A third pass changes nothing |
| StdioJsonRpc.LinesConcat | cli/mcp/stdio.ts:33-38 | The lines of a text are those of a prefix, then those of its unfinished tail with the rest |
| StdioJsonRpc.ServeConcat | cli/mcp/stdio.ts:33-67 | Serving lines in two parts is serving them in one |
| StdioJsonRpc.AnswerLine | cli/mcp/stdio.ts:37-66 | One line is answered as specified: nothing when blank or a notification, else one response |
| StdioJsonRpc.DrainBuffer | cli/mcp/stdio.ts:33-67 | The inner loop serves every complete line of the buffer and leaves the unfinished tail |
| StdioJsonRpc.ReadLoop | cli/mcp/stdio.ts:24-72 | Final state, responses and buffer depend on the received text alone, never on how it was cut into chunks |
| StdioJsonRpc.ReceivedTurn | cli/mcp/stdio.ts:27-31 | Which turns of the loop add text, which add none and which end it |
| StdioJsonRpc.LinesRejoin | cli/mcp/stdio.ts:33-38 | The lines with their newlines and the rest are the text |
| StdioJsonRpc.MoreTextAppends | cli/mcp/stdio.ts:24-72 | More text only appends responses |
| McpServer.LineReplies | cli/mcp/server.ts:92-102 | Blank lines and notifications are not answered, unparsable and invalid ones with their error code and id null, calls once with their id |
| McpServer.CallAnswered | cli/mcp/server.ts:92-102 | A line with a call leaves the state its handler leaves and is answered with exactly the result, the thrown code and message, or -32603; a notification with nothing |
| McpServer.CallAnsweredOverHttp | cli/mcp/server.ts:218-228 | Over HTTP the same with status 200, and 202 without body for a notification |
| McpServer.MalformedOverHttp | cli/mcp/server.ts:201-216 | Bodies that are no request get status 400 and their error |
| McpServer.UnknownAnswered | cli/mcp/server.ts:285-286 | A call of an unknown method leaves the state and is answered with -32603 |
| McpServer.KnownMethods | cli/mcp/server.ts:265-288 | Which methods there are |
| McpServer.RepliesInOrder | cli/mcp/server.ts:92-102 | Responses come in request order, one for each line that is neither blank nor a notification, with its id or null |
| McpServer.HttpMatchesStdio | cli/mcp/server.ts:201-228 | A one-line message that parses as its trimmed form gets the same response and state over HTTP as over stdio; 202 stands for no line |
| McpServer.SameParseIff | cli/mcp/server.ts:201-206 | A message parses as its trimmed form exactly when only JSON whitespace surrounds it, or it is not JSON at all |
| McpServer.TransportsAgreeIff | cli/mcp/server.ts:201-228 | For a message on one line, the HTTP body and state are those of stdio exactly when it is not blank and only JSON whitespace surrounds it, or it is not JSON at all, or its handler throws what a parse error looks like |
| McpServer.NoBreakSpaceDisagrees | cli/mcp/server.ts:201-228 | With a no-break space before a message the transports disagree, unless the handler fails like unparsable text |
| McpServer.UnknownMethod | cli/mcp/server.ts:248-288 | An unknown method changes nothing and is answered with the internal-error code |
| Credentials.StrictRejectedIff | cli/auth/login.ts:272-396 | Checked strictly, a credential is rejected exactly when blank or answered with 401 or 403 |
| Credentials.LenientNeverThrows | cli/auth/login.ts:272-396 | Checked leniently, it is accepted in the same cases and otherwise rejected, never thrown |
| Credentials.StrictValidIff | cli/auth/login.ts:302-396 | A credential is accepted, and as whom, exactly for a success that answers an API key, or a user token with a non-blank id and email |
| Credentials.StrictThrows | cli/auth/login.ts:272-396 | What strict checking throws for each failure of the API |
| Credentials.NetworkThrowsIff | cli/auth/login.ts:279-300 | Asked to report network errors only, checking throws one exactly for server errors, unreachable hosts and time-outs |
| Credentials.LoginStore.DescribeExistingSession | cli/auth/login.ts:687-782 | The loop with action codes ends, deletes and stops checking as specified by `Describe` |
| Credentials.LoginStore.EnsureAuthenticated | cli/auth/login.ts:955-1002 | The recursion by index ends, deletes and stops checking as specified by `Ensure` |
| Credentials.LoginStore.ReportWhoami | cli/auth/login.ts:1074-1105 | The loop with breaks ends, deletes and stops checking as specified by `Whoami` |
| Credentials.LoginStore.ReportCredential | cli/auth/login.ts:1021-1042 | The stored login is deleted exactly when it is the rejected credential |
| Credentials.NothingPastAuthoritative | cli/auth/login.ts:733-775 | No walk checks a candidate behind an authoritative one |
| Credentials.DeletesOnlyRefused | cli/auth/login.ts:687-1001 | A walk deletes the stored login only after the API refused it, at a candidate it checked |
| Credentials.WalksAgree | cli/auth/login.ts:733-1087 | With every candidate answered, the three walks check the same candidates and return the same identity, the first valid one |
| Credentials.DescribeEnds | cli/auth/login.ts:687-782 | On every list, how the preflight ends, what it checks and deletes, by the first candidate at which it settles |
| Credentials.EnsureEnds | cli/auth/login.ts:955-1001 | The same for `ensureAuthenticated` |
| Credentials.WhoamiEnds | cli/auth/login.ts:1074-1104 | The same for `whoami` |
| Credentials.WalksSettle | cli/auth/login.ts:733-1087 | Each walk settles at exactly one place |
| Credentials.OutageReachesStored | cli/auth/login.ts:699-775 | Behind an unavailable token of an env file the preflight finds a valid stored login |
| Credentials.ResolvesWell | cli/shared/config.ts:472-601 | A resolved stored login is never authoritative, and is the one in the store |
| Credentials.CandidatesFromShell | cli/shared/config.ts:491-541 | With a token exported by the shell: that, then the one of veryfront.json, then the stored login |
| Credentials.CandidatesFromEnvFile | cli/shared/config.ts:491-541 | With a token of an env file: it stands last, or before the stored login in a command that is not interactive |
| Credentials.CandidatesWithoutExport | cli/shared/config.ts:491-541 | Without an exported token the others remain |
| Credentials.SteeringIs | cli/shared/config.ts:579-601 | What steering by a repository file does to the list |
| Credentials.DeletionsAgree | cli/auth/login.ts:733-1087 | For every setup in which all candidates are answered, the three walks delete the same stored login |
| Credentials.DeletionsAgreeIff | cli/auth/login.ts:733-1087 | On arbitrary lists, most of which are never resolved, they do so exactly unless the walk ends at a rejected authoritative stored login and no stored login was rejected before |
| Credentials.LoginRemovedOnlyWhenRefused | cli/auth/login.ts:171-1042 | Over every run, each command that removes the stored login is a logout, or the API answered 401 or 403 for that token during it |
| Credentials.GoneWasRemoved | cli/auth/login.ts:687-1042 | A stored login that is gone in the end was removed by some command |
| Credentials.OutagesKeepLogin | cli/auth/login.ts:171-1042 | Without logout, 401 and 403, a stored login survives every run of time-outs, network failures, 5xx and malformed bodies |
| TokenStore.HexInjective | cli/auth/token-store.ts:90-92 | The accumulated hex string determines the bytes |
| TokenStore.LoginFingerprint | cli/auth/token-store.ts:84-93 | The loop yields the hex digest of URL and token |
| TokenStore.FingerprintInjective | cli/auth/token-store.ts:84-93 | With a collision-free hash, a fingerprint names one login at one API, for URLs without newline |
| TokenStore.NewlineUrlsCollide | cli/auth/token-store.ts:84-93 | A newline in the URL lets two logins share a fingerprint |
| TokenStore.ReadToken | cli/auth/token-store.ts:35-48 | A token read from the store is never blank |
| TokenStore.TokenReads | cli/auth/token-store.ts:35-74 | A saved token reads back without blanks around it, a deleted one not at all, and remembering a check does not touch it |
| TokenStore.Store.DeleteToken | cli/auth/token-store.ts:63-74 | Both files go, each independently of a failure at the other |
| TokenStore.Store.WasLoginAcceptedRecently | cli/auth/token-store.ts:104-118 | True exactly for a readable record with this fingerprint and a time within the limit |
| TokenStore.CheckFileAfter | cli/auth/token-store.ts:63-136 | After any history the check file holds the last successful write no successful delete followed, if there is one |
| TokenStore.AcceptedRecentlyIff | cli/auth/token-store.ts:63-136 | Over any history, accepted recently is exactly: the last such write was for this login at this API, within the time limit |
| AppState.ListMovesOk | cli/app/components/list-select.ts:58-100 | Moves keep the selection in range; moving down and picking keep it visible |
| AppState.MoveUpShownIff | cli/app/components/list-select.ts:58-69 | Moving up loses sight of the selection exactly when it wraps to a row below the window |
| KeyBehaviour.MovesCycle | cli/app/components/list-select.ts:58-91 | Up and down go round the list and undo each other |
| KeyBehaviour.WindowMoves | cli/app/components/list-select.ts:58-91 | The window moves no further than it must |
| AppState.HandleInputKey | cli/app/components/inline-input.ts:190-243 | An edit leaves the cursor inside the text |
| KeyBehaviour.TypeThenErase | cli/app/components/inline-input.ts:190-243 | A typed character stands at the cursor; backspace and delete take it out again |
| KeyBehaviour.CursorMoves | cli/app/components/inline-input.ts:190-243 | Arrows, home and end move within the text; clearing empties it |
| KeyBehaviour.WordErased | cli/app/components/inline-input.ts:190-243 | Erasing a word cuts it with the spaces behind it |
| AppState.AddLogKeeps | cli/app/state.ts:290-300 | The log is the most recent messages, as many as fit |
| KeyReducer.KeyKeeps | cli/app/key-reducer.ts:90-334 | Every key, in every state, keeps the invariant: remote list only while signed in with remote projects, prompt open iff it has a purpose, log a suffix of all messages, scroll and selections in range |
| KeyReducer.EventKeeps | cli/app/state.ts:145-324 | So does every updater of the shell and its background work |
| KeyReducer.Run | cli/app/state.ts:105-324 | From the initial state, every interleaving of keys and updates ends in a state with the invariant |
| KeyReducer.OvershootsIff | cli/app/key-reducer.ts:171-194 | A key between `1` and `2` as a string names a menu row exactly unless it starts with `1` and another digit |
| KeyReducer.MenuIndexIff | cli/app/key-reducer.ts:171-194 | A key keeps the new-project selection in range exactly unless it overshoots while that menu takes keys |
| KeyReducer.PastedNumberOvershoots | cli/app/key-reducer.ts:171-194 | From the start, `n` and then `12` select row 11 of two |
| KeyReducer.WrapLeavesWindow | cli/app/components/list-select.ts:58-69 | With six projects, one key up selects a row that is not shown |
| KeyReducer.MenuIndexOverRuns | cli/app/key-reducer.ts:90-334 | Over runs without such keys the selection stays in range |
| KeyReducer.EscapeReachesDashboard | cli/app/key-reducer.ts:90-114 | Two Escapes reach the dashboard from any state without a prompt, three from any other |
| KeyReducer.EffectsJustified | cli/app/key-reducer.ts:90-296 | A key asks for at most one effect, and each only where allowed: projects listed in the active list, push only for local ones, create only for a non-blank name in a prompt |
| KeyBehaviour.EffectIff | cli/app/key-reducer.ts:90-296 | Exactly which key in which state asks for which effect |
| KeyBehaviour.GlobalKeys | cli/app/key-reducer.ts:90-99 | Ctrl-C and `q` change nothing, Escape goes back |
| KeyBehaviour.BackUndoesNavigate | cli/app/state.ts:229-239 | Going back returns to the view before |
| KeyBehaviour.DashboardSwitches | cli/app/key-reducer.ts:228-256 | What `n`, `a`, `?` and `l` do to the state |
| KeyBehaviour.DashboardArrows | cli/app/key-reducer.ts:231-242 | Arrows go round the active list, or scroll open logs by one line within their bounds |
| KeyBehaviour.DashboardNumbers | cli/app/key-reducer.ts:264-276 | A number selects and shows that item of the active list, and nothing else changes |
| KeyBehaviour.TabSwitches | cli/app/key-reducer.ts:311-322 | Tab goes to the other section and back exactly when both are shown |
| KeyBehaviour.MenusCycle | cli/app/key-reducer.ts:150-207 | Arrows go round each menu |
| KeyBehaviour.NewProjectPicks | cli/app/key-reducer.ts:184-193 | Picking a row opens the template list or prompts for the minimal template |
| KeyBehaviour.TemplatePicks | cli/app/key-reducer.ts:162-166 | Picking a template prompts for a project of it, with the suggestion |
| KeyBehaviour.AuthPicks | cli/app/key-reducer.ts:209-223 | Picking a provider logs it and returns to the dashboard |
| KeyBehaviour.PromptKeys | cli/app/key-reducer.ts:122-146 | In a prompt a key edits, closes, or submits |
| KeyBehaviour.TemplateToProject | cli/app/key-reducer.ts:122-166 | Two Enters from the template list ask for a project of the selected template |
| KeyBehaviour.UpdatersStore | cli/app/state.ts:145-227 | What the updaters store, and that they leave the rest alone |
| ErrorBody.ReadErrorBodyPrefix | cli/mcp/dev-server-client.ts:19-63 | For every chunking: exactly the first bytes up to the limit, truncated iff the body reaches it, cancelled iff the end was not seen, the lock released |
| ErrorBody.NoEllipsisShowsAllIff | cli/mcp/dev-server-client.ts:161-173 | A message without ellipsis is the message that shows the whole normalised body, exactly unless the body is cut, its first part blank and the whole not |
| ErrorBody.NormalizedIsSpaced | cli/mcp/dev-server-client.ts:165-165 | A normalised text is its words with one space between each two |
| ErrorBody.MessageText | cli/mcp/dev-server-client.ts:161-173 | The message spelled out: path, status, at most 512 characters of the words, an ellipsis where something is missing |
| ErrorBody.BlankPrefixHidesBody | cli/mcp/dev-server-client.ts:161-173 | Such a body exists: 2048 blanks and a letter |
| FileOverlay.SortedUnique | templates/loader.ts:59-59 | Files have one sorted arrangement only |
| FileOverlay.ByPathIsLast | templates/loader.ts:56-57 | The map holds the last file set at each path |
| FileOverlay.SetAll | templates/loader.ts:56-57 | Setting all files of a list overrides the map with the last of them at each path |
| FileOverlay.MergeFiles | templates/loader.ts:50-60 | The result is strictly sorted, path-unique, and holds at each path the last overlay file, else the last base file |
| FileOverlay.OverlayAssociative | templates/loader.ts:44-60 | Overlaying step by step or in one go is the same |
| FileOverlay.OverlayIdempotent | templates/loader.ts:44-60 | Overlaying the same files again changes nothing |
| FileOverlay.AddIntegration | templates/integration-loader-helpers.ts:53-58 | Adds one integration's files at free paths, or reports the first taken path |
| FileOverlay.MergeIntegrationFiles | templates/integration-loader-helpers.ts:47-62 | Succeeds exactly when all paths differ, and then returns a sorted permutation of all files; else names the first collision |
| FileOverlay.IntegrationOrderIrrelevant | templates/integration-loader-helpers.ts:47-62 | Neither success nor the merged files depend on the order of the integrations |
| FileOverlay.ToolsCollideIff | templates/integration-loader-helpers.ts:13-45 | Two integrations can be given one tool path exactly when one's name continues the other's after a hyphen |
| FileOverlay.NamespacedTo | templates/integration-loader-helpers.ts:30-44 | Where each file of an integration goes, spelled out |
| FileOverlay.SamePathIff | templates/integration-loader-helpers.ts:30-44 | Two files get one path exactly when they are one shared path, one tool or environment file of one integration, or an environment example and a shared file where it goes |
| FileOverlay.AllDistinctIff | templates/integration-loader-helpers.ts:52-58 | All files differ exactly when each integration's do and no two integrations share a path |
| FileOverlay.NamespacedMergeIff | templates/integration-loader-helpers.ts:22-62 | Any number of namespaced integrations whose names neither repeat nor continue one another merge exactly when no two source files meet in that sense |

## Left out

- JsonText.ReadVersion: which token sequences are JSON is a parameter; of the text, literals, their escapes and what may stand outside of them are modelled.
- Release.NextReleaseReadsIff: the lock file, the release manifest check and the rewriting of template versions by other patterns are left out.
- Bytes and text: UTF-8 decoding (stdio starts from decoded text, the bounded read takes its decoder as a parameter), and UTF-16 outside `LogSanitizer`; elsewhere strings are sequences of Unicode scalar values.
- I/O and time: files, sockets, spans, prompts and console output; whether a file operation succeeds, what the API answers and what the time is are inputs.
- The hash function: assumed to yield bytes and, where stated, not to collide.
- Prototype properties of JavaScript objects (`__proto__`, inherited keys) and key order of objects.
- ContractDefaults.FillDefaults: covers documents without cycles of references and variants; on a cycle the code recurses without end.
- ContractUrls.BuildRequest: does not model the request body or the response half of a fixture, which only select and copy examples.
- ContractDefaults.IdempotentIffDefaultsSettled: steady unions are sufficient, not necessary; the exact condition is that of `IdempotentIff`, which speaks of objects and not of schemas alone.
- ContractDefaults.SecondKeptIff: exact for two variants; with more, which of several earlier variants an object misses is a combinatorial question.
- ContractPatch.ContractFile.Generate: values instead of shared objects, so an upstream object reachable from two places of the document is not modelled; the digest check before it is left out.
- ContractPatch.PatchFrame: stated for unions with one fallback and upstream variants without a `not`; `AddTypeLayout` and `PatchIdempotentIff` have no such restriction.
- ContractPatch.GenerateTwiceIff: assumes that an event's payload schema is not one of the two unions.
- VersionText.LastWriteWinsIff: stated for versions without a dollar sign, which the replacement template would interpret; `Expand` models that interpretation, and by `Release.ResolvedSettable` no resolved version holds one.
- DenoVersion.FieldLastWriteWinsIff: stated for versions without a dollar sign, as above.
- SemVer.BumpIsLeast: does not model rounding of version numbers beyond 2^53.
- StdioJsonRpc.ReadLoop: does not model a failing write to standard output.
- McpServer.HttpMatchesStdio: starts after the size limit, CORS and content checks; tool, resource and prompt handlers and JSON parsing are parameters, and `negotiateVersion`, `start`, `stop` and `startHTTP` are left out.
- McpServer.TransportsAgreeIff: assumes of `JSON.parse` that it skips JSON whitespace around a text and refuses other blanks there.
- Credentials: the messages, the prompts of an interactive login, which API each candidate is sent to, and failures to delete the stored login; how a repository file comes to steer the API is an input.
- KeyReducer.Run: the updaters the reducer alone calls appear through the keys that call them; log timestamps, list labels and the snapshot the shell restores after creating a project are left out.
- AppState.HandleInputKey: the loops that find the start of a word are a recursive function.
- ErrorBody.ReadErrorBodyPrefix: does not model a read that throws; the dashboard session and the retry loop are left out.
- FileOverlay.MergeFiles: `localeCompare` is assumed to be a strict total order on paths.
- Terminal painting, browser and editor launching, help text, and the other commands: no state of the kind proved here.
