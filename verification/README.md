# A verified model of the LTS agent's Core synchronization

The agent may be enrolled in a service called LTS Core. One invocation loads the node's
identity from a state file, or registers and stores one, removes the one-time enrollment
token, sends a heartbeat and fetches the desired state. Every operation on the
filesystem and on the network can fail, and the process can be killed between any two of
them and started again. This project models that protocol and the code that it rests on,
and proves what holds over every run, every failure and every crash point.

The protocol exists in two layers.

- `Agent` says what one invocation does next, given the answers it has had, and `Runs`
  puts any number of invocations on one machine: they start, act and end in any
  interleaving, each operation gets any answer that `World` calls possible, and an
  invocation can end at any moment. All safety results are about `Run` of any `Legal`
  sequence of events.
- `Synchronizers` follows the program text: a `Synchronizer` whose methods act on a
  `Host`, fill in a mutable summary and return errors. On a `Host` other invocations may
  act between any two operations. Each method is proved to perform exactly the steps of
  `Agent`, so every crash point of the program is a state the safety results cover.

`Frames` says what histories leave alone and what they leave behind, `Traffic` what they
send and where, `AgentFiles` what that is made of, over the bytes of the three files, and
`Stability` from when on a stored identity is safe. `Summary`, `Causes`, `Discipline` and
`Noninterference` add what each invocation's own record shows: that its report is
faithful, that it gives up only for cause and tells it, that its operations come in a safe order, and
that earlier results in the caller's report have no influence. `Witnesses` shows by
construction where the promises stop.

Beside the protocol stand the codec of the state document (`StateCodec`), bearer and
endpoint handling (`CoreClient`, `Endpoints`, `Bases`), bounded capture and UTF-8 repair
(`Capture`, `Utf8`, `Trimming`), identifier normalisation (`Identifiers`) and the
KEY=VALUE parsers (`ReleaseFile`). Each of these is measured against a description of its
inputs that does not mention the code: `JsonStrings` and `JsonText` are a grammar of state
files with a meaning, and `StateTexts` shows that strict decoding is exactly that meaning;
`References` takes endpoint references apart by their marks, and `Dots` sees dot removal as
a walk over a list of segments; `ReleaseLines` says what a KEY=VALUE line contributes;
`CodePoints` ties runes and spaces to code points, and `Patterns` node IDs, revisions and
identifiers to their regular expressions.

What the proofs turned up:

- An accepted endpoint need not stay below the base path as it is configured; the scheme
  and the host never change. There are three ways.
  - The reference is re-encoded to the root: `%2F` followed by a space decodes to a path
    that begins with a slash and is then escaped anew. All other references stay below
    every base that ends in a slash (`ContainmentOfReference`,
    `ReencodedReferenceEscapes`).
  - The final slash of the base is an escaped one: `/a%2F` looks slash-terminated once it
    is decoded, no slash is added, and its last segment is replaced
    (`ContainmentOfStart`, `EscapedSlashBaseReplaced`).
  - The base is spelled anew. `parseBaseURL` adds the slash to the decoded path only, so
    `/a%2Fb` becomes `/a/b/`, and `/a/%2e%2e` becomes `/a/../`, which is the root
    (`EscapedSlashInside`, `EscapedDotsClimb`). When the base is kept as written is
    `KeptAsWrittenIff`; for a base written without dot segments, that is exactly when its
    endpoints stay below it (`ContainmentOfDotFree`). For all others
    `ContainmentOfConfigured` names the one comparison that decides. The measure is the
    path byte for byte, so a base that is merely escaped, a space to `%20`, also counts as
    not kept.
- An HTTP error excerpt is cut to 4096 bytes before it is repaired, so what is reported
  can be longer, by up to twice (`ErrorExcerptBounded`, `ExcerptDoubles`); exactly when is
  `ExcerptWithinLimitIff`. Valid text is affected too: a cut inside a rune can leave 4097
  or 4098 bytes (`ValidExcerptWithinLimitIff`, `TornBody`).
- Of two invocations that overlap, the later one replaces the identity that the earlier
  one stored (`OverlapReplacesIdentity`). The systemd unit excludes this (`README.md:376`
  of the repository). A stored identity is safe even from overlapping invocations once
  none of them is registering (`StableOnceNoneRegisters`), and not as long as one of them
  holds a temporary file with another (`HolderCanReplace`).
- A crash between storing the identity and removing the token leaves the token for good;
  it is never sent again (`TokenMayStayForever`, `IdentityStable`).
- `registration.attempted` is set before anything is read, so it does not mean that a
  request was made; the converse holds (`SummaryFaithful`).

## Model

| member | source | states |
|---|---|---|
| Runs.StateFileAtomic | internal/coresync/sync.go:341-386 | Over any overlapping, failing and crashing runs, partial writes included, the state path holds its original contents, or nothing, or one complete mode-0600 encoding, which `loadState` accepts, of a valid identity that Core issued to some run |
| Runs.TokenRemovedLast | internal/coresync/sync.go:114-135 | In every reachable state: if the agent has removed the enrollment token, the state path already holds a loadable identity that Core issued in reply to a registration carrying that very token |
| Runs.IdentityStable | internal/coresync/sync.go:281-310 | If the state path exists when no run is active, valid or not, no later reply, failure or crash changes it or the token; no registration is made; every request goes to the stored node with the stored bearer; an invalid file means no request at all |
| Runs.RegisteredForGood | internal/coresync/sync.go:114-123 | For runs that do not overlap: from the start of any run that finds the state path, the file is kept for good and all later requests of all later runs are that node's |
| Stability.StableOnceNoneRegisters | internal/coresync/sync.go:114-135 | However runs overlap: from any reachable moment at which the state path exists and no live run is registering, it and the token never change, nobody registers, and every request goes to the node stored then or to one that a run live then was using |
| Stability.HolderCanReplace | internal/coresync/sync.go:357-384 | From any reachable moment at which a run holds its temporary file, some continuation has that run's document stored and loadable, whatever was stored before |
| Runs.RegistrationsRepeat | internal/coresync/sync.go:198-238 | Until an identity is stored the token file is untouched, the machine ID always is, and all registrations of all runs carry one bearer and one fingerprint |
| AgentFiles.RegistrationsMadeOf | internal/coresync/sync.go:198-217 | In every history every registration is made of the two files as they were to begin with: its bearer is a valid one and is what the token file holds between white space; its fingerprint is the SHA-256 of `lts-agent-registration-v1:` and the 32 hexadecimal digits, in small letters, that the machine ID file holds between white space |
| Runs.OneMachineOneNode | docs/LTS-CORE-API-v1.md:26-28 | If Core answers one fingerprint with one node ID, all runs together store and address a single node ID |
| Runs.Reachable | internal/coresync/sync.go:98-238 | The invariant behind these, for every reachable state: what each file holds, what each running invocation knows where it stands, whose temporary files are whose, and what every request so far carried |
| Agent.StoredStateLoads | internal/coresync/sync.go:281-310 | The file that registration stores passes the permission, schema, node ID and token checks of `loadState` and yields the same document, for every valid identity |
| AgentFiles.LoadedIff | internal/coresync/sync.go:281-310 | A file is loaded as an identity if and only if it is a regular owner-only file whose text, by the grammar of `JsonText`, means that identity, and it is of schema 1 with a valid node ID and bearer |
| AgentFiles.FingerprintOf | internal/coresync/sync.go:265-279 | The fingerprint of a file that holds 32 hexadecimal digits between white space is the hash of the prefix and those digits in small letters |
| AgentFiles.FingerprintIff | internal/coresync/sync.go:265-279 | There is a fingerprint only for such files |
| AgentFiles.FingerprintIdentifies | internal/coresync/sync.go:265-279 | With a hash that keeps different inputs apart, two files have one fingerprint if and only if their IDs are the same up to letter case |
| AgentFiles.TokenIff | internal/coresync/sync.go:312-329 | A token is read if and only if it is a valid bearer and the file holds it between white space |
| Agent.FingerprintIgnoresCase | internal/coresync/sync.go:265-279 | For any texts: white space of any kind around the machine ID and the letter case of it do not change the fingerprint, or the rejection |
| Summary.SummaryFaithful | internal/coresync/sync.go:98-160 | Every finished invocation of every history made one of the six possible sequences of calls; a registration carried the token and the fingerprint that the invocation had read, each heartbeat and fetch the node and bearer that registration was granted or the state file held; registrations and heartbeats tell the local sections of the report and nothing else of it; its status fields, desired state and warnings are exactly those of the calls and the token removal, in workflow order and with the sanitised messages, but for the text of a local failure (see `Causes`); and the token was removed only by a run that reports its own registration as succeeded |
| Summary.EveryInvocation | internal/coresync/sync.go:98-259 | At every moment of every history, what an invocation has called and removed and what it would report fit where it stands |
| Causes.RegisteredUnlessHindered | internal/coresync/sync.go:98-141 | In every history a finished, enabled invocation has an identity if and only if none of its answers stood in the way: a state file that is neither absent nor a loadable private one, an unusable machine ID or token file, a registration not granted with an acceptable identity, a failed step of storing. Without an identity the one warning tells of the first of these, with the text of that failure and never of the cleanup |
| Discipline.OperationsInOrder | internal/coresync/sync.go:281-386 | At every moment of every history each invocation has read the state and token files only right after finding them regular and owner-only, made a temporary file only right after finding the directory safe, and renamed only a file just made owner-only, completely written, synced and closed; it owes the removal of at most the one temporary file it works on, and of none once it has finished |
| Frames.HistoryFrame | internal/coresync/sync.go:341-386 | Over any history nothing that was there is changed, except that the token may be removed; and whatever is there that was not, the temporary files of killed runs included, grants nothing to group or world |
| Traffic.EveryRequestWellSent | internal/coresync/sync.go:213-255 | In every history and for every base, every request carries a bearer that the client accepts and goes to an endpoint that it accepts and resolves to the folder of the base followed by v1/nodes/register, or by v1/nodes, a valid node ID and the suffix of its kind |
| Traffic.EveryBodyTold | internal/coresync/sync.go:206-249 | In every history every registration and heartbeat tells schema 1 and the agent version and local report sections that some enabled invocation was started with, and neither a Core summary nor a desired state; a heartbeat is sent at a time that this invocation read off the clock |
| Noninterference.ResultsDoNotInterfere | internal/coresync/sync.go:210-218 | Histories whose events are equal, but for starts that agree only in process, enablement, agent version and local report sections, are legal alike and lead to the same filesystem, requests, summaries, warnings and traces |
| Noninterference.ErrorBodiesDoNotInterfere | internal/coresync/sync.go:404-410 | Histories that differ only in the bodies of HTTP errors are legal alike and lead to the same filesystem, requests, summaries, warnings and desired states |
| Noninterference.ReportKept | internal/coresync/sync.go:210-249 | Over any history a running invocation keeps the report it was given |
| Witnesses.OverlapReplacesIdentity | internal/coresync/sync.go:379-384 | From any machine that can register, some overlapping history loads one identity and later another: stability needs runs that do not overlap |
| Witnesses.TokenMayStayForever | internal/coresync/sync.go:128-135 | From any machine that can register, some crash leaves a loadable identity and the token, and no history after it ever changes the token |
| Synchronizers.Synchronizer.Sync | internal/coresync/sync.go:98-160 | Under any interference of other invocations, one call is a complete run of `Agent` on its input within the machine's legal history; it returns that run's summary, desired state and warnings, and they are faithful to what was done |
| Synchronizers.Synchronizer.LoadState | internal/coresync/sync.go:281-310 | Leads from inspecting the state file to the identity, to registration, or to the end of the run with the warning its error calls for |
| Synchronizers.Synchronizer.Register | internal/coresync/sync.go:198-238 | On success the identity is stored and the token is next; on failure the run has ended with the registration warning; the summary says which |
| Synchronizers.Synchronizer.WriteState | internal/coresync/sync.go:341-386 | Either the new state is in place, or the run has ended with the cause, after the deferred cleanup if a temporary file had been made |
| Synchronizers.Synchronizer.SendHeartbeat | internal/coresync/sync.go:240-250 | One heartbeat to the node's endpoint with its bearer, whatever its result; status and warning follow the answer |
| Synchronizers.Synchronizer.FetchDesiredState | internal/coresync/sync.go:252-259 | One fetch ends the run, with the reported document exactly if Core sent one |
| Synchronizers.Host.Perform | internal/coresync/sync.go:55-64 | Other invocations act, then the operation takes effect and is answered in any way possible at that moment; no operation of a reachable state is stuck |
| Synchronizers.Host.FinishedFaithfully | internal/coresync/sync.go:98-160 | Whatever finishes on a machine with a legal history reports what it did |
| StateCodec.DocumentRoundTrip | internal/coresync/sync.go:368-384 | Strict decoding of the encoded bytes gives the document back, for every 64-bit schema version and all valid UTF-8 in node ID and token, quotes, backslashes and control characters included |
| StateTexts.DecodeIff | internal/coresync/sync.go:388-402 | Strict decoding answers a document if and only if the text is one of the grammar, with only white space behind it, every member names a field in any letter case and has a value of its type or null, and each field of the document is the last value given to it or its zero value |
| StateTexts.MisfitRefused | internal/coresync/sync.go:388-402 | One member with an unknown name or a value of the wrong type, wherever it stands and whatever stands around it, is enough to refuse the text |
| StateTexts.TrailingText | internal/coresync/sync.go:394-400 | Behind any accepted text white space changes nothing, and anything else makes it refused |
| StateTexts.EncodedWithTail | internal/coresync/sync.go:368-402 | So too behind the encoding of any document |
| StateTexts.EncodedText | internal/coresync/sync.go:368-375 | The exact bytes written for an identity |
| JsonText.SourceReads | internal/coresync/sync.go:388-402 | Every text of the grammar, whatever follows it, is decoded to what it means if it fits and only white space follows, and otherwise refused |
| JsonText.FoldsToIff | internal/coresync/sync.go:388-393 | A key names a field if and only if it is the field name once put in small letters, with U+017F as s and U+212A as k |
| JsonStrings.LiteralReads | internal/coresync/sync.go:388-393 | Every string literal, with short escapes, code units, surrogate pairs, lone surrogates and bad bytes, is read as what it stands for and no further |
| JsonStrings.ReadIsLiteral | internal/coresync/sync.go:388-393 | Nothing but a literal is read as a string |
| StateCodec.StringRoundTrip | internal/coresync/sync.go:371-375 | Every byte string written as a JSON string reads back as itself with each bad byte turned into U+FFFD, and the reader stops right behind it |
| StateCodec.IntRoundTrip | internal/coresync/sync.go:371-375 | Every 64-bit integer is read back from its decimal digits and no further |
| CoreClient.ValidateBearer | internal/core/client.go:211-224 | Accepts exactly 1 to 8192 visible ASCII bytes; an empty and an overlong token are told apart from bad characters |
| CoreClient.ParseBaseUrl | internal/core/client.go:226-250 | Accepts exactly https URLs with a host and without credentials, query and fragment, and keeps the host; each error is reported exactly when its check is the first to fail |
| CoreClient.ResolveEndpoint | internal/core/client.go:252-281 | Its loop decides as the specification `Resolve` does, and an accepted endpoint keeps the scheme and the configured host |
| References.ResolveMeans | internal/core/client.go:252-281 | For every reference taken apart into path, query and fragment: each error is reported exactly when its check is the first to fail, unreadable meaning a control byte, a colon in the first segment or a bad escape; otherwise the scheme is https, the host that of the base, the path resolved from the path alone and the query the one given |
| References.QueryKept | internal/core/client.go:276 | A query has no influence on the path or on any error and comes through unchanged |
| References.PlainWithQuery | internal/core/client.go:252-281 | A plain path with any query goes to the folder of any base followed by that path, with that query |
| References.PlainWithFragment | internal/core/client.go:267-269 | A plain path with a fragment is refused if and only if the fragment is not empty |
| Endpoints.NoUpInEscapedPath | internal/core/client.go:270-274 | The check on the decoded path covers the path that is sent: no `..` segment survives in it |
| Endpoints.ResolvedBelowBase | internal/core/client.go:276 | With `..` excluded the segment buffer never drops below the base: the dot-removed base path is a prefix of the resolved path |
| Endpoints.ContainmentOfReference | internal/core/client.go:252-281 | An accepted reference stays below every slash-terminated base path if and only if it is not re-encoded to begin at the root |
| Endpoints.ContainmentOfStart | internal/core/client.go:246-248 | All other accepted references stay below what resolution starts from if and only if the final slash of the configured path is not an escaped one |
| Bases.ContainmentOfConfigured | internal/core/client.go:226-281 | For every configured base path: all references that are not re-encoded to the root stay below the path as written, dots removed, if and only if what resolution starts from does |
| Bases.ContainmentOfDotFree | internal/core/client.go:246-248 | For a configured path written without dot segments, encoded ones admitted: its endpoints stay below it if and only if it ends in a slash and may be sent as it is, or is spelled just as `EscapedPath` spells it |
| Bases.KeptAsWrittenIff | internal/core/client.go:246-249 | The same condition says, for every configured path, exactly when resolution starts from the path as written with its slash |
| Bases.KeptContains | internal/core/client.go:246-281 | A path that is kept as written contains its endpoints, dot segments or not |
| Bases.EscapedSlashInside | internal/core/client.go:246-248 | The base `/a%2Fb` becomes `/a/b/`, below which the configured path does not lie |
| Bases.EscapedDotsClimb | internal/core/client.go:246-248 | The base `/a/%2e%2e` becomes the root |
| Bases.DotsContent | internal/core/client.go:276 | Dot removal keeps an encoded path decodable and adds nothing but slashes to what it stands for; with a dot segment it loses something |
| Dots.RemoveDotsWalks | internal/core/client.go:276 | Dot removal is a walk over the segments that keeps a list: a segment is added, `.` adds nothing, `..` takes the last one off; the list is written out behind one slash |
| Endpoints.ReencodedReferenceEscapes | internal/core/client.go:252-281 | A concrete accepted reference that leaves the base path |
| Endpoints.EscapedSlashBaseReplaced | internal/core/client.go:246-248 | A concrete base path, ending in an escaped slash, below which an ordinary reference does not stay |
| Endpoints.BaseEndsInSlashIff | internal/core/client.go:246-248 | Exactly when resolution starts from a path that ends in a slash |
| Patterns.PathBytes | internal/core/client.go:252-281 | The bytes that stand in a path, in a segment and in an encoded path as they are, as character classes |
| Endpoints.NodeIdUnescaped | internal/coresync/sync.go:243 | `url.PathEscape` leaves node IDs as they are |
| Endpoints.NodeEndpointResolves | internal/coresync/sync.go:240-254 | For every valid node ID and every base path both node endpoints are accepted and resolve to v1/nodes/ID/suffix below the dot-removed base, or below its folder if it does not end in a slash |
| Endpoints.RegistrationResolves | internal/coresync/sync.go:29 | So does the registration endpoint, for every base path |
| Endpoints.EndpointsDistinct | internal/coresync/sync.go:240-254 | No two node IDs, and no two purposes, share an endpoint |
| Utf8.RepairValid | internal/core/client.go:309-314 | Repaired text is valid UTF-8 |
| Utf8.Repair | internal/check/check.go:232-236 | n bytes become at most 2n if n is even, 2n+1 if it is odd |
| Utf8.RepairBoundTight | internal/check/check.go:232-236 | For every n some input needs them all |
| Utf8.RepairIdentityIff | internal/core/client.go:309-314 | Text is left alone exactly when it is valid |
| Utf8.RepairOfPrefix | internal/core/client.go:309-314 | Valid text cut anywhere and repaired is its whole runes, then one U+FFFD exactly when the cut fell inside a rune |
| Utf8.TrimSpaceTrimmed | internal/core/client.go:313 | Trimmed text begins and ends with no Unicode space, and trimming again changes nothing |
| Trimming.TrimRepair | internal/check/check.go:232-236 | Trimming and repairing commute, for all bytes |
| Trimming.RepairLength | internal/core/client.go:313 | Repair gains three bytes for each run of bad bytes and loses the run: the exact length |
| Trimming.TrimAround | internal/coresync/sync.go:270 | Space put around any text, multi-byte space included, is trimmed away again |
| Trimming.TrimSpaceIff | internal/core/client.go:313 | What is trimmed is exactly the white space at both ends: the result begins and ends with none, and only white space stood around it |
| Trimming.RepairAroundRune | internal/core/client.go:313 | A rune stays as it is wherever it stands and splits the repair in two |
| Trimming.RepairOfRun | internal/core/client.go:313 | Bytes in which no rune begins become one U+FFFD |
| CodePoints.RuneIff | internal/core/client.go:309-314 | A text begins with a rune if and only if it begins with the UTF-8 encoding of a code point that is no surrogate |
| CodePoints.ValidIff | internal/core/client.go:309-314 | Valid texts are the encodings of lists of such code points |
| CodePoints.SpaceHeadIff | internal/core/client.go:313 | What counts as a space at the beginning are the encodings of the code points of `unicode.IsSpace` |
| CodePoints.SpaceTailIff | internal/core/client.go:313 | And at the end |
| Utf8.SanitiseStable | internal/check/check.go:232-236 | Sanitised text is valid and trimmed, and a second pass changes nothing |
| Capture.FeedIsReference | internal/check/check.go:211-230 | After any writes the data are the first min(limit, total) bytes of the serialised stream, and truncated means total > limit; the chunking is immaterial |
| Capture.ScheduleIndependent | internal/check/check.go:200-242 | For all interleavings of two writers, how much is kept and whether it is truncated is the same |
| Capture.LimitedBuffer.Write | internal/check/check.go:211-230 | Keeps that relation between the fields and all writes so far, and reports the full length |
| Capture.LimitedBuffer.Text | internal/check/check.go:232-236 | Valid text of at most 2*limit+1 bytes, the sanitised prefix of everything written |
| Capture.ReadBounded | internal/core/client.go:283-292 | However the body is cut into pieces: the whole body exactly if it has at most 1 MiB, otherwise too large, and never more than 1 MiB + 1 byte is taken; a body that breaks is an error |
| Capture.ErrorExcerptBounded | internal/core/client.go:309-314 | Any body gives a valid excerpt of at most 8192 bytes; a valid one gives its whole runes below the cut, then at most one U+FFFD |
| Capture.ExcerptMeans | internal/core/client.go:309-314 | The excerpt is the repair of the first 4096 bytes without the white space around it |
| Capture.ExcerptWithinLimitIff | internal/core/client.go:24-26 | The exact length of an excerpt, and that it keeps the 4096-byte limit if and only if the bytes shown, plus three for each run of bad bytes, less the bad bytes, fit |
| Capture.ExcerptDoubles | internal/core/client.go:309-314 | A body whose excerpt has 8192 bytes |
| Capture.ValidExcerptWithinLimitIff | internal/core/client.go:309-314 | A valid body longer than the limit keeps it if and only if the cut falls between runes, or the torn bytes and the trimmed leading ones are three or more together |
| Capture.TornBody | internal/core/client.go:309-314 | The family of valid bodies that break it: a rune cut after its first or second byte, with nothing trimmed in front, gives 4098 or 4097 bytes |
| Identifiers.ValidIffDocumented | internal/identifier/identifier.go:7-13 | The regular expression accepts exactly the documented identifiers |
| Patterns.IdentifierMatches | internal/identifier/identifier.go:7 | Identifiers are exactly what the pattern matches as a regular expression |
| Patterns.NodeIdMatches | internal/coresync/sync.go:38 | So are node IDs |
| Patterns.RevisionMatches | internal/desired/desired.go:19 | So are revisions |
| Identifiers.LessIff | internal/desired/desired.go:122 | The order puts a text before its extensions and otherwise decides by the first byte that differs |
| Identifiers.CanonicalForm | internal/desired/desired.go:118-123 | The normalised list is the only strictly ascending one with exactly the given values; it does not depend on order or repetition and is its own normal form |
| Identifiers.SortedKeys | internal/role/role.go:132-136 | Strictly ascending with exactly the map's keys, whatever order the map yields them in |
| Identifiers.DecodeIdentifiers | internal/desired/desired.go:103-124 | The strict normaliser's loop computes `Strict` |
| Identifiers.ValidateIdentifiers | internal/role/role.go:118-138 | The lenient normaliser's loop computes `Lenient` |
| Identifiers.StrictLenientAgree | internal/role/role.go:118-138 | Strict succeeds if and only if lenient does not warn, and then they agree; otherwise lenient is strict on the valid values with one warning per invalid occurrence, in order |
| Identifiers.ValidOnlyAppend | internal/role/role.go:121-130 | Values are sorted out one by one in the order given |
| Identifiers.Parse | internal/desired/desired.go:63-90 | Succeeds exactly on supported documents with a valid revision and valid identifiers, and normalises both lists; each error, and its content, is reported exactly when its check is the first to fail |
| ReleaseFile.ParseRelease | internal/lbi/lbi.go:67-93 | The loop computes `ParseText` |
| ReleaseFile.ParseAssignments | internal/system/system.go:191-212 | So does its twin |
| ReleaseFile.ParsersAgree | internal/system/system.go:191-232 | Identical maps and warnings on all bytes, whatever unquoting does |
| ReleaseLines.LineMeans | internal/lbi/lbi.go:72-116 | For every line over its bytes: ignored if and only if it is blank or its first byte that is not space is `#`; `expected KEY=VALUE` if and only if there is no `=` or no key before it; otherwise the key is assigned the value as it stands, what its apostrophes enclose or what unquoting answers, or the error is the one of the quote left open or of unquoting |
| ReleaseLines.FileMeans | internal/lbi/lbi.go:67-93 | For every file over its lines: each key holds what the last line that assigns it says, and there is a warning exactly for each line that earns one, in line order |
| ReleaseLines.BareLine | internal/lbi/lbi.go:115 | `key = value` without quotes, with space around either, assigns that value, the empty one included |
| ReleaseLines.AnyStyleRoundTrip | internal/lbi/lbi.go:67-116 | Assignments written bare or in either kind of quotes, each in its own way, parse back with the last one of a key winning and without a warning |
| ReleaseFile.CollectAccounts | internal/lbi/lbi.go:67-93 | Ignored lines, warnings and accepted assignments add up to the lines; every key holds its last accepted value and no other key appears |
| ReleaseFile.WarningsLocate | internal/lbi/lbi.go:79-88 | Every warning is the one its own line earns, and warnings are in line order |
| ReleaseFile.ReleaseRoundTrip | internal/lbi/lbi.go:95-116 | KEY='VALUE' lines of well-formed keys and newline-free values parse to exactly those assignments, the last one winning, with no warning |
| ReleaseFile.ReleaseMapRoundTrip | internal/lbi/lbi.go:67-116 | Any such map printed in any order is returned |

## Left out

- TLS, certificate pools, HTTP transport, headers and redirects: Core is an arbitrary reply or error to each call, and may have issued an identity even when the reply was lost.
- JSON other than the state document: requests, registration responses and desired-state documents are records; what `encoding/json` makes of a wrong type or an unknown field there is a rejected call or `NotStrings`.
- SHA-256 is a function parameter of which nothing is assumed; `strconv.Unquote` is another.
- Loss of power: completed operations persist, as nothing syncs the directory; only processes crash.
- Removal of a token that a crash left behind: the program does not provide it.
- What administrators do to the files, and what other programs do to them.
- The target of a symbolic link is fixed for a whole history, and the parents that `MkdirAll` may create are not represented.
- Configurations in which two of the four configured paths coincide: the configuration check (`internal/config/config.go:269-274`) asks only for absolute paths and lets them through. If the token file is the machine ID file, for one, and only its owner may read it, a successful registration removes the machine ID. The paths are taken as given, without `filepath.Dir`.
- The wording of errors where it repeats data or the wording of a library: schema versions, JSON syntax and HTTP excerpts in messages are not represented.
- CoreClient.ParseBaseUrl: takes scheme, user, host, path, query and fragment as `url.Parse` has split them, because the grammar of the authority plays no part in what follows.
- `url.Parse` is modelled for endpoint references and for the path part of a base URL; the splitting of scheme, user and host is the caller's. A reference that does not parse and one that is absolute get the same error.
- `parseValue` and `parseAssignmentValue` have one body and are modelled once.
- Synchronizers.Synchronizer.Sync: is written as stages (`FindIdentity`, `ConsumeToken`, `Beat`, `Observe`) that the source has in one body, and so are `Register` and `WriteState`; time is an integer and its formatting is left out.
- Runs.RegisteredForGood: assumes that runs do not overlap, which the program leaves to systemd.
- Process execution, deadlines, configuration, logging, collection of system facts, role files, packaging and shell scripts: easy or outside the protocol.
