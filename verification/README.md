# Intent packages: a Dafny model

An intent package is a directory holding `package.yaml` (what is to be done, a revision number and a
status) and `lineage.yaml` (the ledger: revisions, transitions and approvals). Operations move it through
a lifecycle, every one of them tells a shared append-only event chain what it did, and the question the
rest of the factory asks is: was exactly this content approved? The model follows the code under
`src/intent_packages` from the bytes that are hashed up to that answer.

| module | what it models |
|---|---|
| `Values`, `Ordering`, `JsonText`, `JsonMinimal`, `Canonical`, `CanonicalText` | loaded documents, the two string orders, JSON strings and why theirs is the shortest text, the canonical printer and a decoder for it |
| `Utf8`, `Packages` | the encoding of text before it is digested; `package.yaml`, its intent core and its hash |
| `Destinations` | the parser that accepts a destination only when writing it out gives it back, and lists of destinations |
| `Schema`, `SchemaLocations`, `SchemaKeys`, `TypeScan`, `TypeScanLocations`, `Scaffolds` | the schema walker, the scan for forbidden types, and the stub generator |
| `Lifecycle`, `LineageLedger`, `Checks`, `LineageProblemsExact` | states and edges, the ledger changed in place, checks S, H and L and the guard made of them |
| `ApprovalPolicy`, `PolicyDocument`, `PolicyGrants` | why a standing policy refuses a revision, and how its grants are written down |
| `Operations`, `Recognition`, `Guards` | the four state-changing operations and the read gate `verify_approval`; what each asks and leaves, in terms of the values stored |
| `LedgerInvariant`, `LedgerRuns`, `LedgerOutcomes`, `ApprovedState`, `ApprovalPath`, `PolicyPath` | what every durable change keeps, what holds over whole runs, what `approved` says about an approval, and that the way to a true answer is open |
| `Envelope`, `EnvelopeCommands` | the command envelope of a dependency bump, what its commands say, and the guards on its dry run |
| `Dispatch` | the one write that must not be repeated blindly, and what is said when its reply is lost |
| `LineEdit` | the two line edits of a hand-written file |
| `Sequences` | facts about lists that several of these share |

**How operations, crashes and runs are modelled.** An operation makes durable changes one at a time: an
emit, a rewrite of the ledger, a rewrite of a line of the package file. Its *trace* lists what the disk
holds at the start and after each change. `Operations.Store` carries the operation out under a budget of
durable changes; when the budget is used up the process dies, and what is left is an element of the trace.
A *run* is a sequence of labels: an operation here or in another directory (stopped anywhere), a hand edit
that leaves the revision and status lines alone, a repair that sets the status line to the ledger's state,
an event that approves nothing, or tampering that replaces both files by anything. An *orderly* run has no
tampering. The chain is only appended to. An emit may be recorded, be muted, or raise, after having been
recorded or not.

**What is taken as given.** SHA-256 is a function from bytes to digests; where a result needs it, no two
inputs share a digest and no digest is empty. A character is a Unicode scalar value. The strict loader
returns no mapping with a repeated key. Whitespace, NFC normalisation, case folding, the registry, the
policy document, the member record, the per-file checks K, J, ID, RE, TR, A, P and T, and the end of a
JSON value that is neither a string nor a boolean are parameters; the results hold for every choice of
them.

## Where the code and its documentation differ

- The docstring at `src/intent_packages/operations.py:237-243` says that a retried `do_approve` completes an
  approval interrupted between its two file writes. It does not: `validate_package` comes first (line 251)
  and check S refuses the mismatch (`src/intent_packages/checks_semantic.py:23-29`). `CrashedApproval` states
  the refusal and that a repair of the status line completes the approval; `ReplayWritesNothing` states that
  the branch meant for the retry never has anything to write.
- The comment on `_REACH_FIELD_BY_SCHEMA` (`src/intent_packages/approval_policy.py:83-84`) describes schema 3 as
  several reach sets where the others have one. It also refuses a set with a repeated member, which schema
  2 lets pass: `Schema2IsSchema3WithOneOption` gives the exact condition and `RepeatedReachMember` a whole grant.
- `_stub_for` says a scaffold must validate. Its output walks clean exactly when every enum that is used has
  a string to offer to a string field: `StubConformsIff`, with `StubOfMistypedEnum` as the input that fails.
- `dispatch` takes a reply for a real dispatch when its id is not yet recorded and its status is `dispatched`
  (`src/intent_packages/factory/execution.py:147-153`). That is weaker than this call having created a record: a
  reply without an id, or one naming a record another client created since the scan, exits 0 too.
  `ExitZeroIff` gives the exact condition and `ExitZeroWithoutRecord` an input.
- An approval made through the null emitter enters the ledger with nothing on the chain. No command builds that
  emitter (`src/intent_packages/emitter.py:33-37` names a `--no-emit` flag the command line does not have), so
  this concerns a caller who passes it to `do_approve`. `MutedPathLeavesChain` is a run that does it. After any
  orderly run the ledger is inside the chain exactly when each such entry has an event of its hash and revision
  on the chain from somewhere, before or after: `LedgerInChainIff`.
- `ready_for_review -> approved` is an ordinary edge, so the state alone says nothing about an approval:
  `ApprovedWithoutApproval` takes any presentable package to `approved` with none. The state with the last
  recorded transition says it exactly: the revision has an approval if and only if that transition led into
  review (`ApprovedWithApprovalIff`). `MovingNeverVerifies` states that taking an edge changes nothing
  `verify_approval` answers.
- Check L is documented as testing for monotonic revisions and tests for distinct ones
  (`src/intent_packages/checks_semantic.py:124`): `DescendingRevisionsPass` is a ledger it lets through. That
  revisions increase is proved of every orderly run instead.
- The comment at `src/intent_packages/profiles/dependency_update.py:723-726` says the characters let through in a
  name are inert in a sed script. A slash is not, and nothing ties scoped names to npm: `PipEditReads` states
  that the edit made for pip means what it should exactly when the name has no slash, and `ScopedPipEdit` that
  every scoped name, such as the `@a/b` of `SomeScopedName`, is let through with an edit that does not.

## Model

| member | source | states |
|---|---|---|
| JsonText.CanonStr | src/intent_packages/canonical.py:39-62 | The loop over the buffer of pieces writes the quoted, escaped string, for every string. |
| JsonText.EscapeMinimal | src/intent_packages/canonical.py:40-62 | A string comes out unchanged exactly when it holds no control character, quote or backslash; otherwise it grows. |
| JsonText.ScanQuoted | src/intent_packages/canonical.py:39-62 | The strict JSON string scanner gives back what was written and stops right after the closing quote, whatever follows. |
| JsonMinimal.EscapeShortest | src/intent_packages/canonical.py:39-62 | Of all texts a JSON reader reads as the string, the one written is the shortest; and of those as short, the only one whose `\u` escapes are in lower case. |
| JsonMinimal.EscapeLower | src/intent_packages/canonical.py:57-58 | The text written is such a text: its `\u` escapes have no upper-case digit, and it reads back. |
| JsonText.DigitsRoundTrip | src/intent_packages/canonical.py:21-22 | The decimal text of a number, of any size, has that number as its value. |
| Ordering.ByteOrderIsUnitOrder | src/intent_packages/canonical.py:31-34 | Comparing UTF-16-BE bytes is comparing code units. |
| Ordering.KeyOrderStrictTotal | src/intent_packages/canonical.py:31-34 | The member order is irreflexive, total on different keys, and transitive. |
| Ordering.KeyOrderVersusCodePointOrder | src/intent_packages/canonical.py:31-34 | It disagrees with Python's own string order exactly on pairs whose first difference sets a character outside the BMP against one in U+E000 to U+FFFF. |
| Ordering.SortedUnique | src/intent_packages/canonical.py:34 | A multiset has one sorted arrangement when equal ranks mean equal items. |
| Ordering.SortDecidesPermutation | src/intent_packages/approval_policy.py:413-426 | Two lists of strings sort to the same list exactly when they are permutations of each other. |
| Canonical.CanonDefined | src/intent_packages/canonical.py:16-36 | The printer raises exactly on trees holding a float, a date, bytes, an unknown type or a key that is not a string. |
| Canonical.CanonRoundTrip | src/intent_packages/canonical.py:16-62 | Decoding the text of any printable value, followed by anything that does not start with a digit, gives its meaning and exactly what followed. |
| Canonical.CanonEqualIffMeaningEqual | src/intent_packages/canonical.py:16-62 | Two values have the same text exactly when they mean the same, member order aside. |
| Canonical.MeaningFixesText | src/intent_packages/canonical.py:27-35 | The text does not depend on the order members were written in, at any depth. |
| Canonical.ObjectTextInKeyOrder | src/intent_packages/canonical.py:27-35 | Of all arrangements of an object's members exactly one is in UTF-16 key order, and it is the one printed. |
| CanonicalText.ScalarText | src/intent_packages/canonical.py:17-24 | The literals are in lower case, a negative number has its sign first, and a string is its escaped text between quotes. |
| CanonicalText.ListText | src/intent_packages/canonical.py:25-26 | The text of two lists put together is their two texts with a comma between, in one pair of brackets; that of one item is the item in brackets. |
| CanonicalText.ObjectText | src/intent_packages/canonical.py:27-35 | The same for objects whose members stand in key order, in braces, each member its quoted key, a colon and its value; no space anywhere. |
| Utf8.EncodeInjective | src/intent_packages/canonical.py:70 | Different texts have different UTF-8 bytes. |
| Utf8.BytesWellFormed | src/intent_packages/canonical.py:70 | Each character becomes one of the byte sequences section 4 of RFC 3629 allows, the one whose bits are its code point. |
| Packages.CoreIsIntentCore | src/intent_packages/canonical.py:10-13 | Popping the status from the loaded dict leaves the body and the revision. |
| Packages.HashBindsIntent | src/intent_packages/canonical.py:69-70 | Under an injective digest two packages hash alike exactly when they mean the same intent, revision number included. |
| Packages.IntentBindsFields | src/intent_packages/canonical.py:10-13 | Equal intents have the same revision number, the same fields, and fields of the same meaning. |
| Packages.IntentBindsFlag | src/intent_packages/operations.py:148 | Equal hashable intents agree on the truth of any nested flag, such as `follow_up.required`. |
| Destinations.DestinationError | src/intent_packages/destination_format.py:38-72 | The loop that moves `position` and collects `values` returns the first problem met reading the text field by field, or refuses what does not render back. |
| Destinations.ScanRendered | src/intent_packages/destination_format.py:44-58 | Reading the fields of a rendering gives back its values, through the JSON decoder and any escapes. |
| Destinations.AcceptedIffRendering | src/intent_packages/destination_format.py:38-72 | A string is accepted exactly when it is the rendering of a known kind with admissible values. |
| Destinations.RenderTold | src/intent_packages/destination_format.py:59-67 | A rendering is the kind and then for each field a space, its name, an equals sign and its value, strings quoted and booleans in lower case. |
| Destinations.NamedOnce | src/intent_packages/destination_format.py:59-72 | That kind and those values are unique. |
| Destinations.KnownKindsSpaceless | src/intent_packages/destination_format.py:20-34 | The table of kinds meets the one condition the two results above put on it. |
| Destinations.SharedTable | tests/fixtures/rotation_destination_format.json:3-48 | The kinds and the fields of each, in order, as the fixture shared with the executor lists them. |
| Destinations.AdmissibleIff | src/intent_packages/destination_format.py:75-83 | A value passes exactly when it is a boolean in a boolean field, or elsewhere a non-empty string that stripping leaves as it is and that is in NFC. |
| Destinations.UnknownKindIff | src/intent_packages/destination_format.py:39-42 | The complaint is about the kind exactly when no known kind is the string or starts it before a space. |
| Destinations.ProblemsTold | src/intent_packages/destination_format.py:46-58 | After a known kind and any number of fields in order, the complaint is about the next field: its name if that does not follow, else that no JSON value does, else its value. |
| Destinations.NothingMayFollow | src/intent_packages/destination_format.py:59-72 | When every field is there and in order, whatever follows them, be it a space, makes the string not canonical. |
| Destinations.SortedUniqueMeansAscending | src/intent_packages/profiles/non_software_operational.py:86-88 | A list equals its sorted set exactly when it strictly ascends. |
| Destinations.AcceptedIffNoProblems | src/intent_packages/profiles/non_software_operational.py:86-98 | No error is reported exactly on strictly ascending lists of renderings of which exactly one starts as a provider. |
| Destinations.ListProblemsTold | src/intent_packages/profiles/non_software_operational.py:86-98 | An unsorted list or one with a repeat is told that alone; any other, exactly what is wrong with each entry, and that not one place holds a provider. |
| Destinations.ProviderEntries | src/intent_packages/profiles/non_software_operational.py:94-97 | The prefix test counts exactly the entries whose kind is `provider`. |
| Destinations.ListsEqualIffSameNames | src/intent_packages/profiles/non_software_operational.py:86-98 | Two accepted lists are equal exactly when they name the same destinations. |
| Schema.ErrorList.Append | src/intent_packages/schema.py:193-209 | One error is added at the end of the shared list. |
| Schema.CheckScalar | src/intent_packages/schema.py:193-209 | Appends the one thing wrong with a scalar: null, then type, then enum. |
| SchemaKeys.TypeTold | src/intent_packages/schema.py:193-207 | A plain scalar field takes booleans only, integers only or strings only; `true` is no integer. Null and any other value get one error each, of its own kind. |
| SchemaKeys.OneTypeOnly | src/intent_packages/schema.py:201-207 | No value passes for two of the three types. |
| SchemaKeys.NullTold | src/intent_packages/schema.py:194-200 | Null passes exactly where the spec allows it, whatever its type and enum. |
| SchemaKeys.EnumTold | src/intent_packages/schema.py:201-209 | A value of the right type passes an enum exactly when it is a string listed there; one of the wrong type is told about its type alone. |
| Schema.Walk | src/intent_packages/schema.py:212-222 | Appends exactly the errors of the declarative walk, in order, and leaves what was there. |
| Schema.WalkList | src/intent_packages/schema.py:225-230 | The same for a list, or one error for what is not a list. |
| Schema.WalkItems | src/intent_packages/schema.py:229-230 | The loop appends the errors of each item at its index. |
| Schema.WalkMap | src/intent_packages/schema.py:233-248 | Unknown keys first, then the declared fields in turn. |
| Schema.ReportUnknownKeys | src/intent_packages/schema.py:237-239 | One error for each undeclared key, string or not, in the order met. |
| Schema.WalkFields | src/intent_packages/schema.py:240-248 | Present fields are walked, absent required ones reported, absent optional ones passed over. |
| Schema.WalkOpenMap | src/intent_packages/schema.py:251-262 | Missing required keys first, then every entry. |
| Schema.ReportMissingKeys | src/intent_packages/schema.py:255-257 | One error for each required key that is absent. |
| Schema.CheckOpenEntries | src/intent_packages/schema.py:258-262 | A bad key and a value that is not a string are reported separately, entry by entry. |
| Schema.SilentIffConforms | src/intent_packages/schema.py:193-262 | Nothing is appended exactly when the value conforms to the spec. |
| SchemaLocations.WalkExact | src/intent_packages/schema.py:193-262 | An error is appended exactly when its place breaks the spec in the way it says, at any depth. |
| SchemaLocations.WalkOnce | src/intent_packages/schema.py:193-262 | No place is reported twice for the same reason. |
| SchemaLocations.WalkReportsEachBreakOnce | src/intent_packages/schema.py:193-262 | Every breaking place is reported exactly once and nothing else is. |
| SchemaKeys.MapKeysTold | src/intent_packages/schema.py:233-248 | A key is reported as unknown exactly when it occurs and no field has its name, and as missing exactly when it does not occur and a field that is not optional has its name. |
| SchemaKeys.OpenKeysTold | src/intent_packages/schema.py:251-262 | In an open mapping a key is bad exactly when it occurs and is empty or no string; missing exactly when it is required and does not occur; and its value is reported exactly when it is no string. |
| TypeScan.ScanForbiddenTypes | src/intent_packages/schema.py:279-298 | Appends exactly the scan's errors for the whole tree. |
| TypeScan.ScanForbiddenItems | src/intent_packages/schema.py:294-296 | The loop over a list appends the errors of each item at its index. |
| TypeScan.ScanForbiddenMembers | src/intent_packages/schema.py:288-293 | The loop over a mapping reports a bad key and does not look under it. |
| TypeScan.ScanSilent | src/intent_packages/schema.py:279-298 | The scan is silent exactly on printable trees without an empty key. |
| TypeScanLocations.ScanExact | src/intent_packages/schema.py:279-298 | An error is in the scan exactly when a forbidden value or a bad key stands at its place and no bad key on the way there. |
| TypeScan.ScannedHasCanon | src/intent_packages/schema.py:265-276 | What the scan passes the canonical printer never raises on. |
| TypeScan.ScanStricterByEmptyKeys | src/intent_packages/schema.py:289-292 | Of what the printer accepts, the scan refuses exactly the trees with an empty key. |
| Scaffolds.StubDefined | src/intent_packages/factory/scaffolds.py:153-186 | A stub is made exactly for specs without an open mapping. |
| Scaffolds.StubConformsIff | src/intent_packages/factory/scaffolds.py:153-186 | It conforms to its own spec exactly when every enum in use offers a string to a string field. |
| Scaffolds.StubOfMistypedEnum | src/intent_packages/factory/scaffolds.py:172-176 | An integer field with an enum of strings gets a stub its own schema refuses. |
| Scaffolds.StubScalarTold | src/intent_packages/factory/scaffolds.py:172-181 | Null where it is allowed; else the least option of an enum; else `false`, 0 or a non-empty string. |
| Scaffolds.StubShapes | src/intent_packages/factory/scaffolds.py:182-185 | The stub of a list holds one item stub; that of a mapping has every declared key, optional ones too, each with the stub of its own spec. |
| Scaffolds.StubWalksClean | src/intent_packages/factory/scaffolds.py:153-186 | For every nesting of scalars, lists, mappings and optional keys with such enums, walking the stub reports nothing. |
| Lifecycle.TerminalIffNoExit | src/intent_packages/lifecycle.py:30-66 | The terminal states are exactly those no edge leaves, and none of them can be revised. |
| Lifecycle.EdgesRespectReview | src/intent_packages/lifecycle.py:30-70 | Review is entered only from the two editable states; what is past review stays past it; closing comes only from completed or follow-up. |
| Lifecycle.EdgesInto | src/intent_packages/lifecycle.py:30-49 | The edges into each state are the ones listed, and there are no others. |
| Lifecycle.WorkPassesApproval | src/intent_packages/lifecycle.py:30-49 | Every path of edges from draft to a state of work passes review and then approval. |
| Lifecycle.WhenRevisedWhenLocked | src/intent_packages/lifecycle.py:50-66 | A package may be revised exactly when it is approved or some path still leads to review; its content is locked exactly in the states other than the two drafting ones that some edge leaves. |
| LineageLedger.Latest | src/intent_packages/lineage.py:27-29 | An entry of the list whose number no other exceeds. |
| LineageLedger.LatestIsLast | src/intent_packages/lineage.py:27-29 | In an increasing ledger the highest revision is the last entry. |
| LineageLedger.LineageDict.AppendTransition | src/intent_packages/lineage.py:32-50 | One entry is added and nothing else in the dict changes. |
| LineageLedger.LineageDict.AppendApproval | src/intent_packages/lineage.py:76-94 | One entry is added and nothing else in the dict changes. |
| LineageLedger.LineageDict.SetCurrent | src/intent_packages/operations.py:168 | Only the current state changes. |
| LineageLedger.LineageDict.MarkSupersededBy | src/intent_packages/operations.py:409 | Only the last transition changes, by the replacement's id. |
| LineageLedger.LineageDict.SnapshotRevision | src/intent_packages/lineage.py:53-73 | The loop replaces the first entry of that number, keeping its creation time, or appends one. |
| LineageLedger.SnapshotAtEnd | src/intent_packages/lineage.py:53-73 | In an increasing ledger a snapshot at or above the last number changes the end only and keeps it increasing. |
| LineageLedger.SnapshotMeans | src/intent_packages/lineage.py:53-73 | Entry by entry: the first of that number gets the hash, author and snapshot time and keeps its creation time, the others stay, and only without one is an entry added. |
| Checks.CheckRevisions | src/intent_packages/checks_semantic.py:123-146 | The loop with its `seen` set appends the problems of the revisions and returns the hash by number. |
| Checks.CheckTransitions | src/intent_packages/checks_semantic.py:155-171 | Appends one problem for each illegal edge, exempting revisions and supersessions. |
| Checks.CheckApprovals | src/intent_packages/checks_semantic.py:174-192 | Appends one problem for each approval of no revision or of another hash. |
| Checks.LineageConsistencyErrors | src/intent_packages/checks_semantic.py:201-214 | The three in that order. |
| Checks.LineageSilentIffConsistent | src/intent_packages/checks_semantic.py:123-214 | Check L is silent exactly when numbers are positive and distinct, ordinary transitions are legal, and each approval's hash is the one recorded for its number. |
| LineageProblemsExact.LineageProblemsAreExact | src/intent_packages/checks_semantic.py:123-214 | A problem is reported exactly when the entry it names has it, for every kind of problem of check L. |
| Guards.DriftTold | src/intent_packages/checks_semantic.py:32-51 | A locked package that drifted is told to revise while it is approved or can still come to review, and to supersede once it is past that. |
| Checks.DescendingRevisionsPass | src/intent_packages/checks_semantic.py:132-145 | A ledger with revisions 2 and then 1 passes check L. |
| Checks.ValidatePackage | src/intent_packages/validate.py:237-263 | The checks append to one list in their order; it raises where check H meets an empty revision list. |
| Checks.ValidIffClean | src/intent_packages/validate.py:237-263 | No error exactly when the file passes its own checks and the scan, mirrors the ledger, equals the latest recorded hash if drift-locked, and the ledger is consistent. |
| Checks.CleanHashable | src/intent_packages/validate.py:247-261 | A package that validates has a hash. |
| ApprovalPolicy.TargetVerdictMeans | src/intent_packages/approval_policy.py:343-355 | No objection exactly when the target is listed, or is in the readable member record after case folding. |
| ApprovalPolicy.ReachVerdictMeans | src/intent_packages/approval_policy.py:399-410 | No objection exactly when the declared reach is one of the options, as a list. |
| ApprovalPolicy.TermsVerdictMeans | src/intent_packages/approval_policy.py:413-426 | No objection exactly when the declared terms are a permutation of the permitted ones. |
| ApprovalPolicy.AcceptanceVerdictMeans | src/intent_packages/approval_policy.py:453-464 | No objection exactly when there is a criterion and every one has a permitted evidence type and approver. |
| ApprovalPolicy.NoRefusalIffConforms | src/intent_packages/approval_policy.py:152-181 | The refusals are empty exactly when the policy grants the package's profile and the package has the shape granted. |
| ApprovalPolicy.RefusalsName | src/intent_packages/approval_policy.py:152-181 | When nothing raises, each reason is among the refusals exactly when the package fails the condition it names, stated by paths into the package and bounds of the grant; the two reasons about the target share one. |
| ApprovalPolicy.TermsRaise | src/intent_packages/approval_policy.py:413-426 | Comparing a list of terms raises exactly when it is a list that holds something other than strings and cannot be sorted. |
| ApprovalPolicy.MemberVerdictMeans | src/intent_packages/approval_policy.py:453-472 | Looking a value up in a permitted set raises exactly on a list, a mapping or another value that cannot be hashed; it is fine exactly on a permitted string. |
| ApprovalPolicy.ProfileRefusals | src/intent_packages/approval_policy.py:153-168 | The three refusals about the profile, each alone: the profile is absent, unknown to the policy, or listed as not approvable. |
| ApprovalPolicy.NarrowingKeepsObjections | src/intent_packages/approval_policy.py:343-472 | Every objection to a package under a grant is also raised under any narrower grant, and narrowing never turns objections into an exception. |
| PolicyDocument.ApproverRecognised | src/intent_packages/approval_policy.py:148-150 | The signature made for a profile matches the recognising pattern exactly when the profile's name is well formed. |
| PolicyDocument.PolicyApproverIff | src/intent_packages/approval_policy.py:53 | The recognising pattern matches exactly the signatures of a lower-case profile name and a version of at least 1, up to one newline at the end. |
| PolicyDocument.ApproverNamesOneGrant | src/intent_packages/approval_policy.py:53 | Equal signatures have equal profiles and versions. |
| PolicyDocument.ParseReachOptions | src/intent_packages/approval_policy.py:285-305 | The loop that fills the list of options returns all of them in order or raises on the first bad one. |
| PolicyGrants.GrantIff | src/intent_packages/approval_policy.py:252-340 | A table loads as a grant exactly when it has the keys of its schema and no others, and each field of the grant is what the key of that field holds, in the form that key asks for. |
| PolicyDocument.Schema2IsSchema3WithOneOption | src/intent_packages/approval_policy.py:252-305 | A schema-3 spelling that loads is the schema-2 grant; a schema-2 grant has an equal schema-3 spelling exactly when its reach set repeats no member. |
| PolicyDocument.RepeatedReachMember | src/intent_packages/approval_policy.py:252-305 | A complete grant whose reach set repeats a member loads under schema 2, and its schema-3 spelling is refused. |
| Operations.Store.Emit | src/intent_packages/operations.py:158-165 | At most one event is added to the chain, or the process is dead. |
| Operations.Store.WriteLineage | src/intent_packages/lineage.py:22-24 | The ledger on disk becomes the dict, or the process is dead. |
| Operations.Store.SetStatus | src/intent_packages/operations.py:79-97 | Only the status changes, or the process is dead. |
| Operations.Store.SetRevision | src/intent_packages/operations.py:100-112 | Only the revision number changes, or the process is dead. |
| Operations.Store.Finish | src/intent_packages/operations.py:169-171 | The ledger is written before the status line. |
| Operations.Store.RefuseTransition | src/intent_packages/operations.py:137-163 | The refusals of a transition, in the order they are decided. |
| Operations.Store.DoTransition | src/intent_packages/operations.py:115-171 | The disk left is the element of the trace the budget reaches, and the outcome says refused, dead or done accordingly. |
| Operations.Store.RefuseApprove | src/intent_packages/operations.py:251-270 | The refusals of an approval before the ledger's approvals are looked at, in order. |
| Operations.Store.Replay | src/intent_packages/operations.py:272-280 | Completes whichever of the two writes is missing, and nothing more. |
| Operations.Store.DoApprove | src/intent_packages/operations.py:212-305 | The same for an approval: a failed emit stops before any write; a repeat neither emits nor appends. |
| Operations.Store.DoRevise | src/intent_packages/operations.py:308-359 | The same for a revision, which moves the revision line first and does not validate. |
| Operations.Store.RefuseSupersede | src/intent_packages/operations.py:378-402 | The refusals of a supersession, in order. |
| Operations.Store.DoSupersede | src/intent_packages/operations.py:362-412 | The same for a supersession, whose entry carries the replacement's id. |
| Operations.LeftOfWritten | src/intent_packages/operations.py:158-171 | Which of chain, ledger and status have changed after each number of durable changes. |
| Operations.EventsFileHasMatchingApproval | src/intent_packages/operations.py:472-504 | The scan finds an approval exactly when some event of that action carries the hash and the revision in one evidence item. |
| Operations.VerifyApproval | src/intent_packages/operations.py:529-588 | The answer is a function of the two files and the chain; a chain that cannot be consulted means no. |
| Recognition.VerifiedExactly | src/intent_packages/operations.py:529-588 | The answer is true exactly when a ledger entry has the hash of the content and an approver who is a person or a policy signature, and unless only the ledger is asked an intact chain has a `package.approved` event with this hash and revision in one evidence item. It raises exactly on a package without a hash. |
| Guards.TransitionAllowedIff | src/intent_packages/operations.py:137-163 | What `do_transition` asks: a clean package, an edge, an id, and for closing a completed package that `follow_up.required` holds a false value. |
| Guards.TransitionReasons | src/intent_packages/operations.py:137-151 | Each reason for refusing a transition is given exactly when its own condition holds and none before it does. |
| Guards.ClosingAsks | src/intent_packages/operations.py:148-151 | A completed package that validates is refused closing exactly when `follow_up.required` is true, and may always go to `follow_up_due`. |
| Guards.TransitionDoes | src/intent_packages/operations.py:153-171 | What a completed transition leaves: one more entry with its fields, both files in the new state, approvals untouched, and the hash recorded when it led into review. |
| Guards.AuthoriseIff | src/intent_packages/operations.py:174-209 | Exactly a person, or the signature of the policy in force for a package it describes, is let through. |
| Guards.ApproveAllowedIff | src/intent_packages/operations.py:249-270 | What `do_approve` asks: a clean package, in review or approved, whose `scope.open_questions` holds a false value, and an approver as above. |
| Guards.ApproveReasons | src/intent_packages/operations.py:249-270 | Each reason for refusing an approval, short of the authorisation, is given exactly when its own condition holds and none before it does. |
| Guards.QuestionsRefused | src/intent_packages/operations.py:265-266 | A package that validates in review is refused for open questions when the stored list is not empty, with nothing emitted or written, and never for that reason when it is empty. |
| Guards.ApproveOutcomeMeans | src/intent_packages/operations.py:272-305 | How `do_approve` ends tells what it left: done only with both files approved and an entry of this content; refused only with both files untouched, and the chain too unless the emit failed. |
| Guards.ApprovalDoes | src/intent_packages/operations.py:288-305 | What a completed approval leaves: one entry and, unless muted, one event, of the same hash, revision, approver and commit, and both files approved. |
| Guards.ReplayDoes | src/intent_packages/operations.py:272-280 | Repeating an approval the ledger holds sets the ledger's state if need be and then the status line if need be, one change each, and touches nothing else. |
| Guards.RevisionDoes | src/intent_packages/operations.py:328-359 | At every stop of a revision: the body and the approvals stand, the number is one higher once anything changed; at its end both files are drafts and the new number has the hash of the content. It does nothing exactly outside the states that may be revised. |
| Guards.SupersedeAllowedIff | src/intent_packages/operations.py:378-397 | What `do_supersede` asks: one of four states, and a replacement that loads, has the id it is called by, and names this package as the one it supersedes. |
| Guards.SupersessionDoes | src/intent_packages/operations.py:399-412 | What a completed supersession leaves: one more entry, which names the replacement, both files superseded, revisions and approvals untouched. |
| LedgerInvariant.HashNamesRevision | src/intent_packages/operations.py:153-156 | A recorded hash that the package has now fixes the package's revision number. |
| LedgerInvariant.CleanAtLast | src/intent_packages/checks_semantic.py:32-51 | A package that validates in a drift-locked state is the content of the ledger's last revision. |
| LedgerInvariant.TransitionKeeps | src/intent_packages/operations.py:153-171 | A transition keeps the ledger invariant and every approved entry. |
| LedgerInvariant.ApproveKeeps | src/intent_packages/operations.py:302-305 | So does an approval, which names the last revision and its hash. |
| LedgerInvariant.ReviseKeeps | src/intent_packages/operations.py:338-358 | So does a revision, which snapshots a number no approval has. |
| LedgerInvariant.SupersedeKeeps | src/intent_packages/operations.py:408-411 | So does a supersession. |
| LedgerInvariant.ReplayWritesNothing | src/intent_packages/operations.py:272-280 | In every state satisfying the invariant the replay branch finds both writes already made. |
| LedgerInvariant.TraceKeeps | src/intent_packages/operations.py:115-412 | Wherever any operation stops, the directory it leaves satisfies the invariant and has lost no approval and no approved entry. |
| LedgerRuns.ReachableLedger | src/intent_packages/operations.py:153-156 | After every orderly run, crashes included: revisions increase, hashes are of content with their number, approvals name a recorded revision with its hash, and check L passes. |
| LedgerRuns.ReachableReplay | src/intent_packages/operations.py:302-304 | After every orderly run the transitions lead from draft to the current state with exactly one gap, from review to approved, for each approval. |
| LedgerRuns.ApprovedRevisionFrozen | src/intent_packages/lineage.py:53-73 | From its approval on a revision's entry never changes, and no approval is lost. |
| LedgerRuns.TraceChain | src/intent_packages/operations.py:288-300 | An operation adds at most one event, and an approval event only if it is an approval that passed every check, of that content. |
| LedgerRuns.ChainAlwaysExplained | src/intent_packages/operations.py:249-300 | After any run, tampering included, every approval on the chain was put there, at its place, by a `do_approve` step that had passed every check on content of that hash and revision. |
| LedgerRuns.AuthoriseMeans | src/intent_packages/operations.py:174-209 | An approver who is let through is a person, or the exact signature of a policy that describes this package. |
| LedgerRuns.VerifiedMeansApproved | src/intent_packages/operations.py:566-588 | After any run, tampering included, a true answer means an earlier `do_approve` of this intent and revision, on a clean package in review, with no open questions, by an authorised approver, which put the event with this hash and revision on the chain. |
| Guards.NoQuestionsOnChain | src/intent_packages/operations.py:265-266 | After any run, content with the hash of an approval on the chain has a false value, such as the empty list, in `scope.open_questions`. |
| LedgerOutcomes.ContentFrozenSinceReview | src/intent_packages/checks_semantic.py:32-51 | Whenever validation passes in a drift-locked state the intent is the one last taken into review. |
| LedgerOutcomes.FollowUpHonoured | src/intent_packages/operations.py:148-151 | Every run to closed has been through review, and through `follow_up_due` if the content last reviewed requires a follow-up. |
| Guards.FollowUpSeen | src/intent_packages/operations.py:148-151 | If `follow_up.required` of the content last taken into review holds a true value, every orderly run to closed has been in `follow_up_due`. |
| Guards.NoQuestionsInLedger | src/intent_packages/operations.py:265-266 | In an orderly run the same holds of content with the hash of any ledger approval: no question was left open in it. |
| LedgerOutcomes.TerminalIsFinal | src/intent_packages/lifecycle.py:48 | In a terminal state no operation changes anything. |
| LedgerOutcomes.MismatchRefused | src/intent_packages/checks_semantic.py:23-29 | While status and ledger disagree, every transition and approval is refused as invalid and changes nothing. |
| LedgerOutcomes.CrashedApproval | src/intent_packages/operations.py:236-243 | After a crash between the two writes every retry is refused, and repairing the status line gives what the uninterrupted call would have left. |
| LedgerOutcomes.CrashedEmitRepeats | src/intent_packages/operations.py:288-302 | After a crash between the emit and the ledger a retry goes through and leaves two equal events for one entry. |
| LedgerOutcomes.ApprovedStaysPut | src/intent_packages/operations.py:270-286 | On an approved package `do_approve` emits nothing and writes nothing, whoever asks. |
| LedgerOutcomes.ApprovedThenVerified | src/intent_packages/operations.py:288-305 | A completed, recorded approval by a recognised approver makes `verify_approval` true. |
| ApprovalPath.ReviewThenApproveVerifies | src/intent_packages/operations.py:249-305 | The partner of `VerifiedMeansApproved`: a fresh package that passes its checks, has no open questions, is taken into review and approved there by a person, makes `verify_approval` true, whatever became of the transition's event. |
| ApprovalPath.ReviewThenPolicyVerifies | src/intent_packages/operations.py:196-305 | The same path signed by the policy in force, for a package that policy describes, makes `verify_approval` true whoever is a person, even if nobody is. |
| PolicyPath.SomePolicyRunVerifies | src/intent_packages/operations.py:196-305 | There is a package, a policy and a run like that, in a world that knows no person at all. |
| ApprovalPath.CleanInReview | src/intent_packages/operations.py:153-171 | A package just taken into review validates again, with the hash that was snapshotted. |
| ApprovalPath.SomeRunVerifies | src/intent_packages/operations.py:566-588 | There is a digest, a directory and a run meeting every hypothesis of the results about runs in which the answer is true. |
| LedgerOutcomes.MovingNeverVerifies | src/intent_packages/operations.py:158-171 | No transition or supersession, stopped anywhere, changes what `verify_approval` answers. |
| LedgerOutcomes.ForgedEntryCaught | src/intent_packages/operations.py:574-588 | A forged ledger entry passes the ledger-only check and fails the full one, unless the chain has an event of that hash and revision. |
| LedgerOutcomes.RevisingUnverifies | src/intent_packages/operations.py:324-348 | From the moment a revision moves the revision line, wherever it stops, `verify_approval` is not true, with or without the chain. |
| LedgerOutcomes.StatusNotHashed | src/intent_packages/canonical.py:10-13 | Packages that differ in status only have the same hash. |
| LedgerOutcomes.EveryApprovalExplained | src/intent_packages/operations.py:196-305 | In an orderly run every ledger entry was added by an approval here, in good order, of content with its hash and revision; a policy approver's content conformed to that policy. |
| LedgerOutcomes.VerifiedMeansApprovedHere | src/intent_packages/operations.py:566-588 | In an orderly run a true answer, ledger-only or full, means an approval in this directory of this intent and revision, in good order, which wrote the ledger entry that matches. |
| LedgerOutcomes.VerifiedHereIff | src/intent_packages/operations.py:566-588 | In an orderly run the answer is true exactly when an approval here by an approver recognised now wrote an entry with the hash of the content there now and, unless only the ledger is asked, the chain can be consulted and has its event. |
| LedgerOutcomes.ApprovalInChainIff | src/intent_packages/operations.py:288-304 | One approval keeps the ledger inside the chain exactly when its event was recorded or an equal one was there. |
| LedgerOutcomes.LedgerInChainIff | src/intent_packages/operations.py:288-304 | At every crash point of an orderly run the ledger is inside the chain exactly when each entry added through the null emitter has an event of its hash and revision on the chain. |
| LedgerOutcomes.LedgerAlwaysInChain | src/intent_packages/operations.py:288-304 | In particular, without the null emitter each ledger approval has its event on the chain. |
| ApprovalPath.MutedPathLeavesChain | src/intent_packages/operations.py:288-304 | The path to approval with the approval's emitter muted ends with an entry in the ledger that the chain does not hold. |
| ApprovalPath.SomeRunLeavesChain | src/intent_packages/operations.py:288-304 | There is such a run from a concrete directory. |
| ApprovalPath.ApprovedWithoutApproval | src/intent_packages/lifecycle.py:33 | Two transitions make any presentable package approved in both files with no approval, and `verify_approval` says no to it in every way. |
| ApprovedState.ApprovedWithApprovalIff | src/intent_packages/operations.py:302-304 | After any orderly run an approved package has an approval of its last revision exactly when its last recorded transition led into review. |
| Envelope.AdmittedOrDeferred | src/intent_packages/profiles/dependency_update.py:301-326 | Every command of an envelope is either executed by the dry run or deferred to coding, as often as it is allowed: the two lists together are the allowed commands. |
| Envelope.EnvelopeDisjoint | src/intent_packages/profiles/dependency_update.py:222-388 | For every tooling, checkout, names and pin sites no mutator is a verifier. |
| Envelope.FinalizeReplaysAllowed | src/intent_packages/profiles/dependency_update.py:669-691 | Filtering the allowed commands to mutators and appending the verify commands gives the allowed commands again. |
| EnvelopeCommands.BuildsIff | src/intent_packages/profiles/dependency_update.py:652-691 | An envelope is built exactly for a known tooling, plain names and versions, sections uv knows, and something to change. |
| EnvelopeCommands.RefusalTold | src/intent_packages/profiles/dependency_update.py:663-670 | Each reason for not building one is given in its own case, a known tooling being asked for before plain names, and those before sections. |
| EnvelopeCommands.PlainNames | src/intent_packages/profiles/dependency_update.py:726-742 | Exactly the versions and names of the two patterns are let through: a letter or digit and then those and the marks; lower case in both parts of a scoped name; and no two dots in a row. |
| EnvelopeCommands.SafeNames | src/intent_packages/profiles/dependency_update.py:726-742 | Names and versions let through are letters, digits and a few marks, never led by a dash, with a slash only in a scoped name. |
| EnvelopeCommands.PipEditReads | src/intent_packages/profiles/dependency_update.py:152-153 | Sed reads the edit as replacing the old pin, alone on its line, by the new one in that file exactly when the package's name has no slash. |
| EnvelopeCommands.ScopedPipEdit | src/intent_packages/profiles/dependency_update.py:723-742 | Every scoped name is let through, and under pip its edit is read as something else. |
| EnvelopeCommands.PipEnvelope | src/intent_packages/profiles/dependency_update.py:152-159 | For other names there is one such edit for each site, in order, and the verifier looks for the pin the edits write. |
| EnvelopeCommands.UvSections | src/intent_packages/profiles/dependency_update.py:210-229 | The command for each kind of section and any group or extra: only `dev` has a flag of its own, and a single-site edit locks as it goes. |
| EnvelopeCommands.UvEnvelope | src/intent_packages/profiles/dependency_update.py:232-246 | One site is edited with its lock; several are edited without, in order, and then locked once. |
| EnvelopeCommands.NpmEnvelope | src/intent_packages/profiles/dependency_update.py:277-388 | The version installed is the one the last verifier looks for; it is a development dependency exactly when every site is one; the build, the strict install and the gate are there exactly where the checkout has them. |
| Envelope.NpmAdmitted | src/intent_packages/factory/decompose.py:192-195 | What is left of an npm envelope without its deferred commands is the install, the strict install if there is a lockfile, and the grep. |
| Envelope.GuardsUnreachable | src/intent_packages/factory/decompose.py:186-196 | Neither guard fires on an envelope built from the same checkout. |
| Envelope.ProveTheBumpIsPossible | src/intent_packages/factory/decompose.py:186-195 | Refuses as drifted exactly when a deferred command is not allowed, as nothing to prove exactly when the same commands are deferred and allowed, and otherwise lets through the allowed commands that are not deferred. |
| Dispatch.DispatchEventPayloads | src/intent_packages/factory/reads.py:185-206 | The loop keeps the dispatch events, in order, with their status. |
| Dispatch.PayloadsInOrder | src/intent_packages/factory/reads.py:200-206 | What the loop keeps of an event, wherever it stands: nothing unless its action starts with the prefix, else the rest of the action and the payload, in its place. |
| Dispatch.ScanDispatchEvents | src/intent_packages/factory/reads.py:209-230 | Returns the highest ordinal any outcome consumed and every record id of any outcome. |
| Dispatch.LatestDispatchedPayload | src/intent_packages/factory/reads.py:233-253 | Returns the first payload of highest ordinal among events whose status is `dispatched`, or nothing when there is none. |
| Dispatch.Reconcile | src/intent_packages/factory/execution.py:203-258 | Says landed, with the new ids, exactly when the re-read history holds an id that the scan did not. |
| Dispatch.DispatchUnit | src/intent_packages/factory/execution.py:133-200 | The exit code and report, the history left behind, and that there is one POST when it is reached and none otherwise. |
| Dispatch.LostReports | src/intent_packages/factory/execution.py:203-258 | After any lost reply: not landed only if the second read answered and this call created nothing; landed with exactly the new ids, at least one; and that nobody can tell exactly when the second read failed. |
| Dispatch.ReplyReports | src/intent_packages/factory/execution.py:261-298 | A reply with an id: a silent no-op exactly when the history showed that id before; else its status decides. |
| Dispatch.OtherReports | src/intent_packages/factory/execution.py:133-200 | Each other exit exactly in its own case, and a verdict on landing exactly when the reply to a POST was lost. |
| Dispatch.ExitZeroIff | src/intent_packages/factory/execution.py:261-298 | Exit 0 exactly when this call created a dispatched record, or the reply names one created by another client since the scan, or the reply has no id. |
| Dispatch.ExitZeroMeansDispatched | src/intent_packages/factory/execution.py:261-298 | With ids in replies and no other writer, exit 0 exactly when a record absent from the earlier history was created as dispatched. |
| Dispatch.ExitZeroWithoutRecord | src/intent_packages/factory/execution.py:267-284 | A reply without an id exits 0 and leaves no record. |
| Dispatch.VerdictCounts | src/intent_packages/factory/execution.py:233-258 | After a lost reply the verdict is landed exactly when this call or another client created a record since the scan. |
| Dispatch.VerdictExact | src/intent_packages/factory/execution.py:233-258 | With no other writer it is landed, naming this call's record, exactly when the POST created one. |
| LineEdit.MatchByLine | src/intent_packages/operations.py:29 | Whether the status pattern matches at a line, and where its value ends, depends on that line alone, even where the comment group runs on to a later line. |
| LineEdit.StatusMatchIsGreedy | src/intent_packages/operations.py:29 | The match taken is a match of the pattern, of all matches at that place the one with the longest value, and with the comment where there is one. |
| LineEdit.OnlyTheValueChanges | src/intent_packages/operations.py:79-97 | The edit replaces the whole value of the first line the pattern matches; every line before it and everything after the value, comment included, is kept. |
| LineEdit.OnlyTheRevisionChanges | src/intent_packages/operations.py:100-112 | The revision edit replaces the first revision line, up to its end, and keeps every other character. |
| LineEdit.RevisionReadsBack | src/intent_packages/operations.py:100-112 | After it the revision reads back as written and the status reads as it did. |
| LineEdit.EditRefusedIff | src/intent_packages/operations.py:79-112 | Each edit is refused exactly when no line matches its pattern. |
| LineEdit.StatusReadsBack | src/intent_packages/operations.py:79-97 | After the edit the status reads back as written and the revision line reads as it did. |
| LineEdit.EditsCommute | src/intent_packages/operations.py:79-112 | The status edit and the revision edit give the same text in either order. |

## Left out

- LedgerRuns.ReachableLedger: covers runs without tampering, because the operations trust a hand-edited
  ledger; what holds under tampering is `ChainAlwaysExplained` and `VerifiedMeansApproved`.
- LedgerRuns.VerifiedMeansApproved: under tampering the approving step may have been in another directory
  holding a package of the same intent and revision, since the chain does not tell directories apart; in an
  orderly run it was in this one, by `VerifiedMeansApprovedHere`.
- Dispatch.VerdictExact: assumes the server has settled; a record committed only after the second read counts
  as not created, as it does in the code.
- Operations.Store.WriteLineage: a file write happens or does not; torn writes and two operators at work in
  one directory at once are not modelled.
- LineageLedger: the ledger is typed, so `_check_current_state`, `_check_grants` and the checks for entries of
  the wrong shape cannot fail and are not modelled; keys of the dict that no operation reads are dropped.
- Checks.ValidatePackage: checks K, J, ID, RE, TR, A, P and T are one parameter, so what a particular profile
  asks for is not modelled; the order of the check-T messages among the others is not kept.
- JsonText.DigitsRoundTrip: integers print unbounded as in the code, so conformance to section 3.2.2.3 of RFC
  8785 is not claimed; CPython's limit on the digits of very large integers is not modelled.
- Destinations.DestinationError: where a JSON value other than a string or boolean ends is a parameter, and a
  number too long for Python to convert, which would raise, reads as such a value.
- LineEdit: the edits are modelled on text whose lines end in a newline; newline translation is not modelled.
- Guards.SupersedeAllowedIff: values are equal when they are the same value of the same type; that Python takes
  `True` for 1 where the two ids are compared is not modelled.
- YAML and TOML parsing, paths and subprocesses: the two files are records and the emitter is a parameter.
- The chain's own integrity check and the shape of its lines: whether it can be consulted is a parameter.
- SHA-256, NFC normalisation, Unicode whitespace and case folding themselves.
- HTTP, credentials, the registry, the member record's retrieval and the orchestrator beyond what dispatch
  relies on; the `ready` verb.
- The contents of `TOP_SCHEMA`, the profile registries, evidence tags, routing and the hand-picked
  `_FIELD_STUBS`: finite tables.
- Discovering pin sites, running the commands of a dry run, and `assert_runner_honest`: commands are strings,
  and an envelope is not claimed to pass the denied patterns.
- The wording of messages, the command line, `/review` links and status screens: errors have a kind and a
  place.
