# Verified models of the connector relay, the WIT generator and the gateway

This project models four parts of the repository in Dafny and proves what they are there to guarantee. Run
`dafny verify dfyconfig.toml` to check all of it.

**The connector relay** (`Relay*`, `Varint`, `Wire*`, `SignatureBase`, `SignatureText`, `BaseReadings`).
`Relay.RecoveryModel` is the recovery model of the connector conformance script, a class with the same fields, whose
`Apply` is proved against the step relation `Relay.Step`. `RelayInvariant` runs events from the initial state while a
history records every call ever accepted, sent or published, and proves one invariant of all runs. `RelaySafety` and
`RelayProgress` derive at-most-once sending, audit before sending, bounded backlog, fencing and freedom from wedging;
`RelayIdentities` says exactly when the two journals can be trusted. `RelayView` rebuilds the state from the answers
alone, `RelayAnswers` foretells every answer from those before it, and `RelayAuthority` says what is granted under
authority. `Wire` is the schema-driven context decoder; `WireExact` says exactly which bytes it accepts, `WireRejects`
for which reason it rejects the others, `WireRoundTrip` that decoding undoes encoding in any field order, and
`WireContext` which bytes stand for which context. `SignatureBase` is the printer of RFC 9421 signature bases,
`SignatureText` what its lines say, and `BaseReadings` when they have one reading.

**The protobuf-to-WIT generator** (`PackageNames`, `PackageIds`, `Identifiers`, `IdentifierWords`, `Descriptors`, `Wit`,
`Collect`, `NeededChains`, `Cycles`, `Schema*`, `Build`, `Package`, `Records`, `TypeText`, `Generate`, `FieldOrder`).
Descriptors are finite maps from full names to messages; `Descriptors.Linked` states what the protobuf linker
guarantees. `Schema` says declaratively what the schema of a package is and when there is one; the methods of `Collect`,
`Cycles`, `Build`, `Package` and `Generate` follow the generator's passes and succeed exactly when the schema exists.
`SchemaMeaning` says what the records and variants tell of the messages, `SchemaSound` proves that schemas are closed,
collision-free and acyclic, `SchemaFaults` lists what can be wrong and `SchemaFaultless` that nothing is where there is
a schema, `Generate` and `FieldOrder` that the output does not depend on the order of files or fields.

**The gateway's gate and pumps** (`Gate`, `Egress*`, `Ingress`). The per-caller gate, the attempt counters and the
egress pump are classes; spawned tasks interleave as steps of one state machine, and the theorems of `EgressRuns`,
`EgressReplies`, `EgressBudget` and `EgressRetained` range over all interleavings. The ingress pump is a loop over what
the server delivers.

**The subject templates** (`Template`, `TemplatePieces`). The single-pass substitution is proved to commute with
splitting a subject into its tokens, and never to widen what a template allows.

`Prelude`, `Text` and `Order` hold the shared vocabulary: options and results, sums over maps, splitting and joining, sorting.

Three promises do not hold of the code without a condition it does not enforce. Each comes with inputs that break it and
with the condition:

- The two journals speak for a call only while no grant id is another one continued after a colon. This is exact:
  `RelayIdentities.CompletionsExactly` and `RelayIdentities.AcceptancesExactly` hold in both directions, and
  `RelayIdentities.ColonsCollide` and `RelayIdentities.SentUnaccepted` reach the bad states under any such pair of ids.
- The egress pump keeps its budget of three failures exactly when no forward of a message is started while its failures and
  running forwards make three (`EgressBudget.BudgetExactly`); `EgressBudget.OverlapOverspends` is a schedule that breaks it.
  What the counters hold and which failure terminates needs no condition.
- A signature base determines what it covers unless a line feed in the method or target is followed by what could start a
  line (`SignatureBase.BaseInjective`); any header line there confuses it (`SignatureBase.LineFeedConfuses`). Where only one
  of the two may hold line feeds, `BaseReadings.ReadingsExactly` says exactly which values keep the bases apart.

## Model

| member | source | states |
|---|---|---|
| Relay.RecoveryModel.constructor | scripts/verify-connector-conformance.py:278-296 | A new model is in the initial state for the given epoch, expiry, grant, key and limits. |
| Relay.RecoveryModel.Open | scripts/verify-connector-conformance.py:288-296 | A model exists exactly when the three operator limits are positive and within the tenant defaults; otherwise construction is refused. |
| Relay.RecoveryModel.SurveyOutstanding | scripts/verify-connector-conformance.py:298-302 | The walk over live and retired receipts finds the slots, the reserved bytes and the staleness that the sums over all outstanding receipts define. |
| Relay.RecoveryModel.Apply | scripts/verify-connector-conformance.py:304-457 | Every event has the outcome and the complete new state of the step relation, including the assignments that survive a raised exception. |
| Relay.RecoveryModel.ApplyRestore | scripts/verify-connector-conformance.py:311-321 | A restore retires the key, advances the epoch, closes the grant and fences every receipt, or refuses an epoch that does not advance. |
| Relay.RecoveryModel.FenceReceipts | scripts/verify-connector-conformance.py:317-320 | The loop raises the fence of every live receipt once, marks its worker lost and withdraws its send permit, and touches nothing else. |
| Relay.RecoveryModel.ApplyFreshGrant | scripts/verify-connector-conformance.py:322-333 | A fresh grant swaps the receipts out and the authority in, or refuses; a missing expiry leaves the swap half done. |
| Relay.RecoveryModel.ApplyClaim | scripts/verify-connector-conformance.py:355-375 | A claim reserves a slot and bytes only within the tenant quotas and the age limit. |
| Relay.RecoveryModel.ApplyToReceipt | scripts/verify-connector-conformance.py:376-411 | Crash, recovery, publication and pruning change one receipt and nothing else but the journals. |
| Relay.RecoveryModel.ApplyAsOwner | scripts/verify-connector-conformance.py:412-457 | Worker operations are carried out only for the living owner with the current fence. |
| RelayInvariant.HaltsExactly | scripts/verify-connector-conformance.py:322-333 | An exception leaves the state changed exactly when a fresh grant lacks nothing but its expiry. |
| RelayInvariant.StepIsMove | scripts/verify-connector-conformance.py:304-457 | Every event that does not halt, exceptions that change nothing included, is one of ten moves, each described by what it changes. |
| RelayInvariant.StepKeeps | scripts/verify-connector-conformance.py:304-457 | Every event that does not halt keeps the whole invariant on grants, receipts, quotas, sends, acceptances and completions. |
| RelayInvariant.RunKeeps | scripts/verify-connector-conformance.py:304-457 | So does every sequence of events, however long; an exception that changed nothing does not end it. |
| RelayInvariant.RetiredOccupyNothing | scripts/verify-connector-conformance.py:298-302 | The retired half of the backlog contributes no slot and no byte. |
| RelaySafety.AtMostOnce | scripts/verify-connector-conformance.py:322-333 | Over the whole history each pair of grant and invocation is sent at most once, through pruning and grant exchange, and the send counter is the number of distinct pairs ever sent. |
| RelaySafety.AuditBeforeSend | scripts/verify-connector-conformance.py:416-446 | Whatever was sent stands in the acceptance journal, where a call of the same identity text was once accepted. |
| RelaySafety.SettledIsPublished | scripts/verify-connector-conformance.py:395-404 | A terminal receipt with nothing pending, live or retired, was published and stands in the completion journal. |
| RelaySafety.UnfinishedInJournal | scripts/verify-connector-conformance.py:395-404 | A receipt still in progress has its identity in the completion journal exactly when some other published call has the same identity text. |
| RelayIdentities.CollisionExactly | scripts/verify-connector-conformance.py:400-400 | Two grant ids can give different calls one identity text exactly when one id is the other continued after a colon. |
| RelayIdentities.IdentityCollision | scripts/verify-connector-conformance.py:400-400 | Two calls share an identity text only when they are the same call or one grant id continues the other after a colon. |
| RelayIdentities.UnfinishedNotPublished | scripts/verify-connector-conformance.py:395-404 | While no known grant id extends another, no receipt in progress is in the completion journal. |
| RelayIdentities.SentWasAccepted | scripts/verify-connector-conformance.py:416-446 | While no known grant id extends another, every call sent, ever, was itself accepted. |
| RelayIdentities.CompletionsExactly | scripts/verify-connector-conformance.py:395-404 | For any set of grant ids: no run under them has a receipt in progress in the completion journal exactly when none of them extends another. |
| RelayIdentities.AcceptancesExactly | scripts/verify-connector-conformance.py:416-446 | For any set of grant ids: no run under them sends a call that was not itself accepted exactly when none of them extends another. |
| RelayIdentities.ColonsCollide | scripts/verify-connector-conformance.py:400-400 | For every grant id, every continuation and every invocation there is a reachable state that puts a claimed receipt into the completion journal. |
| RelayIdentities.SentUnaccepted | scripts/verify-connector-conformance.py:425-446 | And a reachable state in which a call was sent that was never accepted, because reconciliation took another grant's acceptance for its own. |
| RelaySafety.BacklogBounded | scripts/verify-connector-conformance.py:364-374 | In every reachable state the outstanding receipts stay within the slot limit and the byte limit, and no retired receipt is outstanding. |
| RelaySafety.RunEvolves | scripts/verify-connector-conformance.py:311-457 | Over any run fences and epochs never fall, keys and grants once retired or known stay so, lost workers stay lost and terminal phases stay as they are. |
| RelaySafety.LostReceiptStaysLost | scripts/verify-connector-conformance.py:379-394 | After a crash, recovery or restore no later worker operation on that receipt succeeds or changes anything while the grant is current. |
| RelaySafety.OldFenceRefused | scripts/verify-connector-conformance.py:412-413 | A worker presenting a superseded fence is refused from then on. |
| RelaySafety.RetiredKeyAuthorisesNothing | scripts/verify-connector-conformance.py:311-333 | A key retired by a restore never again authorises a claim, renewal, send intent or send. |
| RelaySafety.OutcomesAreFinal | scripts/verify-connector-conformance.py:383-394 | Terminal phases are absorbing, and a receipt recorded as not sent was never sent. |
| RelayProgress.NeverWedged | scripts/verify-connector-conformance.py:311-333 | From every reachable state with n outstanding receipts at most 2n + 3 events, all of them availability, recovery, publication, revocation or fresh grant, install any unused grant under any unretired key, after which every claim within the limits is accepted. |
| RelayView.ObserverKnows | scripts/verify-connector-conformance.py:304-457 | In every run the events and their answers alone tell all that can matter next: the authority in force, every receipt, the journal, what is used up, and a backlog that is the claims less the completions recorded. |
| RelayAnswers.AnswersForetold | scripts/verify-connector-conformance.py:304-457 | In every run the answers so far determine the next one: each operation is refused for the first of its causes that is present, and granted when none is. |
| RelayAuthority.AuthorityOnly | scripts/verify-connector-conformance.py:343-445 | Nothing is claimed, renewed, intended or sent unless the store is up, the grant open and not yet expired, and the event names no other grant, key or epoch. |
| RelayAuthority.SentExactly | scripts/verify-connector-conformance.py:412-445 | In every run a send reaches the provider exactly under that authority, from the living owner with its present fence, and with an unused permit. |
| RelayAuthority.PermitExactly | scripts/verify-connector-conformance.py:430-445 | In every run a worker holds a permit exactly when its intent was acknowledged and no later answer used the permit up or took it away. |
| RelaySafety.LostIntentNeverSent | scripts/verify-connector-conformance.py:430-445 | After a lost acknowledgement of an intent no send of that invocation reaches the provider under the grant. |
| RelayAuthority.StaleExactly | scripts/verify-connector-conformance.py:364-366 | A claim under authority meets a stale backlog exactly when some completion of the grant has waited for the age limit. |
| RelayAuthority.PrunedExactly | scripts/verify-connector-conformance.py:405-411 | A receipt is pruned exactly when its completion is delivered, the grant is closed, and 60 have passed since its expiry. |
| RelayAuthority.BareClaim | scripts/verify-connector-conformance.py:304-375 | A claim that names only its worker is made at time 1 for request-a, with 256 bytes and fence 1. |
| Varint.WireVarint | scripts/verify-connector-conformance.py:132-144 | The ten-step loop with its bitwise or computes the specified reading; the raise after the loop is not reached. |
| Varint.ReadVarintExact | scripts/verify-connector-conformance.py:132-144 | A varint is read exactly where its bytes form a varint of that value; it is below 2^64 and at most ten bytes long. |
| Varint.EncodedIsVarint | scripts/verify-connector-conformance.py:132-144 | The canonical encoding of every value below 2^64 is such a varint. |
| Varint.BitOrDisjoint | scripts/verify-connector-conformance.py:141-141 | Or-ing shifted bits onto lower ones is addition. |
| Wire.WireMessage | scripts/verify-connector-conformance.py:147-179 | The decoding loop, recursive over the shapes, computes the specified result or the specified first failure. |
| Wire.WireHeader | scripts/verify-connector-conformance.py:151-165 | Tag, field lookup, duplicate check, wire type and length are checked in this order. |
| WireExact.ShapesWellFormed | scripts/verify-connector-conformance.py:123-129 | Every child shape exists and field names differ within each shape. |
| WireExact.AcceptsExactly | scripts/verify-connector-conformance.py:147-179 | The decoder accepts exactly the byte strings that carry each expected field once, length-delimited and in any order, recursively, and returns what they carry. |
| WireRejects.RejectsExactly | scripts/verify-connector-conformance.py:132-179 | The decoder rejects a byte string for exactly the reason found behind its accepted fields: no varint, an unknown, repeated or wrongly typed field, a length past the end, a bad text, a missing field, or the reason of a nested message. |
| WireRoundTrip.RoundTrip | scripts/verify-connector-conformance.py:147-179 | Encoding a well-typed tree, with the fields of every message in any order, and decoding it returns the tree. |
| WireRoundTrip.ContextRoundTrip | scripts/verify-connector-conformance.py:123-179 | The same for the connector context within its size limit. |
| WireContext.ContextReads | scripts/verify-connector-conformance.py:123-179 | The bytes of a context, written out tag by tag, are decoded to its grant, project, binding and invocation. |
| SignatureBase.NormalizedHeaders | scripts/verify-connector-conformance.py:82-89 | The loop computes the specified header map or refuses. |
| SignatureBase.NormalizedExactly | scripts/verify-connector-conformance.py:82-89 | Headers are accepted exactly when the folded names are valid and distinct and no value breaks the line; the map then holds the trimmed values, each a single line under a valid name. |
| SignatureText.HeadersAcceptedExactly | scripts/verify-connector-conformance.py:82-89 | Headers are refused, always for their format, unless the folded names are letters, digits and hyphens, all different, and no value holds a carriage return or line feed. |
| SignatureText.HeadersTrimmed | scripts/verify-connector-conformance.py:88-88 | Each value is the part of the given one between its outermost characters that are neither space nor tab. |
| SignatureBase.SignatureBaseText | scripts/verify-connector-conformance.py:111-120 | The loop writes one line per component and the parameter line, or rejects an uncovered component. |
| SignatureText.BaseTells | scripts/verify-connector-conformance.py:111-120 | A base exists exactly when every component has a value; where no value breaks a line, its lines quote the components in order, each with its value, and then the parameters. |
| SignatureBase.BaseInjective | scripts/verify-connector-conformance.py:111-120 | The base text determines the component list, each covered value and the parameters (section 2.5 of RFC 9421), unless a line feed in the method, the target or the parameters is followed by what could start a line of the base. |
| SignatureBase.LineFeedConfuses | scripts/verify-connector-conformance.py:111-120 | A method that holds any header line after a line feed gives two different requests the same base text. |
| BaseReadings.ReadingsExactly | scripts/verify-connector-conformance.py:92-120 | For the method or the target and any set of values it may have, the other one and the parameters being single lines: base texts have one reading exactly when none of the values is another one continued by lines of other components. |
| PackageNames.EncodePackageSegment | goworkspace/internal/protowit/names.go:50-73 | The loop computes the escape code of a segment or refuses it. |
| PackageNames.SegmentRoundTrip | goworkspace/internal/protowit/names.go:50-73 | Decoding the escape code returns the segment. |
| PackageNames.ToPackageId | goworkspace/internal/protowit/names.go:24-48 | The loop over the name parts computes the package id or refuses the package. |
| PackageNames.PackageIdInjective | goworkspace/internal/protowit/names.go:15-73 | Two accepted packages with the same id text are the same package. |
| PackageNames.OutputDirectoryInjective | goworkspace/internal/protowit/names.go:19-73 | Two accepted packages with the same output directory are the same package. |
| PackageIds.AcceptedExactly | goworkspace/internal/protowit/names.go:24-73 | A package has an id exactly when its name has two or more parts, none empty or starting with a digit, of letters, digits and underscores. |
| PackageIds.IdReads | goworkspace/internal/protowit/names.go:15-73 | The text of an accepted package's id reads back as the package. |
| PackageIds.DirectoryReads | goworkspace/internal/protowit/names.go:19-73 | So does its output directory, which holds no escape. |
| Identifiers.NormalizeIdentifier | goworkspace/internal/protowit/names.go:75-111 | The loop with look-behind and look-ahead computes the words of the input, position by position. |
| Identifiers.NormalizedShape | goworkspace/internal/protowit/names.go:75-118 | Results have no leading, trailing or doubled hyphen, start with a letter and are escaped exactly when they are keywords. |
| Identifiers.NormalizedKeeps | goworkspace/internal/protowit/names.go:75-111 | Letters and digits are kept in order, up to case; nothing else is added. |
| IdentifierWords.HyphensExactly | goworkspace/internal/protowit/names.go:75-111 | Between two neighbouring letters or digits a single hyphen stands exactly when other characters lie between them, or the second is a capital after a small letter or digit or before a small letter; nothing else is written. |
| IdentifierWords.AcceptedExactly | goworkspace/internal/protowit/names.go:75-111 | An input is accepted exactly when it consists of letters, digits, underscores, hyphens and dots and the first letter or digit is a letter. |
| Identifiers.Idempotent | goworkspace/internal/protowit/names.go:75-118 | Normalising a result freed of its escape gives the result again. |
| Identifiers.Compositional | goworkspace/internal/protowit/generate.go:373-374 | Normalising an already normalised message name joined to a oneof name gives the same result or failure as normalising the joined original. |
| Cycles.BuildDependencies | goworkspace/internal/protowit/generate.go:658-673 | The adjacency lists hold exactly the targets of the records, sorted. |
| Cycles.Search.Visit | goworkspace/internal/protowit/generate.go:681-712 | A visit returns a real cycle, or finishes the name after everything it depends on and restores the stack. |
| Cycles.OrderedHasNoCycle | goworkspace/internal/protowit/generate.go:657-721 | Records that can be put in dependency order have no cycle. |
| Cycles.DetectMessageCycles | goworkspace/internal/protowit/generate.go:657-721 | A cycle is reported exactly when the records have one, the path is a closed walk along real dependencies, and without one a dependency order exists. |
| Collect.NeededIsClosed | goworkspace/internal/protowit/generate.go:289-350 | The least set of messages closed under nesting and non-map same-package references is itself closed. |
| NeededChains.NeededExactly | goworkspace/internal/protowit/generate.go:289-442 | A message is needed exactly when a chain of nestings and same-package references, maps aside, leads to it from a requested message. |
| Collect.Collector.CollectMessageDefinitions | goworkspace/internal/protowit/generate.go:289-350 | Names a message and everything nested in it, or returns an error that applies; it terminates because ever more messages are named. |
| Collect.Collector.CollectSamePackageReferences | goworkspace/internal/protowit/generate.go:395-442 | The fixpoint loop ends with exactly the least closed set named, or with an error that applies. |
| Collect.CollectPackage | goworkspace/internal/protowit/generate.go:180-204 | Collection succeeds exactly when every needed message can be named without collision, and yields each needed message once under its name. |
| Build.BuildVariant | goworkspace/internal/protowit/generate.go:518-574 | A variant is built exactly when the oneof has members, none repeated, all convertible and with distinct names; it lists their cases by field number, and a refusal names a member at fault. |
| Build.BuildOneofField | goworkspace/internal/protowit/generate.go:500-516 | The field of a oneof is optional, has the variant as its type and the targets of all its cases. |
| Build.BuildRecord | goworkspace/internal/protowit/generate.go:444-498 | A record is built exactly when its leading fields convert under distinct names, and lists them in number order; a refusal names an entry at fault, and a missing variant only if one is missing. |
| Build.CollectOneofDefinitions | goworkspace/internal/protowit/generate.go:352-393 | Real oneofs are named exactly when each has a name no message and no other oneof has; a refusal names a oneof at fault. |
| Build.EmptyOneofMemberNames | goworkspace/internal/protowit/generate.go:620-632 | Finds exactly the empty messages that are members of real oneofs. |
| Build.BuildRecords | goworkspace/internal/protowit/generate.go:221-238 | Succeeds exactly when every empty message is a oneof member and every other message has a record. |
| Records.LeadingFieldsExactly | goworkspace/internal/protowit/generate.go:444-498 | A record has, in increasing field number, one entry for each ordinary field and one for the lowest-numbered member of each real oneof, and no others. |
| Package.CheckContributingFiles | goworkspace/internal/protowit/generate.go:265-287 | Succeeds exactly when the unchecked files of the collected messages hold supported constructs only, and otherwise names the construct in one of them. |
| Package.ConvertMessages | goworkspace/internal/protowit/generate.go:206-242 | Converts the collected messages exactly when they can be converted, reports a fault that is there, and never misses a variant. |
| Package.BuildSchema | goworkspace/internal/protowit/generate.go:139-250 | Builds a schema exactly when the files have one; an error names a fault of the package, a file, a message, a field or a oneof that is really there, and the plain errors do not occur for files of one package. |
| SchemaSound.SchemaIsWellFormed | goworkspace/internal/protowit/generate.go:139-250 | Every schema is closed, has distinct names for all its records and variants, distinct proper names within each, nothing empty, and an acyclic graph of records and variants. |
| SchemaMeaning.RecordsMean | goworkspace/internal/protowit/generate.go:444-607 | Every record bears the normalised name of its message in the package, and its entries stand in number order for its fields and oneofs: a list exactly for a repeated field, an option exactly for one that may be absent or for a oneof, and inside it the message's name or the built-in type of the kind's class, signedness and width. |
| SchemaMeaning.RecordedExactly | goworkspace/internal/protowit/generate.go:221-238 | A message has a record exactly when it is needed and has fields. |
| SchemaMeaning.RecordsOrdered | goworkspace/internal/protowit/generate.go:206-238 | The records stand in the order of full names, each once. |
| SchemaMeaning.VariantsMean | goworkspace/internal/protowit/generate.go:518-574 | Every variant is named after the message and the oneof it stands for, and its cases are the members by number: bare exactly for empty messages, and otherwise of the member's own type. |
| SchemaMeaning.VariantsComplete | goworkspace/internal/protowit/generate.go:352-393 | Every real oneof of a needed message has a variant. |
| SchemaMeaning.VariantsOrdered | goworkspace/internal/protowit/generate.go:367-369 | The variants stand in the order of their oneofs' full names. |
| SchemaFaultless.SchemaHasNoFault | goworkspace/internal/protowit/generate.go:139-442 | Where a package has a schema, none of the faults that errors name is present. |
| SchemaFaultless.MessagesSupported | goworkspace/internal/protowit/generate.go:306-322 | No needed message declares enums or extensions, and each has a name in the package. |
| SchemaSound.BodyIsAcyclic | goworkspace/internal/protowit/generate.go:657-721 | A dependency order of the records ranks records and variants so that every reference goes strictly down. |
| SchemaSound.BodyIsClosed | goworkspace/internal/protowit/generate.go:634-655 | Every type a record or variant refers to is defined, so no reference leads to a skipped empty message. |
| TypeText.TypeTextInjective | goworkspace/internal/protowit/generate.go:603-607 | Two types with the same text are the same type: keyword escapes keep message names apart from built-in types. |
| TypeText.SchemaTypesWritable | goworkspace/internal/protowit/generate.go:634-655 | Every type of every schema is of the kind whose text determines it. |
| Generate.GenerateFiles | goworkspace/internal/protowit/generate.go:59-137 | Generates exactly when no parameter is given and an output exists, one schema per package by path; neither collision branch is ever taken, and an error names the parameter, an unknown file that was requested, or a fault of a requested package. |
| Generate.NoCollision | goworkspace/internal/protowit/generate.go:102-117 | Schemas of different packages have different package names and different paths. |
| Generate.OutputUnique | goworkspace/internal/protowit/generate.go:69-86 | The output is determined by the set of requested files, whatever their order and repetitions. |
| Generate.OutputOrdered | goworkspace/internal/protowit/generate.go:119-124 | The schemas stand in the order of their paths. |
| Generate.PathNamesPackage | goworkspace/internal/protowit/generate.go:243-249 | From the path and from the package id of a schema its package can be read. |
| FieldOrder.FieldOrderForgotten | goworkspace/internal/protowit/generate.go:450-460 | Permuting the field declarations of any messages changes neither whether there is an output nor the output. |
| Gate.CallerInflightGate.constructor | rsworkspace/crates/a2a/a2a-gateway/src/gw_pull_backpressure.rs:332-337 | A new gate has no entries and no permits. |
| Gate.CallerInflightGate.TryAcquire | rsworkspace/crates/a2a/a2a-gateway/src/gw_pull_backpressure.rs:344-361 | A permit is handed out exactly when the caller is below the limit; a refusal leaves an entry behind. |
| Gate.CallerInflightGate.Release | rsworkspace/crates/a2a/a2a-gateway/src/gw_pull_backpressure.rs:369-385 | Dropping a permit lowers its caller's entry by one, saturating, and removes it at zero. |
| Gate.PermitsCounted | rsworkspace/crates/a2a/a2a-gateway/src/gw_pull_backpressure.rs:326-385 | With a limit of at least one, under every interleaving each entry is the number of the caller's live permits, within the limit and never zero. |
| Gate.NeverSaturates | rsworkspace/crates/a2a/a2a-gateway/src/gw_ingress_stream.rs:222-238 | A drop always finds a positive entry, so the saturating subtraction never saturates. |
| Gate.ZeroEntryIff | rsworkspace/crates/a2a/a2a-gateway/src/gw_pull_backpressure.rs:89-93 | An entry can be left at zero exactly when the limit is zero, which the configuration floors to one, leaving positive values as they are. |
| Gate.CallersIndependent | rsworkspace/crates/a2a/a2a-gateway/src/gw_ingress_stream.rs:194-238 | What a caller sees of the gate is what it would see if it were the only caller. |
| Egress.ForwardAttempts.RecordAttempt | rsworkspace/crates/a2a/a2a-gateway/src/gw_pull_backpressure.rs:716-724 | Counts one more failure of a sequence, saturating at 32 bits, and returns the count. |
| Egress.ForwardAttempts.Clear | rsworkspace/crates/a2a/a2a-gateway/src/gw_pull_backpressure.rs:729-735 | Forgets the count of a sequence and no other. |
| Egress.EgressPump.DeliverOne | rsworkspace/crates/a2a/a2a-gateway/src/gw_pull_backpressure.rs:583-625 | Terminates what cannot be routed, puts off what the gate refuses, and otherwise starts a task that holds a permit. |
| Egress.EgressPump.FinishForward | rsworkspace/crates/a2a/a2a-gateway/src/gw_pull_backpressure.rs:640-654 | Records a failure if there was one and fixes the disposition. |
| Egress.EgressPump.Settle | rsworkspace/crates/a2a/a2a-gateway/src/gw_pull_backpressure.rs:655-690 | Answers the message by its disposition and clears the count unless the message was put off. |
| Egress.EgressPump.Leave | rsworkspace/crates/a2a/a2a-gateway/src/gw_pull_backpressure.rs:626-627 | The end of the task drops the permit it held all along. |
| Egress.EgressPump.ForwardEgressDeliveries | rsworkspace/crates/a2a/a2a-gateway/src/gw_pull_backpressure.rs:556-694 | The delivery loop goes through the batch up to the stop signal or the first error, in order. |
| EgressRuns.CountsExact | rsworkspace/crates/a2a/a2a-gateway/src/gw_pull_backpressure.rs:716-735 | In every run, overlapping or not, each count is the number of failures of its sequence since the last clearing, up to the 32-bit bound, and is absent when there is none. |
| EgressRuns.TermsExact | rsworkspace/crates/a2a/a2a-gateway/src/gw_pull_backpressure.rs:239-245 | In every run a failure terminates exactly when it is at least the third since the last clearing, and is put off otherwise. |
| EgressRuns.ThirdFailureEnds | rsworkspace/crates/a2a/a2a-gateway/src/gw_pull_backpressure.rs:655-690 | In every run a failure from the third on is answered with a termination, and settling it clears the count. |
| EgressRuns.RunAgrees | rsworkspace/crates/a2a/a2a-gateway/src/gw_pull_backpressure.rs:626-690 | In every run the gate counts the running tasks of each caller exactly, and none has more than the limit. |
| EgressReplies.DeliveryTold | rsworkspace/crates/a2a/a2a-gateway/src/gw_pull_backpressure.rs:583-625 | In every run a delivery without an address is terminated, one whose caller has as many tasks as the limit is put off, and any other starts a task and is not answered yet. |
| EgressReplies.ForwardTold | rsworkspace/crates/a2a/a2a-gateway/src/gw_pull_backpressure.rs:640-651 | In every run the end of a forward notes nothing if it succeeded, and otherwise a failure that is to terminate exactly from the third on. |
| EgressReplies.SettlementTold | rsworkspace/crates/a2a/a2a-gateway/src/gw_pull_backpressure.rs:652-690 | In every run a task whose forward succeeded acknowledges the message and terminates it exactly when that is not confirmed; only one whose forward failed puts it off, and only for the first two failures. |
| EgressReplies.PutOffsBalance | rsworkspace/crates/a2a/a2a-gateway/src/gw_pull_backpressure.rs:645-678 | In every run a message has been put off by its tasks once for each failure that was to be put off, save those still to be answered. |
| EgressReplies.BatchTold | rsworkspace/crates/a2a/a2a-gateway/src/gw_pull_backpressure.rs:571-623 | A batch is delivered in order up to its end, a stop, a failed fetch, or an answer that did not get through, and the error says which. |
| EgressBudget.GuardedBudget | rsworkspace/crates/a2a/a2a-gateway/src/gw_pull_backpressure.rs:239-245 | A run has no fourth failure since a clearing, and only the third terminates, if each forward is started while the failures and running forwards of its message make less than three. |
| EgressBudget.BudgetExactly | rsworkspace/crates/a2a/a2a-gateway/src/gw_pull_backpressure.rs:604-654 | A schedule meets that guard exactly when, at every point of it, no outcome of the forwards then running exceeds the budget. |
| EgressBudget.OverlapOverspends | rsworkspace/crates/a2a/a2a-gateway/src/gw_pull_backpressure.rs:716-724 | Four overlapping deliveries of one message fail the guard and can end in four failures. |
| EgressRetained.RetainedCounts | rsworkspace/crates/a2a/a2a-gateway/src/gw_pull_backpressure.rs:669-690 | In every run, a count retained while no task works on its message is one or two, and the last reply left the message pending. |
| EgressRetained.RetainedAwaits | rsworkspace/crates/a2a/a2a-gateway/src/gw_pull_backpressure.rs:669-690 | Where a sequence stands for one message, that last reply put the message off. |
| EgressRetained.OneAtATimeIsGuarded | rsworkspace/crates/a2a/a2a-gateway/src/gw_pull_backpressure.rs:604-654 | Deliveries of one message that do not overlap meet the guard and keep the budget. |
| Ingress.ForwardStreamDeliveries | rsworkspace/crates/a2a/a2a-gateway/src/gw_ingress_stream.rs:421-510 | The loop treats every delivery before the first stop by its kind and hands the publisher exactly the wanted ones, in order. |
| Ingress.TwoPutOffs | rsworkspace/crates/a2a/a2a-gateway/src/gw_ingress_stream.rs:473-492 | From the server's delivery count alone, whatever it delivers again and however often: the pump asks for an event again at most twice. |
| Ingress.ThreeDeliveries | rsworkspace/crates/a2a/a2a-gateway/src/gw_ingress_stream.rs:473-492 | A server that delivers an event again only on request delivers it at most three times. |
| Ingress.ReactsExactly | rsworkspace/crates/a2a/a2a-gateway/src/gw_ingress_stream.rs:463-508 | An event of another request is passed over; one that was published is settled; one that was not is put off on its first two deliveries and given up from the third on. |
| Ingress.ConsumedExactly | rsworkspace/crates/a2a/a2a-gateway/src/gw_ingress_stream.rs:439-457 | The pump takes the deliveries before the first item that is none. |
| Ingress.SelectedExactly | rsworkspace/crates/a2a/a2a-gateway/src/gw_ingress_stream.rs:467-472 | The publisher gets each delivery of the pump's request, or of its task, as often as it came, and no other. |
| Template.SubstitutePlaceholders | rsworkspace/crates/a2a/a2a-auth-callout/src/permissions.rs:170-205 | The single pass computes the specified text or the first failure. |
| Template.PlaceholderValue | rsworkspace/crates/a2a/a2a-auth-callout/src/permissions.rs:189-217 | A placeholder yields a value only if it is known, filled and stays within one literal token. |
| Template.SubstitutionCommutes | rsworkspace/crates/a2a/a2a-auth-callout/src/permissions.rs:170-205 | A template renders exactly when each of its tokens does; the result has the same number of tokens, and token by token it is the rendering of the template's token. |
| Template.TokenKeeps | rsworkspace/crates/a2a/a2a-auth-callout/src/permissions.rs:207-217 | A rendered token has no dot of its own and is a wildcard or empty only where the template's token was. |
| Template.MaterializeList | rsworkspace/crates/a2a/a2a-auth-callout/src/permissions.rs:161-168 | The loop collects the patterns in order or stops at the first failure. |
| Template.Materialize | rsworkspace/crates/a2a/a2a-auth-callout/src/permissions.rs:151-158 | Permissions are issued exactly when every template has a pattern, one pattern per template in order. |
| Template.NeverBroader | rsworkspace/crates/a2a/a2a-auth-callout/src/permissions.rs:145-147 | A rendered pattern matches no subject that the template, with wildcards for its placeholders, would not match. |
| Template.CallerPinned | rsworkspace/crates/a2a/a2a-auth-callout/src/permissions.rs:189-193 | Where the template names the caller, every subject the pattern matches names that caller. |
| TemplatePieces.EveryTemplateCuts | rsworkspace/crates/a2a/a2a-auth-callout/src/permissions.rs:170-188 | Every template is a sequence of literal pieces and placeholders, possibly cut off inside a placeholder. |
| TemplatePieces.RendersExactly | rsworkspace/crates/a2a/a2a-auth-callout/src/permissions.rs:170-217 | Rendering reports the first unknown, missing or unsafe placeholder in order, else a placeholder left open, and else copies the literals and puts in the values. |
| TemplatePieces.PatternExactly | rsworkspace/crates/a2a/a2a-auth-callout/src/permissions.rs:161-168 | A rendered template is a pattern unless it is empty or holds whitespace. |
| TemplatePieces.PlaceholderPinned | rsworkspace/crates/a2a/a2a-auth-callout/src/permissions.rs:189-193 | Where a token of the template is a placeholder, every subject the pattern matches has the value of that placeholder there. |

## Left out

- Relay.RecoveryModel.Apply: receipts are values in a map, so sharing of a receipt or of the whole receipt dictionary between two fields is not captured; the one event that could share the dictionary raises, and the fixture runner stops there.
- Relay.RecoveryModel.Apply: an event is a record with optional fields instead of a dictionary; values of a wrong type, which Python would accept or reject dynamically, do not occur.
- RelayInvariant.RunKeeps: a fresh grant without its expiry raises with the grant half exchanged, and the run ends there; after every other exception it goes on, although the fixture runner stops.
- Relay.RecoveryModel.SurveyOutstanding: the order of the outstanding list is not modelled; only its length, sum and staleness are used.
- Wire.WireMessage: whether bytes are valid UTF-8 is an arbitrary predicate, and a text is represented by its bytes.
- SignatureBase.NormalizedHeaders: case folding is an arbitrary function on names; the theorems hold for each.
- SignatureBase.BaseInjective: the regular expressions that the signature input and the parameters are read with; any component that has a value is admitted.
- SignatureBase.BaseInjective: sufficient only where the method and the target both hold line feeds; with one of them free of line feeds, `BaseReadings.ReadingsExactly` gives the exact condition.
- SignatureBase.SignatureBaseText: the final UTF-8 encoding of the text is not modelled.
- Signature verification, hashing, base64, key thumbprints, fixture loading and the command line of the conformance script.
- Collect.CollectPackage: descriptor linking itself; descriptors are assumed to be linked, as protobuf-go delivers them.
- Generate.GenerateFiles: rendering the schemas to text, error details, and the plugin's input and output.
- Build.BuildRecord: types are trees where the generator keeps their text; `TypeText` shows that the text determines the tree.
- Package.BuildSchema: every error is proved to name a fault that is there; which of several faults is named is followed in the code but not stated.
- Gate.CallerInflightGate.TryAcquire: the lock and its poisoning; each acquisition and each drop is one atomic step.
- Egress.EgressPump.ForwardEgressDeliveries: tasks do not advance within one batch of this method; their interleaving with deliveries is the step system of `EgressRuns`.
- Egress.EgressPump.Settle: the replies to a message and the clearing of its count are one step; dropping the permit is a step of its own.
- Egress.EgressPump.Leave: a task that panics or is cancelled before it has settled also drops its permit; such tasks do not occur, and after one a count of three could be retained.
- EgressRetained.RetainedAwaits: a message that comes without delivery information gets sequence 0, so messages of different callers can share that sequence; the lemma then needs them to agree on having an address, and all the other lemmas hold for a shared sequence as a whole.
- EgressBudget.GuardedBudget: which messages the server redelivers, and when, is left to the environment; the code itself does not enforce the guard.
- Ingress.ThreeDeliveries: that an event is not published twice is not stated; it rests on the server alone, which may deliver an event again after a lost acknowledgement.
- Ingress.TwoPutOffs: a message that comes without delivery information counts as a first delivery; messages like that do not occur where the server is assumed to count.
- NATS and JetStream clients, timers, back-off, shutdown plumbing, telemetry and environment parsing of the gateway.
- Template.SubstitutePlaceholders: which characters are whitespace is an arbitrary predicate.
- Template.NeverBroader: subject matching is the usual NATS reading of `*` and a final `>`; the server's matcher is not part of this model.
