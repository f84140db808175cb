# Verified model of OpenClaw-Bot-Neo

A Dafny model of the parts of OpenClaw-Bot-Neo whose correctness is easy to get wrong and hard to see by reading: the
canonical encodings behind approvals and signatures, the approved memory write, two lifecycle controllers, the bounded walks
over untrusted object graphs, the redaction engine, the stream and framing helpers of the integration harness, mount
detection and event matching. Everything below holds for every input, every heap or every run, as the contract says.

`dafny verify dfyconfig.toml` checks the whole project.

## How the system is modelled

- **Text.** Strings are sequences of UTF-16 code units, lone surrogates included; bytes are numbers below 256. UTF-8 encoding
  replaces lone surrogates (`JsText`), as `TextEncoder` and `Buffer.from` do. `JsNumber`, `JsonQuote` and `JsSplit` hold the
  language's own number printing, string quoting, splitting and trimming.
- **Object graphs.** Untrusted values live on a heap of numbered objects, so sharing and cycles are there. Proxies, host
  objects, accessors, holes and symbol keys are kinds of objects and properties. `ObjectPaths` relates walks to paths.
- **Concurrency.** Code between two awaits is one step. Steps of any number of tasks interleave freely; answers of ports,
  clocks and openers are free inputs. An event that is not enabled changes nothing.
- **Hostile callbacks.** Closers, operations and thenables of the durable owner are scripts that may call close, start
  operations and settle thenables while they run.
- **State.** Code that updates variables is a class or a method with loops, proved equal to a specification function; the
  lemmas are about those functions. WeakMap registries are sequences indexed by handle.
- **Hashing.** Digests are an arbitrary function of the payload; where a result needs it, an arbitrary function of the UTF-8
  bytes of its canonical text.

Results worth knowing, where the code does not do what one might expect of it:

- An owner whose `close` throws while an aborted start cleans up can be forgotten by a later close
  (`NeoRuntime.ThrowingOwnerIsLost`). `NeoRuntime.OwnersKeptExactly` says exactly which runs lose one, in terms of what
  `getHealth` shows before the call.
- `snapshotPlainJsonDto` says it refuses cycles; it refuses every shared object, with the same failure code
  (`JsonSnapshot.SharingRefused`).
- A line longer than the protocol limit passes if it arrives in one chunk (`LineFraming.LongLineDependsOnTheCut`).
- A collector without lookahead reports truncation after an empty chunk (`StderrCollector.EmptyChunkTruncates`), and the
  summary loops do not end for caps below 19 bytes (`StderrCollector.CutEndsExactly`).
- Dotted metadata keys can hide a leaf (`MetadataPaths.DottedKeysCollide`), exactly when one key of a record continues
  another (`MetadataPaths.KeysSafeExactly`).
- A consumed pair blocks another pair with the same key (`ApprovalStore.ConsumeKeyCollides`), which a pair has exactly when
  its id or nonce contains NUL (`ApprovalStore.KeySharedExactly`); ids and nonces that pass validation never do.
- Signed webhook bytes do not distinguish lone surrogates, and nothing else (`WebhookFraming.LoneSurrogateCollides`,
  `WebhookFraming.SignedBytesIdentify`).
- The payload encoder identifies a few different values, exactly those of `PayloadDigestLaws.SharedTexts`.

## Modules

| module | about |
|---|---|
| Options, JsText, JsNumber, JsonQuote, JsSplit | optional values, text, numbers, quoting and splitting of the language |
| PayloadDigest, PayloadDigestLaws, PayloadBytes | the canonical payload encoder and the bytes that are hashed |
| WebhookFraming | the signed bytes of a webhook |
| ApprovalGate, ApprovalPayload, ApprovalStore, MemoryAccess, Sealing | the parts of an approved memory write |
| MemoryWriteProtocol, MemoryWriteSafety, MemoryWriteTranscript, MemoryWriteApproval, MemoryWriteConsumption, MemoryWriteOutcomes | concurrent memory writers and what every run keeps |
| NeoRuntime, DurableOwner | lifecycle controllers |
| ObjectPaths, JsonSnapshot, SecretBoundary, MetadataFlatten, MetadataPaths | bounded walks over object graphs |
| Redaction, AssignmentScanner | the redaction engine |
| EventStream, LineFraming, FlockHolder, StderrCollector | streams and framing |
| PathNormalization, MountDetection | paths and mounts |
| EventSequence | greedy event matching |

## Model

| member | source | states |
|---|---|---|
| PayloadDigestLaws.PayloadTextAnswers | src/core/application/payload-digest.ts:6-24 | A payload gets a canonical text exactly when every path through it ends within 16 levels; otherwise the encoder reports nesting or a cycle |
| PayloadDigestLaws.CycleNeverFits | src/core/application/payload-digest.ts:13-14 | No object that a chain of children leads back to fits any number of levels, so cyclic payloads never get a text |
| PayloadDigestLaws.PayloadTextIdentifies | src/core/application/payload-digest.ts:6-35 | Two payloads have the same text if and only if they denote the same data: same strings, numbers, lists and keyed records, whatever the heap layout and key order |
| PayloadDigestLaws.KeyOrderNeverMatters | src/core/application/payload-digest.ts:17-21 | Enumerating the keys of any objects in another order changes neither the text nor whether there is one |
| PayloadDigestLaws.RecordReads | src/core/application/payload-digest.ts:17-24 | A record is written in braces as its defined members in ascending order of their keys, each key quoted and followed by a colon and its value, with commas between |
| PayloadDigestLaws.ListReads | src/core/application/payload-digest.ts:16-16 | A list is written in brackets, the texts of its items in order with commas between and nothing for a hole |
| JsText.LessIsLexicographic | src/core/application/payload-digest.ts:19-19 | The order of keys, position by position: two texts agree up to a place where the first ends or has the smaller code unit |
| PayloadDigestLaws.SharedTexts | src/core/application/payload-digest.ts:8-10 | Two primitive values share a text if and only if they are equal, both null-like (null, undefined, functions, symbols, non-finite numbers), both zeros, or spell the same string as string or bigint |
| PayloadDigestLaws.SharedInList | src/core/application/payload-digest.ts:16-16 | In a list, a value can be replaced by one that shares its text without changing the text of the list |
| PayloadDigestLaws.SharedInRecord | src/core/application/payload-digest.ts:17-21 | In a record too, unless just one of the two is undefined, since an undefined entry is left out |
| PayloadDigestLaws.ValueCut | src/core/application/payload-digest.ts:6-24 | A canonical text followed by a separator can be read in one way only: equal texts with any continuations mean equal data and equal continuations |
| PayloadDigestLaws.SameDataSameText | src/core/application/payload-digest.ts:6-24 | The converse of the cut: equal data is written with equal texts |
| PayloadBytes.PayloadTextWellFormed | src/core/application/payload-digest.ts:6-35 | Every canonical text is well formed, whatever strings the payload holds, so encoding it as UTF-8 replaces nothing |
| PayloadBytes.PayloadBytesIdentify | src/core/application/payload-digest.ts:26-35 | The bytes that are hashed are equal if and only if the payloads denote the same data |
| JsonQuote.QuoteCut | src/core/application/payload-digest.ts:10-10 | JSON string quoting (section 7 of RFC 8259, with JSON.stringify escaping lone surrogates) is injective and self-delimiting on every string |
| JsonQuote.QuoteReads | src/core/application/payload-digest.ts:10-10 | A reader following the escape table of RFC 8259 recovers every string from its quoted form, whatever follows |
| JsNumber.MagnitudeReads | src/core/application/payload-digest.ts:8-9 | A reader recovers digits and decimal point from Number::toString in all its shapes: integer, mixed, small and exponent form |
| JsNumber.ExponentExactly | src/core/application/payload-digest.ts:8-9 | A number is printed with an exponent exactly above 21 integer digits and from seven places after the point on, and with a point exactly when digits are left after it |
| JsNumber.NumberTextIdentifies | src/core/application/payload-digest.ts:8-9 | Two finite numbers print alike exactly when they are the same number |
| WebhookFraming.SignedBytesDecode | src/core/application/webhook-ingress.service.ts:308-350 | A decoder recovers all fourteen field names and values from the signed bytes, whatever colons, equals signs, digits or line feeds the values contain |
| WebhookFraming.NamedFields | src/core/application/webhook-ingress.service.ts:327-342 | Which envelope field is signed under which of the fourteen names, in order |
| WebhookFraming.RefusedExactly | src/core/application/webhook-ingress.service.ts:325-326 | Only a content length that is no safe non-negative integer is refused |
| WebhookFraming.SignedBytesIdentify | src/core/application/webhook-ingress.service.ts:308-350 | Two envelopes have the same signed bytes if and only if all fields agree once each lone surrogate is replaced |
| WebhookFraming.SignedBytesInjective | src/core/application/webhook-ingress.service.ts:308-350 | For well-formed strings the signed bytes determine every field |
| WebhookFraming.LoneSurrogateCollides | src/core/application/webhook-ingress.service.ts:324-349 | Two different lone surrogates in one field give the same signed bytes |
| ApprovalGate.IdExactly | src/core/domain/identity.ts:97-97 | An identifier is one to 128 digits, letters and marks out of "._:@+-", the first of them no mark |
| ApprovalGate.RecordIdExactly | src/core/domain/identity.ts:371-383 | A record id is an identifier that no cut shows to hold two dots in a row |
| ApprovalGate.DigestExactly | src/core/domain/identity.ts:104-104 | A digest is 32 to 128 units of the lowercase hexadecimal alphabet |
| ApprovalGate.MemoryTargetParses | src/core/application/memory-write.service.ts:153-160 | The target of a parsed record id in a known namespace is always a valid resource, so memoryWriteTarget never throws |
| ApprovalGate.MemoryTargetIdentifies | src/core/application/memory-write.service.ts:153-160 | A target names one namespace and one record |
| ApprovalGate.ValidationAcceptsExactly | src/core/policy/confirmation-gate.ts:66-147 | A grant is accepted if and only if it is well formed, names an approvable effect, is pending and in its time window, and agrees with the demand in owner, actor, effect, target, namespace, scope as a multiset and digest |
| ApprovalGate.GrantRefusedExactly | src/core/policy/confirmation-gate.ts:66-120 | Malformed, undated, unknown, expired, consumed and revoked grants: each refusal code with exactly the grants it is given for |
| ApprovalGate.MismatchRefusedExactly | src/core/policy/confirmation-gate.ts:122-145 | A live grant is refused for the first of owner, actor, effect, target, namespace, scope and digest in which it differs from the demand |
| ApprovalStore.KeysEqualExactly | src/host/in-memory/approval-store.ts:57-58 | Two pairs share a consume key if and only if they are equal or one id is the other, a NUL and a text by which the nonces differ in turn |
| ApprovalStore.KeySharedExactly | src/host/in-memory/approval-store.ts:57-58 | A pair shares its consume key with some other pair if and only if there is a NUL in its id or its nonce |
| ApprovalStore.ConsumeKeyInjective | src/host/in-memory/approval-store.ts:57-58 | On ids without NUL, or for one pair wholly without NUL, the consume key determines both the approval id and the nonce |
| ApprovalStore.SharedKeyBlocks | src/host/in-memory/approval-store.ts:77-106 | In any store, consuming a pair makes every other pair with its key unconsumable, although its grant is untouched |
| ApprovalStore.ConsumeKeyCollides | src/host/in-memory/approval-store.ts:57-106 | Two seeded grants with a NUL in an id: after one is consumed the other, pending and never consumed, is refused |
| ApprovalStore.InMemoryApprovalStore.Seed | src/host/in-memory/approval-store.ts:61-65 | Seeding replaces the grant under its id and touches nothing else |
| ApprovalStore.InMemoryApprovalStore.Lookup | src/host/in-memory/approval-store.ts:67-75 | Lookup answers the stored grant, or none, and changes nothing |
| ApprovalStore.InMemoryApprovalStore.Consume | src/host/in-memory/approval-store.ts:77-106 | Consume succeeds exactly for a stored grant with this nonce, not consumed or revoked, whose key was never consumed; then it marks both, and it always leaves nothing in flight |
| ApprovalStore.ConsumedOnce | src/host/in-memory/approval-store.ts:77-106 | After a successful consume no later one with the same id and nonce succeeds, however often the id is seeded in between |
| ApprovalStore.ConsumedGrantIsRefused | src/host/in-memory/approval-store.ts:94-101 | A successful consume marks the grant and changes nothing else in the store; looked up again it is refused as already consumed |
| Sealing.SealRegistry.IssueClearance | src/core/domain/sanitized.internal.ts:80-88 | A clearance is issued exactly for sealed text and metadata, unused and bound to the write it was issued for |
| Sealing.SealRegistry.SealVerifiedWrite | src/core/domain/sanitized.internal.ts:180-232 | Sealing succeeds exactly with a known unused clearance whose binding matches in all fields, and uses it up; otherwise nothing changes |
| Sealing.CallsExtend | src/core/domain/sanitized.internal.ts:151-232 | No sequence of seals, clearances and writes forgets a handle, alters a binding or makes a used clearance usable again |
| Sealing.SealsOnlyItsBinding | src/core/domain/sanitized.internal.ts:61-77 | A clearance seals a write only if the write equals its binding |
| Sealing.ClearanceSealsOnce | src/core/domain/sanitized.internal.ts:180-194 | A clearance that has sealed a write never seals another, whatever happens in between |
| Sealing.FreshClearanceSeals | src/core/domain/sanitized.internal.ts:80-88 | A clearance just issued for a write seals that write |
| MemoryAccess.MutationAllowedExactly | src/core/policy/namespace-isolation.ts:88-130 | Writes and deletes are allowed exactly for a complete live request of the owner inside the active namespace by a permitted role, restricted memory being for the security guard alone |
| MemoryAccess.ReadAllowedExactly | src/core/policy/namespace-isolation.ts:88-130 | Other operations may also leave the active namespace, exactly with cross-project permission, within the scope, and never to or from personal or restricted memory |
| MemoryAccess.DeniedExactly | src/core/policy/namespace-isolation.ts:88-130 | Each denial code with exactly the requests that get it |
| ApprovalPayload.ApprovedTextIdentifies | src/core/application/memory-write.service.ts:182-195 | Two memory writes present the same text for approval if and only if content, metadata, namespace, target, record and scope are the same, the permitted list up to order |
| ApprovalPayload.ApprovedBytesIdentify | src/core/application/memory-write.service.ts:182-195 | The same of the UTF-8 bytes that are hashed, lone surrogates in the content included |
| MemoryWriteSafety.StepKeepsInv | src/core/application/memory-write.service.ts:215-393 | Every step of every writer, every seeding and every foreign consumption keeps the invariant: prepared operations are authorized ones, held grants are validated, their keys consumed, and no pair is held or used twice |
| MemoryWriteSafety.OneWritePerApproval | src/core/application/memory-write.service.ts:322-343 | In every interleaving of any writers, seedings and other users of the store, no two writes are backed by the same approval id and nonce |
| MemoryWriteSafety.WritesMatchGrants | src/core/application/memory-write.service.ts:301-367 | A write that needed approval is backed by a seeded grant under the id its command named, which at the trusted timestamp of the operation covers owner, actor, effect, target, namespace, scope and digest of exactly what was sealed |
| MemoryWriteTranscript.WritesAsTold | src/core/application/memory-write.service.ts:253-367 | Every write, told from the events its writer received: neither scan found a secret, access was authorized, the policy allowed the write and it names no grant, or required approval and it is backed by the valid, consumable grant found under the command's id; what is written is what scanners, command, access and clock gave |
| MemoryWriteTranscript.AnsweredExactly | src/core/application/memory-write.service.ts:215-393 | Each of the answers of executeMemoryWrite, SCAN_DENIED, POLICY_DENIED and APPROVAL_REQUIRED among them, is given if and only if the writer received exactly the events that call for it |
| MemoryWriteApproval.ApprovedContentIsWritten | src/core/application/memory-write.service.ts:183-204 | Whatever payload the approved digest was computed from has the content, metadata, namespace, target, record and scope that were sealed, or the two payloads are two different byte strings with one hash; no assumption on the hash function |
| MemoryWriteConsumption.ConsumptionFailsExactly | src/core/application/memory-write.service.ts:337-342 | With a validated grant, CONSUMPTION_FAILED is answered if and only if this pair was consumed earlier in the run, or the id by then holds another nonce or a consumed or revoked grant |
| MemoryWriteConsumption.KeyConsumedExactly | src/host/in-memory/approval-store.ts:77-106 | In any run the store remembers the key of a pair without NUL exactly if that very pair was consumed |
| MemoryWriteSafety.WritesStayInNamespace | src/core/application/memory-write.service.ts:276-297 | In every run a sealed write lies in the active namespace of its writer, so crossProjectAccess is false and ownerApproved tells whether a grant was used |
| MemoryWriteSafety.DigestNeverFails | src/core/application/memory-write.service.ts:362-367 | Both DIGEST_FAILED exits are unreachable |
| MemoryWriteSafety.ClearancesSingleUse | src/core/application/memory-write.service.ts:362-368 | Every write in a run used a clearance of its own, issued for that very write |
| MemoryWriteOutcomes.AnswersTellTheTruth | src/core/application/memory-write.service.ts:215-393 | Each writer writes at most once, has written exactly when it is past the write or failed in memory or audit, and reports the approval id of the write it made |
| NeoRuntime.Runtime.StartCalled | src/neo-runtime/create-neo-runtime.ts:223-239 | A start changes nothing when running, terminal or already in flight, answering ok, the terminal failure or the promise in flight; while stopping it is refused; otherwise it makes the runtime starting with one opener more |
| NeoRuntime.Runtime.OpenerAnswered | src/neo-runtime/create-neo-runtime.ts:184-220 | A rejected opener leaves the runtime starting, a failed one fails it, a successful one makes it running or, with the latch set, is closed again at once |
| NeoRuntime.StartAnsweredExactly | src/neo-runtime/create-neo-runtime.ts:184-220 | What a start answers and leaves, told from its opener's answer, the latch at that moment and the owner: started exactly for a successful opener without latch |
| NeoRuntime.StartCallExactly | src/neo-runtime/create-neo-runtime.ts:223-239 | What a call of start sets going in each state it can meet |
| NeoRuntime.Runtime.ShutDown | src/neo-runtime/create-neo-runtime.ts:123-162 | What a close does once no start is awaited: every lifecycle, both reasons and every outcome of the owner close, with its answer |
| NeoRuntime.CloseOfRunning | src/neo-runtime/create-neo-runtime.ts:128-162 | A requested close of a running runtime leaves it stopped, or stopping while the owner stays; a fatal one leaves it failed with RUNTIME_FATAL; a throw leaves it stopping and rejects |
| NeoRuntime.CloseOfStopping | src/neo-runtime/create-neo-runtime.ts:148-162 | A later requested close stops the runtime as soon as the owner closes |
| NeoRuntime.CloseOfStarting | src/neo-runtime/create-neo-runtime.ts:118-121 | A close during a start sets the latch, waits for that start and changes nothing else |
| NeoRuntime.CloseAfterStart | src/neo-runtime/create-neo-runtime.ts:118-162 | When that start has settled, the close is rejected with it or answers for what the start has left, by reason and by what the owner does |
| NeoRuntime.CloseOfFailed | src/neo-runtime/create-neo-runtime.ts:107-109 | A failed runtime that still holds an owner tries again to close it and stays failed |
| NeoRuntime.CloseOfIdle | src/neo-runtime/create-neo-runtime.ts:105-139 | With nothing held and nothing to wait for a close answers ok and leaves the runtime stopped, or failed if it was |
| NeoRuntime.FailureIsAccountedFor | src/neo-runtime/create-neo-runtime.ts:78-84 | A failure class is reported exactly in the failed state, and RUNTIME_FATAL only after a fatal close, the others only after the opener failed so |
| NeoRuntime.Runtime.CloseCalled | src/neo-runtime/create-neo-runtime.ts:104-121 | A second close joins the one in flight; a close while starting sets the latch and waits for the start; any other acts at once |
| NeoRuntime.Runtime.CloseResumed | src/neo-runtime/create-neo-runtime.ts:118-162 | A close that waited is rejected with a rejected start and otherwise shuts down what the start has left |
| NeoRuntime.Runtime.CloseOwnerIfPresent | src/neo-runtime/create-neo-runtime.ts:85-102 | The owner is dropped only on a successful close, and durableHostOpened follows it |
| NeoRuntime.StepKeepsInv | src/neo-runtime/create-neo-runtime.ts:104-247 | Every step keeps the relations between lifecycle, latch, flags, starts and closes |
| NeoRuntime.OneOpenerInFlight | src/neo-runtime/create-neo-runtime.ts:223-239 | At most one opener is in flight in every run, it is the start in flight, and the lifecycle is starting |
| NeoRuntime.HeldExactlyWhenOpened | src/neo-runtime/create-neo-runtime.ts:77-102 | An owner is held exactly when durableHostOpened |
| NeoRuntime.OwnersKeptExactly | src/neo-runtime/create-neo-runtime.ts:77-220 | Over any run every owner ever opened is the one held or was closed successfully once, if and only if at no point where health shows starting with an open durable host an opener succeeds or a close comes with no start and no close in flight |
| NeoRuntime.OverwritesReachably | src/neo-runtime/create-neo-runtime.ts:85-220 | In a reachable state those are exactly the steps that forget a held owner |
| NeoRuntime.NoOwnerDropped | src/neo-runtime/create-neo-runtime.ts:85-220 | In particular no owner is lost in a run where no owner close throws while an aborted start cleans up |
| NeoRuntime.OwnerLostExactly | src/neo-runtime/create-neo-runtime.ts:85-220 | A step loses an owner if and only if one is held and the step is a second opening or a close while nominally starting |
| NeoRuntime.ThrowingOwnerIsLost | src/neo-runtime/create-neo-runtime.ts:118-136 | A run in which the owner close throws during an aborted start, and a later close reports ok with the owner neither held nor closed |
| NeoRuntime.ClosedMeansGone | src/neo-runtime/create-neo-runtime.ts:104-163 | Once any close has answered ok there is no owner and no opener in flight in any later state |
| NeoRuntime.TerminalStatesAbsorb | src/neo-runtime/create-neo-runtime.ts:104-239 | Stopped and failed are never left, and once the shutdown latch is set running is never entered |
| NeoRuntime.CloseIsNeverBusy | src/neo-runtime/create-neo-runtime.ts:140-146 | NEO_RUNTIME_CLOSE_BUSY is never answered |
| NeoRuntime.CloseRetrySucceeds | src/neo-runtime/create-neo-runtime.ts:148-162 | With nothing in flight a close whose owner closes is answered ok at once, after any number of failures |
| DurableOwner.Owner.RunGated | src/host/durable/create-durable-local-host-owner.ts:115-150 | An operation runs only while open, is counted while it or its thenable is pending and counted down once, whatever its body and thenable do |
| DurableOwner.Owner.AdvanceShutdown | src/host/durable/create-durable-local-host-owner.ts:182-207 | A shutdown pass runs the closers from the current stage on until one fails, closers re-entering the owner included, and closes only after the last |
| DurableOwner.Owner.CloseCalled | src/host/durable/create-durable-local-host-owner.ts:211-234 | A close is ok when closed, busy during a pass or with operations in flight, and otherwise a pass; its answer is the last mark of the history |
| DurableOwner.ExecAllKeeps | src/host/durable/create-durable-local-host-owner.ts:115-234 | Whatever foreign code does, its effect on the owner keeps history lawful and a running shutdown untouched |
| DurableOwner.EveryRunIsLawful | src/host/durable/create-durable-local-host-owner.ts:115-234 | After any script of re-entrant calls the history is lawful and the active count equals the operations in flight |
| DurableOwner.NoOperationAfterClose | src/host/durable/create-durable-local-host-owner.ts:116-116 | No operation starts after close has been called |
| DurableOwner.OnceEach | src/host/durable/create-durable-local-host-owner.ts:119-123 | Each operation starts once and is counted down once |
| DurableOwner.OperationEnds | src/host/durable/create-durable-local-host-owner.ts:115-150 | An operation on an open owner starts; it has ended when it came back with a value or a throw, or its `then` threw; otherwise settling its thenable, once subscribed to, ends it |
| DurableOwner.OnlySettlingEnds | src/host/durable/create-durable-local-host-owner.ts:127-137 | Nothing but settling it ends an operation that came back without being over |
| DurableOwner.ClosesAfterFinished | src/host/durable/create-durable-local-host-owner.ts:115-234 | After any calls whose operations were all over on coming back, a close with succeeding closers answers ok |
| DurableOwner.ClosesAfterSettling | src/host/durable/create-durable-local-host-owner.ts:115-234 | After any calls at all, once the thenables that are left have been settled, such a close answers ok |
| DurableOwner.ClosersRunAlone | src/host/durable/create-durable-local-host-owner.ts:220-233 | When a closer starts, every operation of the whole history has ended |
| DurableOwner.ClosersDoNotNest | src/host/durable/create-durable-local-host-owner.ts:211-234 | A closer has ended before the next one starts |
| DurableOwner.ClosersInOrder | src/host/durable/create-durable-local-host-owner.ts:182-207 | A closer runs exactly when all earlier stages have succeeded and neither its own nor a later one has: failures and one success of memory, then of the process lock, then of the storage root |
| DurableOwner.CloseOkExactly | src/host/durable/create-durable-local-host-owner.ts:206-212 | close answers ok if and only if all three stages have succeeded |
| DurableOwner.RetrySucceeds | src/host/durable/create-durable-local-host-owner.ts:211-234 | With no operation in flight and closers that succeed, close finishes the shutdown after any number of failures |
| ObjectPaths.FitsExactly | src/core/domain/json-dto-snapshot.ts:84-160 | Admission by recursion is a statement about all paths: each is short enough and ends at an admissible value |
| ObjectPaths.TreeExactly | src/core/domain/json-dto-snapshot.ts:106-107 | A walk meets no object twice if and only if no two paths lead to one object |
| ObjectPaths.CountExactly | src/core/policy/memory-secret-boundary.ts:8-25 | The walk meets at most n objects if and only if some n paths are all the paths to objects |
| JsonSnapshot.Walker.Walk | src/core/domain/json-dto-snapshot.ts:84-160 | The walk succeeds exactly on admitted values and then adds exactly their objects to the seen set and the node count |
| JsonSnapshot.Walker.WalkArray | src/core/domain/json-dto-snapshot.ts:111-135 | An array is admitted element by element; holes, accessors, functions and extra names fail |
| JsonSnapshot.Walker.WalkRecord | src/core/domain/json-dto-snapshot.ts:137-159 | A record is admitted property by property; empty or long keys, accessors, functions and hidden properties fail |
| JsonSnapshot.AdmittedExactly | src/core/domain/json-dto-snapshot.ts:68-163 | What the walk admits from zero budgets is exactly a plain tree: all reachable values plain and within limits, depth at most maxDepth, no object reached twice, at most maxNodes objects |
| JsonSnapshot.SnapshotPlainJsonDto | src/core/domain/json-dto-snapshot.ts:68-163 | On any heap, cyclic or shared, the snapshot terminates, succeeds exactly on plain trees, and returns data that mirrors the input on every path |
| JsonSnapshot.CycleRefused | src/core/domain/json-dto-snapshot.ts:106-107 | An object some path leads back to is refused at any limits |
| JsonSnapshot.SharingRefused | src/core/domain/json-dto-snapshot.ts:106-107 | A graph of two objects that shares one is refused at any limits, although it has no cycle and, at limits that allow it, every path in it is short and leads to plain data |
| SecretBoundary.Traversal.ContainsSecretMaterial | src/core/policy/memory-secret-boundary.ts:8-25 | The budgeted traversal terminates on every graph and answers false exactly when nothing below is secret and the budget suffices |
| SecretBoundary.CleanExactly | src/core/policy/memory-secret-boundary.ts:8-25 | From a zero budget the answer is false exactly when no path leads to a secret and at most 64 paths lead to objects |
| SecretBoundary.FewObjectsAcyclic | src/core/policy/memory-secret-boundary.ts:12-13 | A graph that passes the budget has no reachable cycle |
| SecretBoundary.EvaluateMemorySecretBoundary | src/core/policy/memory-secret-boundary.ts:32-42 | Allowed exactly without secret class, secret raw content, reachable secret or more than 64 object paths; allowed metadata is acyclic |
| MetadataFlatten.Flattening.Flatten | src/core/policy/sensitive-data-scanner.ts:431-489 | From any budget the walk succeeds exactly when depth, node and key limits hold below the value, and then charges and stores exactly what is below it |
| MetadataFlatten.FlattenMetadata | src/core/policy/sensitive-data-scanner.ts:520-530 | From zero budgets it succeeds exactly with at most 256 descendants, depth at most 5 and key length at most 4096, stores every leaf under its path, and loses one exactly when two leaves share a path |
| MetadataPaths.LeafPathsDistinct | src/core/policy/sensitive-data-scanner.ts:462-480 | If in every record the path of no key continues that of a sibling, no two leaves share a path |
| MetadataPaths.LeafTexts | src/core/policy/sensitive-data-scanner.ts:445-458 | A leaf is stored as its text, null as the empty text, numbers and booleans as String prints them |
| MetadataPaths.KeysSafeExactly | src/core/policy/sensitive-data-scanner.ts:470-480 | The keys of a record are safe under all values if and only if the path of no key is one that could continue the path of another |
| MetadataPaths.KeysApartMeans | src/core/policy/sensitive-data-scanner.ts:470-480 | Where no key is empty, and anywhere below the root, that means: no key is another followed by index steps, or by a dot and anything, or both |
| MetadataPaths.EmptyKeyAtRoot | src/core/policy/sensitive-data-scanner.ts:475-479 | At the root an empty key is safe only alone, since it leaves the path empty |
| MetadataPaths.DottedKeysCollide | src/core/policy/sensitive-data-scanner.ts:478-478 | A document within all limits whose dotted key gives two leaves one path |
| Redaction.MergeFindings | src/core/policy/sensitive-data-scanner.ts:228-249 | Merging yields separate ranges, each ending strictly before the next begins, covering exactly the union of the findings, each with category and severity of the first most severe finding in it |
| Redaction.SortedByStart | src/core/policy/sensitive-data-scanner.ts:229-231 | Findings are merged in order of start, and of those that start together the longer first |
| Redaction.MergedRangesUnique | src/core/policy/sensitive-data-scanner.ts:228-249 | The merged ranges depend only on which positions are covered |
| Redaction.MergedInText | src/core/policy/sensitive-data-scanner.ts:241-247 | Merged ranges stay inside the text |
| Redaction.MergeKeepsDecision | src/core/policy/sensitive-data-scanner.ts:374-378 | Deciding on merged findings is deciding on the raw ones |
| Redaction.DecidedExactly | src/core/policy/sensitive-data-scanner.ts:374-378 | Deny exactly for a forced denial or a critical finding, redact exactly for other findings, allow exactly without any |
| Redaction.ApplyRedaction | src/core/policy/sensitive-data-scanner.ts:360-368 | Back-to-front splicing equals the left-to-right text of gaps and markers |
| Redaction.RedactionIsExact | src/core/policy/sensitive-data-scanner.ts:360-368 | The redacted text is all uncovered positions of the input in order with one marker per finding, and no covered position |
| AssignmentScanner.SkipAssignmentWhitespace | src/core/policy/sensitive-data-scanner.ts:168-184 | A value starts after spaces, at most one line break and more spaces; a further line break is ambiguous |
| AssignmentScanner.ValueStartSkips | src/core/policy/sensitive-data-scanner.ts:168-184 | Between a key and its value exactly blanks and tabs around at most one line break are skipped, CR LF being one |
| AssignmentScanner.AssignmentValueEnd | src/core/policy/sensitive-data-scanner.ts:191-206 | A quoted value ends after the first closing quote within 4096 units that has an even number of backslashes before it, anything else at the end of the line |
| AssignmentScanner.EndsAtExactly | src/core/policy/sensitive-data-scanner.ts:191-206 | Where a value ends, in code units: after the same double or single quote within 4095 units that is not escaped, else at the line feed or carriage return |
| AssignmentScanner.ValueNotEmpty | src/core/policy/sensitive-data-scanner.ts:191-206 | A value that does not start on a line break is not empty and ends inside the input |
| AssignmentScanner.Collector.CollectAssignment | src/core/policy/sensitive-data-scanner.ts:268-304 | Each key match contributes its value, or the key itself and a forced denial when the value is missing or ambiguous; the empty-range branch is dead |
| AssignmentScanner.AssignedExactly | src/core/policy/sensitive-data-scanner.ts:268-304 | What a sensitive key yields: its value at its own severity, or from the key on at least high severity where the value is missing or ambiguous |
| AssignmentScanner.ProtectedExactly | src/core/policy/sensitive-data-scanner.ts:225-226 | A finding is dropped exactly if an existing marker contains it |
| AssignmentScanner.Collector.Collect | src/core/policy/sensitive-data-scanner.ts:251-348 | push is never handed an empty range, denial is forced exactly by a key without a value, and the merged findings are those of all matches outside existing markers |
| AssignmentScanner.SomeForcesExactly | src/core/policy/sensitive-data-scanner.ts:270-290 | Denial is forced if and only if some key match has no value or an ambiguous one |
| AssignmentScanner.RawFindingsExactly | src/core/policy/sensitive-data-scanner.ts:257-346 | A finding is raised if and only if no existing marker contains it and it is the value of a sensitive key, a literal or URL match, or the rest of the input from a key header that no complete private key covers |
| AssignmentScanner.RawInText | src/core/policy/sensitive-data-scanner.ts:257-346 | Every range ever pushed is a non-empty range of the input |
| AssignmentScanner.ScanSensitiveData | src/core/policy/sensitive-data-scanner.ts:380-396 | It denies if and only if a key has no value or an ambiguous one or a raw finding is critical, redacts for any other raw finding and allows without one; the redacted text is exact for the merged findings, and an allowed text is unchanged |
| EventStream.ProtocolEventStream.PushMessage | scripts/integration/lib/protocol-event-stream.ts:101-112 | A message goes to the pending waiter, which settles and loses its listener, or to the end of the buffer |
| EventStream.ProtocolEventStream.CloseStream | scripts/integration/lib/protocol-event-stream.ts:118-127 | The first close records its reason and rejects the pending waiter; later ones change nothing; the buffer stays |
| EventStream.ProtocolEventStream.WaitForNextProtocolEvent | scripts/integration/lib/protocol-event-stream.ts:130-180 | A wait is refused when aborted, served from the buffer, refused when closed or in conflict, and otherwise pending, an abort racing with its registration included |
| EventStream.ProtocolEventStream.AbortSignal | scripts/integration/lib/protocol-event-stream.ts:164-168 | An abort fires the listeners on its signal once each |
| EventStream.DeliveredThenBuffered | scripts/integration/lib/protocol-event-stream.ts:101-112 | In every run the messages delivered, followed by the buffer, are the messages pushed |
| EventStream.PendingWaitIsAlone | scripts/integration/lib/protocol-event-stream.ts:105-180 | A waiter never coexists with a buffered message or a closed stream, and the only live listener is its own |
| EventStream.WaitsSettleOnce | scripts/integration/lib/protocol-event-stream.ts:105-180 | Every wait but the pending one has settled, and none twice |
| EventStream.AbortConsumesNothing | scripts/integration/lib/protocol-event-stream.ts:164-168 | An abort settles the wait pending on its signal and changes nothing else |
| EventStream.BufferOutlivesClose | scripts/integration/lib/protocol-event-stream.ts:114-146 | While messages are buffered a wait gets the oldest, closed stream or not |
| EventStream.ClosedStreamAnswers | scripts/integration/lib/protocol-event-stream.ts:147-151 | On a closed and drained stream a wait is rejected with the reason of the first close |
| EventStream.CloseEndsThePendingWait | scripts/integration/lib/protocol-event-stream.ts:118-127 | A wait pending at the first close ends with the reason of that close, and nothing else changes |
| EventStream.FirstCloseCounts | scripts/integration/lib/protocol-event-stream.ts:118-121 | A stream is closed exactly when some close was made, with the reason of the first |
| EventStream.OpenStreamAnswers | scripts/integration/lib/protocol-event-stream.ts:130-180 | On an open and drained stream a wait is refused on an aborted signal or in conflict with a pending one, which it does not disturb, and otherwise pends |
| EventStream.AbortedWaitTakesNothing | scripts/integration/lib/protocol-event-stream.ts:130-140 | A wait on an aborted signal is refused even when messages are buffered, and takes none |
| EventStream.TerminalSeenExactly | scripts/integration/lib/protocol-event-stream.ts:102-104 | A terminal message has been seen exactly when one was pushed |
| LineFraming.InteractiveIngestChunk | scripts/integration/lib/interactive-stdin.ts:49-77 | The loop frames buffer and chunk into lines and rest, and fails exactly on a rest over the limit |
| LineFraming.ChunkAnsweredExactly | scripts/integration/lib/interactive-stdin.ts:49-77 | What a chunk is answered with: nothing once failed or ended, else its complete lines, and LINE_TOO_LONG after them for a rest over the limit |
| LineFraming.EndAnsweredExactly | scripts/integration/lib/interactive-stdin.ts:79-109 | The end of input is answered with nothing once a command or event ended it, PARTIAL_EOF for a rest that is not blank, else EOF_WITHOUT_TERMINAL |
| LineFraming.FramingConcat | scripts/integration/lib/interactive-stdin.ts:56-64 | Framing a text in two pieces, carrying the rest over, is framing it whole |
| LineFraming.AtMostOneFail | scripts/integration/lib/interactive-stdin.ts:49-109 | In any run of chunks, marks and ends of input there is at most one fail, and none from a failed state |
| LineFraming.FramingFollowsTheStream | scripts/integration/lib/interactive-stdin.ts:49-77 | A run of chunks fails exactly when some partial line exceeds the limit; otherwise lines and buffer are those of the whole stream |
| LineFraming.ChunkIndependent | scripts/integration/lib/interactive-stdin.ts:49-77 | Two chunkings of one stream with no partial line over the limit give the same lines and state |
| LineFraming.LongLineDependsOnTheCut | scripts/integration/lib/interactive-stdin.ts:65-73 | A line over the limit passes when it arrives whole and fails when cut before its line feed |
| FlockHolder.FlockHolderIngestChunk | scripts/integration/lib/flock-holder-protocol.ts:26-59 | Lines are handled one by one until one ends the machine; only then may the partial line be kept or fail |
| FlockHolder.LineAnsweredExactly | scripts/integration/lib/flock-holder-protocol.ts:62-91 | Which action a line is answered with, told from the parser's verdict on it |
| FlockHolder.EndAnsweredExactly | scripts/integration/lib/flock-holder-protocol.ts:97-113 | When the end of input is answered with nothing, PARTIAL_EOF and EOF_WITHOUT_TERMINAL |
| JsSplit.TrimCuts | scripts/integration/lib/flock-holder-protocol.ts:45-45 | Trimming a line cuts white space, all of it, off both ends and nothing else |
| FlockHolder.RunsAreOrderly | scripts/integration/lib/flock-holder-protocol.ts:26-113 | In every run there is at most one close or fail and it comes last, closed equals terminalCommandSeen, and COMMAND_AFTER_TERMINAL is never reported |
| FlockHolder.ActionsFollowTheStream | scripts/integration/lib/flock-holder-protocol.ts:26-91 | With no partial line over the limit the actions are the verdicts on the lines of the stream up to the one that ends it |
| FlockHolder.CutsAgree | scripts/integration/lib/flock-holder-protocol.ts:26-59 | Two chunkings of one stream lead to the same actions and the same outcome |
| StderrCollector.Collector.Ingest | scripts/integration/lib/child-stderr.ts:74-90 | Whatever the chunking, exactly the first retainCap bytes are retained |
| StderrCollector.Collector.Snapshot | scripts/integration/lib/child-stderr.ts:97-110 | The snapshot shows the first retainCap bytes and when truncation is reported |
| StderrCollector.TruncationExactly | scripts/integration/lib/child-stderr.ts:77-106 | With lookahead, truncation is reported exactly when more than the cap was seen; without, also after any chunk that arrives when the cap is reached |
| StderrCollector.EmptyChunkTruncates | scripts/integration/lib/child-stderr.ts:77-80 | Without lookahead an empty chunk after exactly the cap reports truncation although nothing was lost |
| StderrCollector.CutEndsExactly | scripts/integration/lib/child-stderr.ts:175-189 | The cutting loops end if and only if the cap has room for the 19 bytes of the marker line |
| StderrCollector.EndsExactly | scripts/integration/lib/child-stderr.ts:174-190 | The condition under which the summary is described is exactly that every loop entered comes to an end |
| StderrCollector.FitSummary | scripts/integration/lib/child-stderr.ts:172-200 | A summary exceeds the cap exactly when a violation replaces it and the cap is below 10 bytes; otherwise it carries the marker when truncated, is the whole text when not, and is cut at the first multiple of 64 that fits |
| PathNormalization.NormalizePosixAbsolutePath | scripts/integration/lib/filesystem-detection.ts:45-59 | The result is the stack of names the segments resolve to, or none when they climb above the root |
| PathNormalization.NormalizedIsNormal | scripts/integration/lib/filesystem-detection.ts:45-59 | Normalisation is idempotent and its result has no empty, dot or dot-dot segment |
| PathNormalization.NormalizedIdentifies | scripts/integration/lib/filesystem-detection.ts:45-59 | Two paths normalise alike exactly when they resolve to the same names |
| PathNormalization.DownAndUp | scripts/integration/lib/filesystem-detection.ts:51-55 | Going down into a name and up again changes nothing, anywhere in a path |
| PathNormalization.PathRefusedExactly | scripts/integration/lib/filesystem-detection.ts:46-54 | A path is refused exactly when it is not absolute or some prefix of it climbs above the root |
| MountDetection.UnescapeProcMountsPath | scripts/integration/lib/filesystem-detection.ts:16-33 | Every backslash with three octal digits becomes one unit, everything else stays, and the empty path is refused |
| MountDetection.EscapeUnescaped | scripts/integration/lib/filesystem-detection.ts:16-33 | A backslash and three octal digits stand for the one unit they spell |
| MountDetection.PlainUnescaped | scripts/integration/lib/filesystem-detection.ts:16-33 | A backslash without three octal digits stands for itself, and any other unit always does |
| MountDetection.UnescapeEscape | scripts/integration/lib/filesystem-detection.ts:15-33 | Unescaping inverts the octal escapes of space, tab, line feed and backslash |
| MountDetection.MountPointIs | scripts/integration/lib/filesystem-detection.ts:36-42 | A normalised mount point is the root or ends without a slash, and normalising again changes nothing |
| MountDetection.WithinIsComponentPrefix | scripts/integration/lib/filesystem-detection.ts:65-77 | A path is on a mount exactly when the components of the mount begin those of the path |
| MountDetection.MountsNest | scripts/integration/lib/filesystem-detection.ts:118-122 | Of two mounts a path is on the shorter contains the longer, and equally long ones are the same |
| MountDetection.ParseProcMounts | scripts/integration/lib/filesystem-detection.ts:79-96 | One entry per line with three fields and an absolute mount point, in order |
| MountDetection.LineSkippedExactly | scripts/integration/lib/filesystem-detection.ts:82-93 | A line is skipped exactly when it has fewer than three fields or its second, unescaped, is no absolute path |
| MountDetection.LineRoundTrip | scripts/integration/lib/filesystem-detection.ts:84-93 | A line written with the kernel's escapes reads back as its mount point and type, whatever fields follow |
| MountDetection.TableRoundTrip | scripts/integration/lib/filesystem-detection.ts:79-96 | A whole mount table written with octal escapes, with any further fields, reads back entry by entry |
| MountDetection.DetectFilesystemFromMounts | scripts/integration/lib/filesystem-detection.ts:98-128 | Detection reports the last of the longest mounts containing the path, unknown without one, and local exactly for known types that are not rejected |
| MountDetection.DetectedIsDeepest | scripts/integration/lib/filesystem-detection.ts:112-123 | The detected mount lies inside every other mount the path is on, and an equally long one is the same mount listed earlier |
| EventSequence.AssertCorrelatedEventSequence | scripts/integration/lib/scenario-orchestration.ts:48-68 | Greedy matching passes if and only if the expected events are a subsequence of the events of the correlated messages |
| EventSequence.EarliestExtends | scripts/integration/lib/scenario-orchestration.ts:54-66 | The greedy positions are the earliest of all embeddings, and when greedy stops no embedding exists |

## Left out

- MetadataPaths.KeysSafeExactly: quantifies over values of any size; a value that makes two leaves clash over a long chain of index steps need not fit the limits of the walk.
- MemoryWriteApproval.ApprovedContentIsWritten: SHA-256 itself is not modelled, so a collision of it is named, not excluded.
- JsonSnapshot.SnapshotPlainJsonDto: states when the snapshot succeeds and what it returns, not which failure code is chosen when several apply; the codes are in the walk.
- SecretBoundary.EvaluateMemorySecretBoundary: the values a property read yields are given by the heap, so getters that answer differently each time are not covered.
- EventStream.ProtocolEventStream.WaitForNextProtocolEvent: error texts, exit codes and timeout flags of a close reason are one value.
- AssignmentScanner.Collector.Collect: the regular expressions and URL parsing are replaced by arbitrary non-empty ranges inside the input; which text they match is not modelled.
- FlockHolder.FlockHolderIngestChunk: the command parser is a table from trimmed lines to verdicts, and its error codes are one.
- PayloadDigestLaws.PayloadTextIdentifies: finite numbers are given by their shortest decimal digits; that these identify a double is ECMA-262's, not proved here.
- DurableOwner.Owner.RunGated: says when whenClosed answers instead of the operation, not with which value of the port.
- Double arithmetic, Unicode NFC normalisation, dates and Intl: numbers are decimals, normalised text and instants are inputs.
- The marking of untrusted text before scanning, the request put to the policy port and the audit record: arguments of ports whose answers are free.
- The scanner itself inside the memory write: its verdicts and redacted texts are free inputs of the protocol.
- Decoding of retained stderr bytes, the stream-error suffix, path replacement and violation detection of the summary: inputs of the cutting step.
- expectNextEvent: it only classifies the message a wait delivers.
- executeWebhookIngress, extension, voice and permission gateways: straight-line calls of ports around the parts modelled here.
- Configuration, manifest and identity validators: flat field checks; the identifier rules approvals need are in ApprovalGate.
- Freezing, brands and other means of making values tamper-proof at run time.
- Process spawning, signals, git, the Linux gate drivers and reading /proc: input and output around the pure parts.
- command-queue, cleanup-controller, evidence and ProtocolStateTracker: small latches.
