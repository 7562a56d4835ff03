# VoltPanel, modelled and proved in Dafny

VoltPanel is a hosting control plane with an execution agent, `voltd`. This project models
the parts of it whose correctness is decided by their own code and proves what they promise.
`dafny verify dfyconfig.toml` checks everything.

Code that changes things step by step is imperative here too. Directories, tables, buffers
and buckets are fields of classes, or arrays, changed by methods. Each such method is proved
against a specification function or a step of a state machine, and the promises are lemmas
about those. Code made of expressions is functions.

| files | component |
|---|---|
| `DirNames`, `SwapMachine`, `SwapProofs`, `SwapTheorems`, `BootRecovery`, `Agent` | restoring a snapshot over a live server directory, and recovery at boot |
| `Lifecycle`, `LifecycleProofs`, `LifecycleTheorems` | start, stop, restart, waiters and automatic restarts of one server |
| `Utf8`, `Utf8Carry` | the incremental UTF-8 decoder, over sections 3 and 4 of RFC 3629 |
| `Envelope`, `Signing` | signed responses, stream footers, canonical strings, the clock window |
| `Seccomp` | the generator of the cBPF system call filter, with an interpreter |
| `Base32` | unpadded base32, section 6 of RFC 4648 |
| `RateLimit`, `CrashBudget` | the token bucket and the crash-restart budget |
| `Placement`, `PlacementTheorems` | node capacity, reservations and the choice of a node |
| `Allocations`, `Backfill` | port allocations, the mirrored primary port, and the migration that elects primaries |
| `Subnets` | the /30 allocator in 10/8 and the user id walk |
| `Capabilities`, `Squads` | capabilities, stored grants and their migration, grant resolution, squad roles |
| `TlsPair` | publishing a certificate and its key |

## How it is modelled

**Restore and recovery.** The servers directory is a map from names to files or directories.
Renames and the exchange are single steps, a recursive removal is one step per file, any
number of restores of distinct servers interleave, and `Crash` is enabled in every state,
recovery included. The methods of `Agent.Directory` are the source's functions; each action
they take on the directory is recorded as a step of the machine, so the theorems about all
runs of the machine hold at every point where one of those methods may be cut off.

**Lifecycle.** Threads interleave at every access to the shared fields `operation`,
`stopping`, `pid`, `child`, `network`, `stdin_tx` and `cgroup`. Children are numbered in spawn
order and each resource carries its child's number, which is how "its own" is stated.

**Tables.** A SQLite transaction is one step that commits or leaves the tables as they were,
except in `Placement`, where an open transaction has its own view of the table and the clock
moves on meanwhile. Unique indexes are conditions a statement must meet or be rolled back.

**Abstracted.** SHA-256 and HMAC are function parameters, taken as collision-free where a
statement says so. Instants are integers, bucket tokens and scores exact rationals. A stored
JSON array is a list of strings or corrupt. Certificate checks are function parameters.
File-system faults, crash points, clocks and generated values are parameters of the methods.

## Where the code and what is said of it differ

Each of these follows the code, with a lemma for the failing family and the exact condition
where there is one.

- A server name without a dash passes `validate_uuid`, but boot recovery does not give its
  directory back after a crash between the two renames (`WindowOutcome`, `WindowReachable`).
- Recovery is idempotent on every directory the agent can leave; on nested asides, which it
  never writes, a second boot still acts, in whatever order the names are read
  (`NestedAsideNeedsTwoBoots`). Having none is
  sufficient and not claimed necessary: on nested asides the first pass depends on the order
  in which the names were read (`NestedOrderShows`), so no function of the directory says
  what recovery does there.
- The waiter takes the cgroup after giving up the pid, so it can take the cgroup of a later
  child. `ForeignCgroup` says exactly when, `StartSlipsIn` and `ForeignCgroupReachable` that
  it happens.
- A comment in `Utf8Carry::push` says that completing a carried sequence cannot produce an
  invalid one. That holds for well-formed text. What is carried may already be malformed while
  the decoder waits for the announced bytes: then it holds back what a scan would have
  emitted (`WaitingExactly`), and when the bytes have arrived it drops them all where a scan
  drops the malformed ones only (`CarryExactly`). `SwallowedExactly` says exactly when this
  shows, from every state the decoder reaches (`PushCarried`, `CarriedReachable`);
  `ChunkingOnAnyBytes` that otherwise chunking is invisible on any bytes; `CarrySwallows` is a
  witness.
- The filter's jump offset is a byte: lists of distinct numbers filter correctly exactly up to
  255 entries (`DistinctListsExactly`). The shipped list has 16.
- `base32_decode` narrows a character to a byte before looking it up, so letters outside ASCII
  are accepted, exactly those whose low byte is in the alphabet (`ForeignLetter`).
- `consume_crash_budget` is described as atomic under a database mutex, but reads and writes in
  two statements on a pooled connection. Every granted overlap loses a count: two crashes that
  read before either writes yield one grant too many, however many slots are left
  (`OverlapExactly`). Over any interleaving within a window the excess is exactly the sum of
  the lost counts (`LostUpdates`); over several windows it is at most what stale accesses bring
  back (`OverlapBound`), which without overlap is nothing (`RefundedRunBound`). `RunBound` and
  the minute bounds are for crashes one at a time.
- On a clock that steps back the rate limit pays every way forward again. `ClockBound` is the
  bound for any clock, `RateBound` what it says of one that does not step back, and
  `ClockBackBreaksBound` a family that attains the first and exceeds the second.
- `remove_allocation` checks and deletes in two statements on a pooled connection. A promotion
  in between leaves a server without a primary (`PromotionSlipsIn`); the deletion is safe exactly
  when the row is not primary at that moment (`DeleteRowExactly`).
- `subnet_index` is described as folding 48 bits into 16; the part folded in is always zero, so
  only two bytes of the digest matter (`IndexIsTail`).
- `live_subnets` skips addresses outside 10/8 even when a short prefix makes their network
  span it; `ClearExactly` and `AllocateSubnet` say that these are the only exceptions.
- Removing a squad member compares roles; changing one looks at the new role only, so a member
  can be demoted first (`DemotionOpensRemoval`). Called directly, ordinary users can get any
  member out if and only if one of them holds a row in the squad (`EvictableExactly`). The
  endpoints close this: they let managers through only and refuse the role `Custom`
  (src/api/servers.rs:1854-1864, 1928-1936), so there it takes a manager, who could have given
  any role (`EndpointNeedsManager`).
- `ensure_material` is described as repairing whatever a crash leaves, and it does
  (`AlwaysHeals`). A published file that is not text, which no crash leaves, is never repaired:
  every call fails on it (`UnreadableStays`).

## Model

| member | source | states |
|---|---|---|
| DirNames.AsideOfTarget | src/node_daemon.rs:1816-1816 | The aside name and the server it was made for determine each other. |
| DirNames.KindsApart | src/node_daemon.rs:1957-1967 | Valid server names, asides, staging names and probe names never collide. |
| DirNames.StagingInjective | src/node_daemon.rs:1424-1424 | A staging name determines its server and its nonce. |
| DirNames.NameLengths | src/node_daemon.rs:1957-1967 | Of text in the permitted characters, a prefix is a server name exactly when it is 1 to 64 characters long. |
| SwapProofs.StepKeeps | src/node_daemon.rs:1748-1847 | Every step of every restore, of a crash and of recovery keeps the invariant: each server's only complete copy is in place, or in its aside while the fallback stands between its renames or recovery has yet to visit it. |
| SwapTheorems.InvAlways | src/node_daemon.rs:1748-1955 | The invariant holds in every state of every run. |
| SwapTheorems.CommittedIsLastEffect | src/node_daemon.rs:1461-1481 | What the model counts as a server's content is what the last restore that took effect installed. |
| SwapTheorems.CrashSafety | src/node_daemon.rs:1748-1955 | In every run, however restores, failures, crashes and partial recoveries interleave, a serving agent has each hyphenated server in place with exactly the content of its last effective restore, or its first content. |
| SwapTheorems.OldOrWholeArchive | src/node_daemon.rs:1748-1955 | The same without bookkeeping: exactly the old content, or the whole content of an archive that was asked for. |
| SwapTheorems.ArchiveWasBegun | src/node_daemon.rs:1408-1440 | Every content a restore may install is the archive of a restore of that server that began earlier. |
| SwapTheorems.NeverAbsentWithoutFallback | src/node_daemon.rs:1748-1763 | Without the two-rename path a live directory is never absent, not even in passing. |
| SwapTheorems.WindowOutcome | src/node_daemon.rs:1894-1926 | After a crash between the two renames, and any number of interrupted boots, the next completed boot puts the directory back if and only if the name has a dash; otherwise it stays aside, whole. |
| SwapTheorems.WindowReachable | src/node_daemon.rs:1810-1847 | Every valid name, with or without a dash, can be caught in that window. |
| SwapTheorems.UndashedNameExists | src/node_daemon.rs:1957-1967 | There are valid names without a dash. |
| SwapTheorems.NestedAsideNeedsTwoBoots | src/node_daemon.rs:1877-1955 | For every hyphenated name and every order of the names: an uninterrupted boot that finds the server and its aside missing and the aside's own aside in place ends with the server still missing and its aside uncovered; any later boot puts the server back. |
| SwapTheorems.NewAside | src/node_daemon.rs:1810-1830 | Only the first rename of the fallback creates an aside. |
| SwapTheorems.SecondBootIsIdle | src/node_daemon.rs:1877-1955 | From any directory a run can leave, a completed recovery followed by another changes nothing more. |
| SwapTheorems.NothingLeft | src/node_daemon.rs:1894-1953 | After recovery no staging directory and no probe file is left, and an aside is left only when its name cannot be mapped and its live directory is missing. |
| SwapTheorems.RecoveryKeeps | src/node_daemon.rs:1877-1955 | Recovery leaves alone every name that is none of the agent's, and a server appears only from its own aside. |
| BootRecovery.RestoreStep | src/node_daemon.rs:1894-1926 | One iteration of the restoring pass, in any directory order, is one more name of the order-free result. |
| BootRecovery.SweepStep | src/node_daemon.rs:1928-1953 | The same for the reclaiming pass; what may still be dropped does not change meanwhile. |
| BootRecovery.RecoveredIdempotent | src/node_daemon.rs:1877-1955 | Recovery is idempotent on directories without nested asides. |
| BootRecovery.NestedOrderShows | src/node_daemon.rs:1894-1927 | With both asides present, the order of the names decides what the first pass leaves. |
| Agent.LogIsRun | src/node_daemon.rs:1748-1955 | What the methods record is a run of the machine. |
| Agent.SafeWherever | src/node_daemon.rs:1748-1955 | So the invariant holds at every recorded point, wherever a method is cut off. |
| Agent.Directory.RemoveDirAll | src/node_daemon.rs:1821-1828 | A recursive removal unlinks one file at a time; it ends with the entry gone, or stops after a given number of unlinks with everything else untouched. |
| Agent.Directory.VacateLive | src/node_daemon.rs:1817-1829 | The live directory ends up aside, unchanged, if and only if the rename does not fail and a leftover aside was absent, removable or emptied; otherwise it stays where it was. |
| Agent.Directory.InstallStaged | src/node_daemon.rs:1830-1839 | Staging ends up in place if and only if its rename does not fail; otherwise the old directory is back. |
| Agent.Directory.ExchangeDirsFallback | src/node_daemon.rs:1810-1847 | Succeeds if and only if both renames go through and the aside name can be freed: then the staged content is in place, the staging name free and the aside gone unless its removal fails; otherwise the live content is as it was. No other name is touched. |
| Agent.Directory.ExchangeDirs | src/node_daemon.rs:1748-1763 | Succeeds where the exchange works, swapping exactly the two; fails where it breaks, changing nothing; where it is unsupported, succeeds if and only if the fallback does. |
| Agent.Directory.SwapIn | src/node_daemon.rs:1461-1481 | The end of a restore: succeeds if and only if the exchange does, or, with no live directory, the rename; then the live name holds the archive exactly and the staging name is gone unless its removal fails; otherwise the live name is as it was, missing included. No other name is touched. |
| Agent.Directory.RestorePass | src/node_daemon.rs:1894-1927 | Whatever order the names come in, the pass yields the order-free result and counts the asides whose server is missing. |
| Agent.Directory.SweepPass | src/node_daemon.rs:1928-1953 | Each loop of the reclaiming pass drops what it collected, and nothing else, when no removal fails, and counts it. |
| Agent.Directory.ReclaimPass | src/node_daemon.rs:1928-1953 | The three loops together yield the order-free result and count what they drop. |
| Agent.Directory.RecoverStaleDirs | src/node_daemon.rs:1877-1955 | Whatever removals fail, recovery ends serving with every committed server in place; when none fails the directory is the recovered one and the count is that of the asides without a server and the entries dropped. |
| LifecycleProofs.StepKeeps | src/node_daemon.rs:426-645 | Every access by any thread keeps the ownership invariant of the shared fields. |
| LifecycleTheorems.AtMostOneChild | src/node_daemon.rs:440-576 | In every interleaving at most one process is alive, and a published pid, lease or writer is its own. |
| LifecycleTheorems.WaiterReleasesItsOwn | src/node_daemon.rs:578-605 | A waiter finds and releases its own child's network lease, stdin writer and pid, never a later one's. |
| LifecycleTheorems.LatchCleared | src/node_daemon.rs:748-769 | The stop latch comes off only by a restart's own step, when no process, lease or writer is left. |
| LifecycleTheorems.SuccessSpawned | src/node_daemon.rs:426-441 | In every run a start, restart or automatic restart that returns success has itself spawned the process it set up since it took the guard. |
| LifecycleTheorems.FirstStart | src/node_daemon.rs:440-576 | An undisturbed start of a server that is not running ends with the process running, everything published and the guard free. |
| LifecycleTheorems.RestartRuns | src/node_daemon.rs:748-769 | An undisturbed restart of a running server ends with the next process running under a new waiter and the latch clear. |
| LifecycleTheorems.AutoRestartRuns | src/node_daemon.rs:612-643 | So does an undisturbed automatic restart after an exit. |
| LifecycleTheorems.GivesUpExactly | src/node_daemon.rs:615-643 | A waiter makes at most ten attempts to start again, and gives up after a failed one only when it has made ten. |
| LifecycleTheorems.AttemptLooksFirst | src/node_daemon.rs:617-623 | Before each attempt it has found the latch clear and then no process published. |
| LifecycleTheorems.GuardAcquired | src/isolation.rs:22-34 | A thread inside the operation guard has acquired it. |
| LifecycleTheorems.GuardNeverLost | src/isolation.rs:22-34 | In every state of every run the guard is taken if and only if some thread is inside, so every way out releases it. |
| LifecycleTheorems.StopStays | src/node_daemon.rs:647-663 | After a stop has returned, with or without an error, nothing is spawned until a restart, begun after it, has cleared the latch, whatever starts and automatic restarts are pending. |
| LifecycleTheorems.ForeignCgroup | src/node_daemon.rs:596-603 | What a waiter takes as its cgroup belongs to another child if and only if, since it gave up the pid, a start stored a cgroup that no other waiter took. |
| LifecycleTheorems.StartSlipsIn | src/node_daemon.rs:596-603 | Wherever a waiter stands there with the guard free, that can happen to a process still alive. |
| LifecycleTheorems.ForeignCgroupReachable | src/node_daemon.rs:426-605 | And a server that never ran gets there: start, exit, second start. |
| Utf8.DecodeEncode | src/node_daemon.rs:2220-2241 | Decoding inverts encoding, for all scalar values. |
| Utf8.EncodeDecode | src/node_daemon.rs:2220-2241 | Encoding inverts decoding, for all well-formed bytes. |
| Utf8.ConcatDecode | src/node_daemon.rs:2227-2241 | Well-formed pieces decode separately. |
| Utf8.ValidPrefix | src/node_daemon.rs:2234-2248 | The part before a reported error is well-formed, and the error stands right behind it. |
| Utf8.BadExactly | src/node_daemon.rs:2243-2247 | A malformed front is replaced as far as it could still have become a character, and by one byte at least. |
| Utf8.HeadMeans | src/node_daemon.rs:2229-2254 | A whole front is some character's encoding, a cut one begins one, a malformed one begins none. |
| Utf8Carry.SeqLen | src/node_daemon.rs:2264-2271 | The announced length is 1 to 4 and the true one for every legal lead byte. |
| Utf8Carry.PushKeepable | src/node_daemon.rs:2205-2260 | On any bytes at all, what is carried is shorter than its lead byte announces. |
| Utf8Carry.PushIsScan | src/node_daemon.rs:2205-2260 | On text that can still become well-formed, a push is a scan of everything since the last character boundary. |
| Utf8Carry.ChunkingIsInvisible | src/node_daemon.rs:2197-2260 | Well-formed text, however cut into chunks, decodes as in one piece and leaves nothing pending. |
| Utf8Carry.PushCarried | src/node_daemon.rs:2197-2260 | On any bytes, what is carried starts with a legal lead byte and is shorter than it announces. |
| Utf8Carry.CarriedReachable | src/node_daemon.rs:2205-2260 | Every such carry is reached, malformed ones included. |
| Utf8Carry.CarryExactly | src/node_daemon.rs:2205-2260 | From any carry, when the announced bytes have arrived: a whole sequence is emitted and the push equals a scan; a malformed one is replaced by both, the push going on behind the announced bytes, the scan behind the malformed ones. |
| Utf8Carry.WaitingExactly | src/node_daemon.rs:2212-2219 | Before they have arrived the push emits nothing and keeps everything; a scan does the same if and only if nothing is malformed yet. |
| Utf8Carry.SwallowedExactly | src/node_daemon.rs:2205-2260 | From any carry and for any chunk, push and scan differ if and only if the carried sequence is malformed and either still waited for or dropped together with bytes that show. |
| Utf8Carry.ChunkingOnAnyBytes | src/node_daemon.rs:2205-2260 | On any bytes, chunking is invisible as long as no push does so. |
| Utf8Carry.CarrySwallows | src/node_daemon.rs:2205-2230 | A witness in which they do. |
| Utf8Carry.Carry.Complete | src/node_daemon.rs:2208-2226 | Completing a carried sequence uses exactly the bytes it needs, and waits, decodes or replaces. |
| Utf8Carry.Carry.ScanBytes | src/node_daemon.rs:2227-2259 | The scanning loop yields the specified text and carry. |
| Utf8Carry.Carry.PushBytes | src/node_daemon.rs:2205-2260 | On any bytes every index stays in range and the result is the specified push. |
| Envelope.OwnMarkerIsLast | src/node_protocol.rs:296-312 | However often the marker occurs in the payload, the tail block's own is the last. |
| Envelope.SignedExactly | src/node_protocol.rs:296-344 | Body and signature come out if and only if the input is valid UTF-8 and that body with its last brace replaced by the block for that signature and this nonce. |
| Envelope.MisaddressedExactly | src/node_protocol.rs:296-344 | The error comes out if and only if the tail block carries another quote-free nonce. |
| Envelope.BlockUnique | src/node_protocol.rs:296-344 | An input ends in at most one block. |
| Envelope.JoinSplit | src/node_protocol.rs:396-417 | Splitting into lines loses nothing. |
| Envelope.FooterExactly | src/node_protocol.rs:386-417 | The footer split yields archive and signature if and only if the input is that archive with that footer, for every archive. |
| Signing.CanonicalInjective | src/node_protocol.rs:61-78 | Canonical strings are equal if and only if the fields are, up to the method's case, given newline-free fields on both sides, or on one side with a newline-free hash. |
| Signing.NewlineConfuses | src/node_protocol.rs:61-78 | With a newline in a field of each they need not be. |
| Signing.UpperExactly | src/node_protocol.rs:61-78 | Methods are told apart up to the case of ASCII letters and no further. |
| Signing.WindowExact | src/node_protocol.rs:149-166 | Saturation notwithstanding, the window is 90 seconds either way, for all pairs of 64-bit instants. |
| Signing.DirectionsApart | src/node_protocol.rs:215-232 | No response string is that of a request inside the window. |
| Signing.HexRoundTrip | src/node_protocol.rs:245-262 | Hex decoding inverts hex encoding. |
| Signing.HexExactly | src/node_protocol.rs:168-188 | Exactly the strings of hex digits of even length decode, in either case, each to the bytes it spells. |
| Signing.RefusedExactly | src/node_protocol.rs:149-188 | Which refusal is given: outside the window, no proper node id, no hex, or another tag, in this order. |
| Signing.AcceptedExactly | src/node_protocol.rs:149-188 | A signature made for a newline-free request is accepted with any other if and only if that is the same request, in the window, from a proper node id. |
| Signing.NoReflection | src/node_protocol.rs:149-232 | A response's signature is never accepted on a request. |
| Signing.SignedResponseVerifies | src/node_protocol.rs:245-382 | What the agent signs, the panel verifies, payloads containing the marker included. |
| Signing.VerifiedExactly | src/node_protocol.rs:354-382 | A response verifies if and only if the tag in its one tail block is the tag of the body in front of it under this request's fields. |
| Signing.UnsignedExactly | src/node_protocol.rs:354-382 | A response counts as unsigned if and only if it is not text or ends in no block for any front, signature and nonce. |
| Signing.RejectedExactly | src/node_protocol.rs:354-382 | It is refused if and only if it ends in a block for another nonce, or in one for this nonce whose tag is not that of the body in front. |
| Seccomp.ReadBack | src/isolation.rs:712-717 | The eight-byte encoding reads back as the program that was written. |
| Seccomp.SeccompProgram | src/isolation.rs:704-732 | The emitted bytes are a whole number of instructions and load as the filter. |
| Seccomp.FilterDecides | src/isolation.rs:704-732 | Up to 255 entries, on every architecture and call, the filter halts and denies exactly foreign architectures and listed calls. |
| Seccomp.DistinctListsExactly | src/isolation.rs:724-730 | Lists of distinct numbers filter correctly if and only if they have at most 255 entries. |
| Seccomp.ShippedFilter | src/isolation.rs:681-732 | The shipped filter allows on x86_64 everything but the sixteen numbers listed, and answers all else with the permission error. |
| Base32.RoundTrip | src/auth.rs:358-395 | Decoding inverts encoding, for every byte sequence. |
| Base32.AlphabetInOrder | src/auth.rs:359-359 | Symbols are the letters of the alphabet of section 6 of RFC 4648 in its order, and lower case reads as upper. |
| Base32.GroupsBits | src/auth.rs:358-375 | Grouping into fives loses no bit and adds fewer than five zero bits. |
| Base32.ShiftIn | src/auth.rs:361-365 | Stale high bits in the 32-bit buffer never disturb the pending ones when bits are shifted in. |
| Base32.ShiftOut | src/auth.rs:366-369 | Nor when a group is taken out. |
| Base32.DrainSymbols | src/auth.rs:366-369 | The inner loop emits exactly the complete groups and leaves fewer than five bits pending. |
| Base32.Encode | src/auth.rs:358-375 | The buffer loop computes the grouping of the byte string's bits. |
| Base32.Decode | src/auth.rs:377-395 | The decoding loop computes the octets of the symbols' bits, or fails if and only if some symbol is unknown. |
| Base32.ForeignLetter | src/auth.rs:382-386 | A character outside the alphabet is accepted if and only if it lies beyond a byte and its low byte is an upper-case letter or digit of it, and then it is read as that one. |
| RateLimit.Limiter.Allow | src/auth.rs:570-607 | One call evicts the idle, refills and charges the bucket, and answers accordingly. |
| RateLimit.EvictionInvisible | src/auth.rs:583-607 | With a non-decreasing clock, evicting answers every call as never evicting would. |
| RateLimit.GrantsArePaid | src/auth.rs:581-607 | On any clock, with eviction, grants are paid from what the bucket held and every step of the clock forward. |
| RateLimit.ClockBound | src/auth.rs:581-607 | In any run from start-up on any clock, any stretch grants one key at most L + L*f/60, f being how far the clock went forward in it. |
| RateLimit.RateBound | src/auth.rs:581-607 | So with a non-decreasing clock any stretch spanning d seconds grants one key at most L + L*d/60. |
| RateLimit.ClockBackBreaksBound | src/auth.rs:599-601 | n swings of the clock within one minute give n + 1 grants at one per minute: all that the bound for any clock allows, and for n of at least 2 more than a minute's. |
| RateLimit.AllowedExactly | src/auth.rs:595-607 | A call is allowed if and only if a whole token is there. |
| RateLimit.RefillsExactly | src/auth.rs:595-601 | On a clock going forward a bucket gains exactly the rate, up to the limit; a new key starts full. |
| RateLimit.BurstExactly | src/auth.rs:595-607 | A new key may burst to the limit and not beyond. |
| RateLimit.SteadyNeverRefused | src/auth.rs:570-607 | A key whose calls are so far apart that each gap earns a token is never refused, whatever other keys do and whatever is evicted. |
| CrashBudget.Server.Consume | src/models.rs:748-774 | One crash opens or continues a burst and is granted while budget remains. |
| CrashBudget.Server.Reset | src/models.rs:788-799 | A reset ends the burst. |
| CrashBudget.ExpiredExactly | src/models.rs:755-758 | With whole-second truncation a window expires after 61 seconds, not 60. |
| CrashBudget.RunBound | src/models.rs:748-774 | A run without a burst to begin with, spanning T seconds, grants at most B*(T div 61 + 1) restarts. |
| CrashBudget.WindowGrantsExactly | src/models.rs:748-774 | From no burst, k crashes within one window are granted min(k, B) restarts. |
| CrashBudget.FreshBurst | src/models.rs:755-768 | A crash 61 seconds after the first of its burst, or with no legible start, begins a new burst with a full budget. |
| CrashBudget.MinuteBound | src/models.rs:748-774 | Any minute grants at most what the burst has left plus a fresh budget. |
| CrashBudget.MinuteBoundAnywhere | src/models.rs:748-774 | So at most twice the budget, anywhere in a run. |
| CrashBudget.OverlapExactly | src/models.rs:748-774 | Within a window, two crashes in sequence are granted, with what is left, exactly what was there; two that overlap one more, if and only if they are granted at all. |
| CrashBudget.ReadThenWrite | src/models.rs:748-774 | Read and write with nothing between are one consumption; a refund right behind puts the count back. |
| CrashBudget.LostUpdates | src/services/proc.rs:857-868 | In every interleaving of reads, writes and refunds within a window, restarts granted and not refunded are the growth of the count plus the gaps between what was read and what was overwritten; so they exceed what was left by at most the gaps. |
| CrashBudget.UndisturbedKeepsBudget | src/models.rs:738-774 | Without overlap there are no gaps, and what was left bounds the restarts. |
| CrashBudget.OverlapBound | src/models.rs:748-774 | In every interleaving of reads, writes and refunds over any number of windows, restarts granted and not refunded are at most B*(T div 61 + 1) plus what stale accesses brought back. |
| CrashBudget.RefundedRunBound | src/services/proc.rs:857-868 | Without overlap they are at most B*(T div 61 + 1), refunds included. |
| Placement.AvailableMeans | src/nodes.rs:122-144 | What is available is the part nearer to zero of the over-allocated, saturated limit, less what is used, negative limits and percentages included; the limit is the operator's, or else what is reported. |
| Placement.PickIsBest | src/nodes.rs:599-645 | The chosen node is eligible and none eligible scores lower; the choice fails if and only if no node is eligible. |
| Placement.PickIsFirst | src/nodes.rs:630-645 | Among equal scores the first listed wins. |
| Placement.ExpiryIsIdle | src/nodes.rs:580-594 | Dropping reservations past their time changes no sum. |
| Placement.Ledger.ExpireStale | src/nodes.rs:580-583 | Exactly the rows past their time go. |
| Placement.Ledger.PickNode | src/nodes.rs:599-645 | The filtering loop and the stable sort compute the choice. |
| Placement.Ledger.SelectForServer | src/nodes.rs:652-666 | The dry run chooses, claims nothing, and rolls its clean-up back when it fails. |
| Placement.Ledger.ReserveCapacity | src/nodes.rs:676-694 | A claim on the chosen node joins the table, or nothing does. |
| Placement.Ledger.Release | src/nodes.rs:698-706 | Exactly the row with that id goes, if it is there. |
| Placement.StepKeeps | src/nodes.rs:580-706 | Every claim, commit, roll-back, dry run, release and tick keeps each node's live reservations within its room, in the table and in an open transaction. |
| Placement.NeverOverbooked | src/nodes.rs:580-706 | So in every state of every run no node is overbooked, for memory and disk, whatever flags, drains, tags and scores do. |
| PlacementTheorems.OwedIsReserved | src/nodes.rs:586-594 | What the table counts against a node is what the node owes by the operations of the run. |
| PlacementTheorems.PromisesKept | src/nodes.rs:580-706 | In every run the sizes asked for by the claims a node was given, committed, not released and with claim time plus lifetime ahead, sum to at most its room, for memory and disk; so they would if the open transaction committed. |
| PlacementTheorems.AdmissionExactly | src/nodes.rs:599-645 | In every reachable state a request is refused if and only if every node is down, disabled, unschedulable, in maintenance, draining, elsewhere, lacking a tag, or without room beside what it owes; otherwise it gets such a node, and none that would do scores lower. |
| PlacementTheorems.ScoreWeighs | src/nodes.rs:631-639 | The score is a point per percent of processor and of memory in use and two per running server. |
| Placement.ReleaseUndoesClaim | src/nodes.rs:676-706 | Releasing a claim puts every node's sums back. |
| Placement.DryRunTells | src/nodes.rs:652-694 | A dry run followed by a claim at the same moment: both answer the same, successful or not, and the claim takes the node the dry run named. |
| Placement.DryRunLeavesChoice | src/nodes.rs:652-666 | And its own clean-up does not change that claim. |
| Allocations.ServerIndexImplied | src/db.rs:585-586 | The allocation invariant implies the unique index on servers. |
| Allocations.DeleteRowExactly | src/models.rs:2685-2701 | Deleting one row keeps the invariant if and only if the row is not a primary at that moment. |
| Allocations.MoveIndexExactly | src/models.rs:536-549 | The index lets a move through if and only if no other server holds one of the ports on the new node. |
| Allocations.StepKeeps | src/models.rs:2592-2713 | Every operation keeps the invariant: (node, port) unique, allocations on their server's node, exactly one primary where there are any, and the server's port that primary's or none. |
| Allocations.AlwaysConsistent | src/models.rs:2592-2713 | So it holds in every state of every run from empty tables, and the index on servers never has anything to refuse. |
| Allocations.PromotionSlipsIn | src/models.rs:2685-2701 | For every table and removable row, a promotion between check and deletion breaks it. |
| Allocations.Registry.CreateServer | src/models.rs:632-652 | A new server has a fresh id, the default node and no port. |
| Allocations.Registry.AddAllocation | src/models.rs:2592-2643 | Succeeds if and only if the port is in 1024 to 65535, the server exists and lives, and no other server holds the port there. Then a port it held keeps its row but for new notes, and a new one joins as primary if and only if it is the first, moving the server's port; otherwise nothing changes. |
| Allocations.Registry.SetPrimaryAllocation | src/models.rs:2648-2669 | Promotion demotes the server's other rows and moves its port, leaves all else alone, and fails only on a missing row. |
| Allocations.Registry.RemoveAllocation | src/models.rs:2685-2701 | Removes one row unless it is missing or primary. |
| Allocations.Registry.FreePorts | src/models.rs:2703-2713 | The server keeps no allocation and no port; all other rows stay as they are. |
| Allocations.Registry.DeleteServer | src/models.rs:801-811 | The same, and the server is marked deleted. |
| Allocations.Registry.SetServerNode | src/models.rs:536-549 | Puts the server and exactly its allocations on the new node, or changes nothing, the latter if and only if another server is in the way. |
| Backfill.BackfillPrimaryAllocations | src/db.rs:1174-1195 | On any table only the flags change, every server with allocations ends with one primary, on the server's port if any row is, and the lowest of the rows that tie. |
| Backfill.Elects | src/db.rs:1174-1195 | Exactly one primary per server with allocations. |
| Backfill.KeepsServerPort | src/db.rs:1178-1183 | A row on the server's port wins. |
| Backfill.ElectsLowest | src/db.rs:1178-1191 | Of the rows that tie, the lowest wins. |
| Backfill.UnchangedWhenConsistent | src/db.rs:1174-1195 | Consistent tables come through unchanged. |
| Subnets.MarkRange | src/isolation.rs:1436-1452 | Anchor and offsets mark exactly the indices that share the prefix's bits. |
| Subnets.LiveSubnets | src/isolation.rs:1401-1452 | The set collected is exactly what some interface marks. |
| Subnets.WideExactly | src/isolation.rs:1440-1452 | For prefixes 9 to 24 an address is in the network if and only if its index is marked. |
| Subnets.ClearExactly | src/isolation.rs:1401-1452 | An unmarked /30 is disjoint from an interface's whole network if and only if that network does not span 10/8 from an address outside it. |
| Subnets.MarkedMeets | src/isolation.rs:1436-1452 | An index is marked only if the network meets its /24. |
| Subnets.PickSubnet | src/isolation.rs:1466-1475 | The walk returns the first free index at or after the start, going round once, and fails if and only if all are used. |
| Subnets.PickUid | src/isolation.rs:247-256 | The same for user ids. |
| Subnets.IndexIsTail | src/isolation.rs:1389-1394 | The starting index is the fifth and sixth byte of the digest. |
| Subnets.AllocateSubnet | src/isolation.rs:1458-1461 | The /30 is the first free one at or after the digest's index, and disjoint from every reported interface's network but for those spanning 10/8 from outside; it fails if and only if every index is marked. |
| Capabilities.NameInjective | src/capability.rs:90-115 | No two capabilities share a name. |
| Capabilities.FindNamed | src/capability.rs:173-183 | Parsing inverts naming. |
| Capabilities.PresetLadder | src/capability.rs:226-269 | The presets are a ladder: a role holds exactly the capabilities on its rung or below. |
| Capabilities.PresetChain | src/capability.rs:226-269 | Each preset holds strictly more than the one below. |
| Capabilities.ViewerReads | src/capability.rs:226-243 | A viewer holds exactly the capabilities whose names end in .read, but for the list of team members. |
| Capabilities.NamedByCategory | src/capability.rs:118-136 | A capability's name is its category's, a dot, and the action. |
| Capabilities.CategoryMeans | src/capability.rs:438-467 | A bare category, singular or plural, or power, stands for every capability in it and nothing else. |
| Capabilities.VerbMeans | src/capability.rs:445-456 | A bare verb stands for that one power action. |
| Capabilities.TrimExactly | src/capability.rs:429-431 | Tokens lose all white space at both ends and nothing else. |
| Capabilities.ExpandLegacy | src/capability.rs:426-472 | The token loop yields everything if some token is a star, else the union of what the tokens stand for. |
| Capabilities.NamesExpand | src/capability.rs:371-382 | Expanding the names written for a set gives the set, for every set. |
| Capabilities.MintedExactly | src/capability.rs:334-344 | A checked grant is minted, preset and extras, if and only if these lie within the grantor's; otherwise the first offending capability in order is named. |
| Capabilities.SurvivesStorageExactly | src/capability.rs:376-420 | A grant survives storing and reading if and only if it holds its role's preset. |
| Capabilities.GrantsSurvive | src/capability.rs:317-420 | Every constructor makes one that does, reading included. |
| Capabilities.RewriteMeans | src/db.rs:1244-1275 | Reading a rewritten row grants exactly what its old tokens expand to, and its role is a preset if and only if that is one; corrupt rows are untouched; a second pass changes nothing. |
| Capabilities.ReadsFailClosed | src/capability.rs:391-420 | A corrupt cell adds nothing to the preset and an unknown role has none. |
| Capabilities.StarNeedsMigration | src/capability.rs:391-420 | A star on a live read adds nothing to the preset; rewritten, it grants everything. |
| Capabilities.NormalizeSubuserPermissions | src/db.rs:1244-1275 | Every row is rewritten in place, each by itself. |
| Squads.MostPermissive | src/models.rs:1135-1145 | The more permissive of two grants holds exactly the union, and is one of the two unless neither holds the other. |
| Squads.FoldRoles | src/models.rs:1546-1565 | The fold over squad rows holds exactly what some row's preset holds, and is absent if and only if there is no row. |
| Squads.RawServerGrant | src/models.rs:998-1027 | The resolved grant holds everything for root and owner, else exactly what the subuser row or some squad row holds; absent if and only if there is none of these. |
| Squads.OrderIrrelevant | src/models.rs:1546-1565 | The order of rows, and repetitions, do not matter. |
| Squads.MoreRowsGrantMore | src/models.rs:998-1027 | Another row anywhere takes nothing away. |
| Squads.Roster.ResolveAuthority | src/models.rs:1228-1256 | Root and creator hold everything, a member its role's preset, anyone else nothing. |
| Squads.Roster.AddSquadMember | src/models.rs:1341-1383 | Succeeds if and only if squad and user exist, there is no such member yet, and the role is within the actor's authority; then exactly that row is added, else nothing changes. |
| Squads.Roster.UpdateSquadMemberRole | src/models.rs:1385-1414 | Succeeds if and only if the member exists and the new role is within the actor's authority; then the row holds the role asked for, else nothing changes. |
| Squads.Roster.RemoveSquadMember | src/models.rs:1416-1449 | Succeeds if and only if the member exists and its role is within the actor's authority; then exactly that row goes, else nothing changes. |
| Squads.NoEscalation | src/models.rs:1341-1449 | Over any run by users neither root nor creator whose roles lie within C, every role exceeding C was there, unchanged, from the start. |
| Squads.NoEviction | src/models.rs:1416-1449 | The guard on removal by itself: nor is a member exceeding C removed, if nobody changes its role. |
| Squads.DemotionOpensRemoval | src/models.rs:1385-1449 | Whoever holds a row can bring any member down to that row's own role and then remove it. |
| Squads.EvictableExactly | src/models.rs:1385-1449 | Users neither root nor creator can get a member out, by some sequence of calls, if and only if one of them holds a row there; through the endpoints, if and only if one of them is a manager there. |
| Squads.EndpointNeedsManager | src/api/servers.rs:1854-1864 | Through the endpoints a change takes an actor who could have given any role, and stores the role asked for, never the empty one. |
| TlsPair.Folder.CleanupStaleStage | src/tls.rs:320-333 | Only leftover stage files go, and all of them unless the process dies. |
| TlsPair.Folder.Publish | src/tls.rs:255-297 | From a clean directory: the generated pair is published if valid, nothing is if not, and a crash leaves the old pair or the new certificate beside the old key. |
| TlsPair.Folder.EnsureMaterial | src/tls.rs:222-309 | A pair that is not text fails the call and a usable pair is served, nothing touched; otherwise as above, from any directory and any crash point. What is served parses, covers the names and belongs together; a generated pair that does is not refused. |
| TlsPair.NothingTornPublished | src/tls.rs:222-309 | Through any history of calls and crashes the published names hold what was there first or whole text of a validated pair. |
| TlsPair.AlwaysHeals | src/tls.rs:222-309 | From published text or nothing, after any history of calls and crashes, a call that lives long enough with a pair that parses, covers and matches is served such a pair, and the disk holds what is served. |
| TlsPair.UnreadableStays | src/tls.rs:233-236 | A pair that is not text fails every later call and stays; nothing else fails. |
| TlsPair.TextStays | src/tls.rs:222-309 | No history of calls and crashes leads there from text. |
| TlsPair.PairStays | src/tls.rs:231-252 | A served pair is served again for the same names, through any further calls. |

## Left out

- HTTP routing, handlers, sessions, the web interface and configuration: plumbing around the parts above.
- cgroups, namespaces, traffic control, systemd and bubblewrap: calls into the kernel and other programs.
- Provisioning and removing a server: not steps of the lifecycle or the directory machine, so a live directory appearing during a restore from elsewhere is not covered.
- Recovery renames and rollback renames that fail without a crash: they are taken to succeed.
- Memory ordering: accesses to the shared process fields are sequentially consistent.
- The signals sent by stop, exit codes, log lines and the displayed state: values stored and shown that no modelled step reads.
- Lifecycle liveness: that a stopped process ends is up to the kernel.
- SHA-256, HMAC, Argon2 and one-time password generation: function parameters or absent.
- JSON text: envelopes are bytes, stored permissions are lists of strings or corrupt.
- RFC 3339 text and float rounding: integer instants, exact rationals.
- The text of `ip` output: interfaces arrive as octets and a prefix. The masking of an index is modelled as clearing its low bits arithmetically.
- The database counters kept beside the token buckets for display.
- Signing: the replay cache of nonces and the streaming variants of signing are not modelled.
- Seccomp.SeccompProgram: words are little-endian, the native order of the only architecture let through.
- CrashBudget.RunBound: manual resets are not part of the run, and crashes come one at a time; refunds and overlaps are in OverlapBound.
- Placement.StepKeeps: reported capacity and limits are fixed for the run, sizes are not negative, each operation reads the clock once, and the overflow of adding 100 to a percentage near the largest integer is not modelled.
- Placement: node rows and their cascading deletion, heartbeats and the lifetime formula of a reservation.
- Allocations: notes edited by themselves, and the older migration that deduplicated ports.
- Squads: scoped API keys, which only intersect a grant, stored roles outside the known names, and squad deletion.
- Squads.NoEviction: supposes that nobody changes the member's role, since the code allows that; EvictableExactly is the exact statement.
- TlsPair: removal of a leftover stage file is taken to succeed, and file modes are not modelled.
- The rest of the schema ladder: mostly guarded statements without effect.
