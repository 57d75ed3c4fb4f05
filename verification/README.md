# A verified model of Reality Kernel

Reality Kernel compiles a policy into kernel maps, decides system calls against
them in BPF programs, and keeps a hash-chained, signed log of the decisions.
This project models the parts whose correctness no finite set of examples can
settle, and proves what each is for. `dafny verify dfyconfig.toml` checks
everything; each file is one module.

## What is modelled

**Network policy.** `NetPolicy` has the linear-scan meaning of a policy and the
compiler with its loops; `NetRefinement` proves that one longest-prefix lookup
in the compiled form gives the same action and rule id. `NetKernel` has the BPF
programs over the loaded maps (match, verdict, governance, cgroup walk);
`NetKernelRefinement` carries the result through to what a socket hook does and
reports, with both policy slots in one trie. `NetParse` builds rules from the parsed
file, NAT64 twins and stable profile ids included, and `PolicyDiff` shows what an
empty difference between two policies guarantees. Addresses are bit strings, most
significant bit first, and a prefix is the bits it fixes.

**Audit chain.** `AuditFrame` is what a batch hash covers, `AuditLines` the files
as lines, `AuditChain` the scan a writer makes when it opens a log and
verification, `AuditAgree` their agreement, and `AuditExact` exactly which logs
verification passes. `AuditTamper` says what a log that verifies proves. `AuditRecover` interrupts the setting aside of leftovers at any
step; `AuditOpen` opens directories of any contents. `AuditText`, `AuditWriter`
and `AuditLog` follow the writer through whole runs: append, seal, rotate, crash
of the process or the machine, reopen; `AuditUnsettled` shows that their condition
is exact. The hash is a parameter and is not assumed to be free of collisions:
what a head fixes is stated up to two given batches at one position whose framed
bytes have the same hash. Signature checking is a parameter; where it matters, a
check that succeeds means the holder of the key signed that hash (verification as in
section 5.1.7 of RFC 8032). The parsing of a line into header, trailer, record or
neither is a parameter, of which only the lines this writer renders are asked to
read back; `AuditExample` meets what is asked of all three with the real lengths of
keys and signatures.

**Pin sets.** `PinSets` is the replacement of pinned programs over three
directories, in single file-system steps with process death between any two.

**Event path.** `Layout`, `EventDecoder` and `EventBuilder` take a record from the
kernel's string-appending code to the validating decoder; `EventWire` has the wire
structures by byte offset and what the decoder makes of any bytes. `Pipeline` is the
drain thread, the channel, the worker and the loss accounting, in every interleaving
of their atomic operations; `PipelineRuns` follows the batches, and `PipelineStop`
says when a stop returns. `ProcTable` is
the process table under reuse of process ids.

**Walks and arithmetic.** `FileWalk` (protected subtrees), `CivilTime` (dates), and
`PortSuggest` and `PortLearn` (a profile learned from connections, within the
compiler's limits).

Where the source updates variables or files step by step the model does too:
methods with loops, and classes whose methods are proved against specification
functions. Where it can be interrupted, a state machine gives every step. In
`PinSets` and `AuditLog` the class that holds the code records the states it passes
and is proved to be a run of the machine, so that what holds over all runs holds of
the code. The threads of `Pipeline` are given by their machine alone; its class is
the loss accounting one step of the worker performs.

## When the log is safe

Opening a log makes the newest segment durable only if it cuts something off it
(`rk-audit/src/chain.rs:527-529`, `rk-audit/src/chain.rs:561-565`). A segment that
reads as sealed may still be in memory only: its writer died between writing a
trailer and the sync, or an earlier opening died between the cut and its sync. If
the next writer continues from such a segment and the machine then stops, the
older segment can lose its last trailer or get back what was cut off, and
verification fails from then on. So the promise that a log always verifies holds
of the runs in which a writer continues from a segment with batches only once it
is on disk (`Settled`), which `OpenLogVerifies` proves, and of no others:
`UnsettledBreaks` gives every other step a continuation that fails, and
`UnsettledHappens` is such a step. A writer that stops between two calls leaves
nothing to settle, however little of its open batch was on disk
(`OpenCrashOnDisk`), and `Log.Reopen` goes through that case. The runs also end
before a batch takes the last 64-bit number.

What recovery sets aside is the open batch of a dead writer, and that was never
synced. Nor is the header of a segment before its first seal
(`rk-audit/src/chain.rs:405-413`), or a trailer before its own sync. If only the process
can stop, interrupting recovery changes nothing. If the machine can, `SameExactly` says
that the head and the sealed segment stay the same exactly if the trusted bytes were
durable when recovery began, and `SavedExactly` that the leftovers always end up in a
durable file exactly if they were; `TrustedLost` and `LeftoversLost` are the runs that
lose them.

## Where the code and its comments differ

A comment at `rk-audit/src/chain.rs:393-395` says a segment of the name about to be
started holds only a header. That is so unless sequence numbers wrap at 2^64
(`rk-audit/src/chain.rs:497-500`); the model follows the code, `WrapMeetsBatches` is
the exception and `Directory.Open` states exactly when batches stay.
`rk-sensor/src/pins.rs:117` promises never to delete the only set that holds links;
`LinksLostExactly` says when reconcile does, `SurvivorMayLoseLinks` gives both
shapes, and `AlwaysProtected` shows that no run from a live set reaches either. The
process table says `unavailable` rather than naming another process
(`rk-sensor/src/proctable.rs:13-15`). It can name another: `NamesTheActor` says
exactly when the process named is the one that decided, `StaleEntryMisnames` is the
case of an entry left from an earlier holder of the process id, and
`UnreadableStartMisnames` that of a start time that cannot be read.
A comment at `rk-sensor/src/consumer.rs:225-226` says the final drain is bounded, or a
busy host could keep it going forever. The deadline is that of a pass that began with
the stop flag set, and `StopReturns` bounds that one. A pass already under way when
the stop is asked has none: it lasts exactly until it finds the ring empty
(`PassLastsExactly`), and `BusyPass` is a host that never lets it.

## Model

| member | source | states |
|---|---|---|
| NetPolicy.Best | rk-policy/src/net.rs:1084-1110 | the deciding rule of an action: it matches, no other match has a longer prefix or the same length and an earlier place, and none means no rule matches |
| NetPolicy.FindProfile | rk-policy/src/net.rs:479-484 | finds a profile with the id, and none only if there is none |
| NetPolicy.Longest | rk-policy/src/net.rs:1344-1372 | the entry of a profile with the longest prefix containing the address, none only if no entry contains it |
| NetPolicy.GroupRules | rk-policy/src/net.rs:1282-1299 | the grouping loop yields one group per prefix, in first-seen order, with its members in file order |
| NetPolicy.BuildRanges | rk-policy/src/net.rs:1300-1317 | the range-building loops yield exactly the port ranges of the given rules, in order, that no earlier one covers: none of the result is covered by an earlier one of it, and each range is in it or covered by one before it |
| NetPolicy.CoversExactly | rk-policy/src/net.rs:1132-1136 | a range covers another exactly if whatever matches the other matches it |
| NetPolicy.FlattenIsUncovered | rk-policy/src/net.rs:1300-1317 | dropping a range against those kept so far keeps exactly those that no range before them covers, kept or not |
| NetPolicy.CompileTrie | rk-policy/src/net.rs:1282-1342 | the trie of one action of a profile, or the error of the first entry over 8 ranges |
| NetPolicy.CompileProfile | rk-policy/src/net.rs:1219-1245 | compiles exactly if every prefix of the rules of either action needs at most 8 ranges, those no earlier one covers; then the header is added and each trie gets one entry for each distinct prefix of that action, in first-seen order, with the ranges it needs; otherwise the error names the profile, the action, denies first, and the first such prefix with its count |
| NetPolicy.Compile | rk-policy/src/net.rs:1207-1260 | refuses generation 0, otherwise compiles every profile in order |
| NetPolicy.GroupNetsDistinct | rk-policy/src/net.rs:1282-1299 | groups have distinct prefixes, exactly those of the rules of the action |
| NetPolicy.OrderedContents | rk-policy/src/net.rs:1300-1310 | the groups flattened into an entry are its own and exactly the ones whose prefix covers it |
| NetPolicy.SortContents | rk-policy/src/net.rs:1300-1310 | sorting covering groups by length loses and adds none |
| NetRefinement.FirstHitAddRange | rk-policy/src/net.rs:1132-1136 | dropping a range that an earlier one covers never changes the first range a packet hits |
| NetRefinement.FlattenKeepsFirst | rk-policy/src/net.rs:1300-1317 | the first range hit in a flattened entry is that of the first rule, in priority order, whose service matches |
| NetRefinement.OrderedLongestFirst | rk-policy/src/net.rs:1300-1310 | an entry lists its covering groups longest prefix first |
| NetRefinement.FirstIsBest | rk-policy/src/net.rs:1084-1110 | the first service match among the rules that contain the address, in priority order, is the deciding rule |
| NetRefinement.LongestEntryAnswers | rk-policy/src/net.rs:1300-1342 | the entry with the longest prefix alone answers with the id of the deciding rule, or with no match |
| NetRefinement.TrieMatchAnswers | rk-policy/src/net.rs:1346-1372 | one longest-prefix lookup gives the deciding rule of the action |
| NetRefinement.CompiledFindsGroup | rk-policy/src/net.rs:1207-1260 | in the compiled form of several profiles the longest entry of a profile is that of its own longest group |
| NetRefinement.CompiledHeaders | rk-policy/src/net.rs:1219-1245 | there is one compiled header per profile, in order, with its id, mode and default, and the generation |
| NetRefinement.LookupRefinesEvaluate | rk-policy/src/net.rs:1346-1372 | main: for every policy that compiles, every profile, address, port and protocol bit, the compiled lookup gives the same action and rule id as the linear scan |
| NetKernel.ScopeBitsInjective | rk-bpf/include/rk_abi.h:219-245 | the 32 scope bits before the address tell scopes apart |
| NetKernel.NetMatch | rk-bpf/src/net.bpf.c:51-71 | the 8-iteration range loop over one longest-prefix lookup returns the first range that hits, and leaves the rule id alone when none does |
| NetKernel.GovernedBinding | rk-bpf/src/common.bpf.h:188-219 | the bitmask-guided walk returns the nearest bound cgroup among its own and its ancestors at those of levels 1 to 16 that are in the mask, and ungoverned only when there is none |
| NetKernel.Govern | rk-bpf/src/common.bpf.h:227-272 | governance is that of the nearest bound cgroup under the active slot, and none exactly if none is bound |
| NetKernelRefinement.TrieKeyInjective | rk-sensor/src/policy.rs:1764-1772 | slot, profile and prefix can be read back from a trie key |
| NetKernelRefinement.UsedIsAll | rk-sensor/src/policy.rs:1774-1787 | a trie value holds every range of an entry of at most 8 |
| NetKernelRefinement.BothSlotsHold | rk-sensor/src/policy.rs:1764-1787 | one trie loaded with both slots holds each slot entry unharmed and nothing else |
| NetKernelRefinement.CompiledWritable | rk-policy/src/net.rs:1318-1333 | every compiled entry fits its key and its 8 ranges, so the kernel loop misses none |
| NetKernelRefinement.CompiledDistinct | rk-policy/src/net.rs:1282-1342 | compiled entries have distinct keys |
| NetKernelRefinement.EntryIsProfile | rk-sensor/src/policy.rs:1475-1500 | what the compiled form gives the profile table carries the mode, default and generation of the profile, and is unused for any other |
| NetKernelRefinement.LpmIsLongest | rk-bpf/src/net.bpf.c:51-58 | the kernel lookup under a scope finds the longest entry of that slot and profile |
| NetKernelRefinement.MatchIsTrieMatch | rk-bpf/src/net.bpf.c:51-71 | with both slots in one trie a match under a scope is the match of that slot and profile alone |
| NetKernelRefinement.FailClosedMatchesNothing | rk-bpf/src/common.bpf.h:227-272 | the fail-closed scope matches no entry |
| NetKernelRefinement.FailClosedVerdict | rk-bpf/src/common.bpf.h:227-272 | under the fail-closed scope with a deny default the verdict is deny by the default |
| NetKernelRefinement.NoSuchProfile | rk-bpf/src/common.bpf.h:227-272 | a binding to a profile the slot does not hold is refused |
| NetKernelRefinement.VerdictIsEvaluate | rk-bpf/src/net.bpf.c:73-88 | main: for a governed task the kernel verdict, rule id included, is the linear scan of the profile of the active slot; no other slot or profile influences it |
| NetKernelRefinement.SockAddr | rk-bpf/src/net.bpf.c:116-153 | main: a task passes unreported exactly if no cgroup the walk reaches is bound; otherwise it passes or is blocked, and reported with verdict and rule id, as the linear scan of the active slot asks for the profile bound at its nearest bound cgroup: audit never blocks, enforce blocks a denial or anything on a stale heartbeat |
| NetParse.BuildRules | rk-policy/src/net.rs:702-735 | the rule-building loops give every entry of the section its rule, in order and numbered in turn: entries of included lists and denies deny, allows allow; before a deny rule in the mapped space comes its NAT64 twin under the same id, exactly if equivalence is on |
| NetParse.TwinContains | rk-policy/src/net.rs:619-626 | a twin prefix contains an embedded IPv4 destination exactly if the rule contains the mapped one (sections 2.1 and 2.2 of RFC 6052) |
| NetParse.TwinPresent | rk-policy/src/net.rs:702-735 | every deny rule inside the mapped space has its twin among the rules |
| NetParse.Nat64Denied | rk-policy/src/net.rs:1084-1118 | whenever such a deny rule matches an IPv4 destination the embedded destination is denied by the linear scan |
| NetParse.Nat64DeniedCompiled | rk-policy/src/net.rs:1346-1372 | and by the compiled lookup |
| NetParse.ProfileIds.constructor | rk-policy/src/net.rs:528-532 | no name has an id yet |
| NetParse.ProfileIds.Id | rk-policy/src/net.rs:533-549 | an id once given stays, ids are distinct and below the limit, a new name takes one, and is refused exactly when none is left |
| NetParse.ParseProfile | rk-policy/src/net.rs:676-735 | one profile built under its stable id with its rules, numbered from the next free rule id; refused exactly if its name is reserved or malformed, or is new and no id is left, each with its own error and nothing changed |
| NetParse.ParseSections | rk-policy/src/net.rs:676-735 | the sections in order, rule ids running on from one to the next from 1; refused exactly if some name is, or if the new names are more than the ids left |
| NetParse.ParseProfiles | rk-policy/src/net.rs:676-833 | the whole policy: every profile as its file says, the quarantine profile last, ids distinct, earlier ids unchanged; rules share an id only as a deny rule and its NAT64 twin in one profile, and none has id 0; refused exactly if some name is reserved or malformed, or if the new names, the quarantine profile among them, are more than the ids left |
| NetParse.SameIdOneEntry | rk-policy/src/net.rs:519-521 | a rule id leads back to one entry of one section |
| NetParse.DistinctFromNames | rk-policy/src/net.rs:528-549 | distinct names get distinct ids |
| PolicyDiff.DecimalInjective | rk-policy/src/net.rs:1378-1393 | decimal rendering is injective |
| PolicyDiff.FaithfulIsMet | rk-policy/src/net.rs:1437-1454 | a rendering of prefixes that is injective and without spaces exists |
| PolicyDiff.PortListInjective | rk-policy/src/net.rs:1378-1393 | the rendering of a port list is injective |
| PolicyDiff.RuleLineInjective | rk-policy/src/net.rs:1437-1454 | the line of a rule determines its action, prefix, ports and protocols |
| PolicyDiff.SameDefault | rk-policy/src/net.rs:1437-1454 | equal descriptions have equal network defaults |
| PolicyDiff.SameSettings | rk-policy/src/net.rs:1437-1454 | equal descriptions have the same mode and raw-socket setting |
| PolicyDiff.SameAction | rk-policy/src/net.rs:1084-1118 | profiles with equal descriptions give the same action for every query, whatever the order and ids of their rules |
| PolicyDiff.DiffName | rk-policy/src/net.rs:1503-1518 | the lines under one name: the profile if one side lacks it, then each line gone, once, as `-`, then each new one as `+` |
| PolicyDiff.Diff | rk-policy/src/net.rs:1493-1518 | name by name, each once: a profile new on one side as `+`, gone as `-`, lines only in the old description as `-`, only in the new as `+`; empty exactly if every name has equal descriptions on both sides |
| PolicyDiff.EmptyDiffSameAction | rk-policy/src/net.rs:1493-1518 | main: after an empty difference same-named profiles exist on both sides, have the same mode and raw-socket setting, and act alike on every query |
| CivilTime.CivilFollowsCalendar | rk-audit/src/tail.rs:44-53 | day 0 is 1 January 1970, every date is valid, and the next day number is the next date of the Gregorian calendar |
| CivilTime.DayNumberOfCivil | rk-audit/src/tail.rs:44-53 | counting days by calendar years and months gives the day number back |
| CivilTime.CivilOfDayNumber | rk-audit/src/tail.rs:44-53 | every valid date is the date of its day number |
| CivilTime.DayNumberMonotone | rk-audit/src/tail.rs:44-53 | an earlier date has a smaller day number |
| CivilTime.FormatTimeExact | rk-audit/src/tail.rs:38-59 | main: every millisecond value becomes a valid date and time that denotes that very instant |
| CivilTime.FormatTimeUnique | rk-audit/src/tail.rs:38-59 | and no other valid date and time does |
| CivilTime.FormatTimeMonotone | rk-audit/src/tail.rs:38-59 | a later instant never gives an earlier tuple |
| FileWalk.VisibleIsAll | rk-bpf/src/file.bpf.c:58-80 | with inodes everywhere the walk sees every ancestor |
| FileWalk.Walk | rk-bpf/src/file.bpf.c:58-90 | the bounded loop is the bounded walk over the visible ancestors |
| FileWalk.WalkAllows | rk-bpf/src/file.bpf.c:58-90 | the walk allows exactly when no ancestor has a matching subtree rule and it had steps left, and runs out of steps exactly when there are as many ancestors and none of those it reached has one |
| FileWalk.WalkFindsNearest | rk-bpf/src/file.bpf.c:58-90 | a walk that denies names the rule of the nearest covered directory |
| FileWalk.Decide | rk-bpf/src/file.bpf.c:33-100 | an access is allowed exactly if no rule forbids it and fewer than 32 directories lie above; a denial names the rule of the object, or else that of the nearest covered directory; it is for depth exactly if the object has no rule, 32 directories or more lie above and the nearest 32 have none |
| FileWalk.DeniesExactly | rk-bpf/src/file.bpf.c:33-100 | main: refused exactly if the object has a matching rule, an ancestor at any depth has a matching subtree rule, or there are 32 ancestors or more; out of steps only in the last case; a rule named is the object's or the nearest |
| FileWalk.FileCheck | rk-bpf/src/file.bpf.c:33-128 | enforcing, a hook blocks everything on a stale heartbeat and otherwise exactly what a rule forbids or what lies 32 directories deep or more; not enforcing, nothing |
| FileWalk.RenameCheck | rk-bpf/src/file.bpf.c:220-248 | enforcing, a rename is blocked exactly on a stale heartbeat, or if a rule on the object itself or on a directory above it, or depth, stops renaming what moves, deleting or renaming what it replaces, or creating in the receiving directory; not enforcing, never |
| FileWalk.SubtreeRefused | rk-bpf/src/file.bpf.c:33-100 | everything below a protected directory is refused, at any depth |
| FileWalk.RenameCannotEscape | rk-bpf/src/file.bpf.c:210-248 | no rename takes an object from under a subtree rule against renames, puts one into a subtree protected against creation, the protected directory itself included, or replaces one under a subtree rule against deletion or renames: the check blocks it |
| PortSuggest.PortRanges | rk-cli/src/suggest.rs:348-357 | exactly the observed ports, as sorted, disjoint, non-adjacent ranges |
| PortSuggest.CanonicalUnique | rk-cli/src/suggest.rs:348-357 | there is only one such list for a set of ports |
| PortSuggest.GroupByPlace | rk-cli/src/suggest.rs:407-430 | the grouping loop holds exactly the ports seen per place and protocol |
| PortSuggest.LearnOne | rk-cli/src/suggest.rs:430-474 | keeps a leading part of the ranges within what is left, and drops only when that is used up |
| PortSuggest.Learn | rk-cli/src/suggest.rs:430-474 | each destination keeps at most 8 ranges over all its protocols, and a range is dropped only when they are used up |
| PortSuggest.KeptAndDropped | rk-cli/src/suggest.rs:430-474 | kept and dropped ranges partition the observed ports, the kept ones below the dropped |
| PortSuggest.PlacesAreUnmapped | rk-audit/src/ocsf.rs:322-325 | the address a record names is never IPv4-mapped, and is the one connected to |
| PortSuggest.LoopbackIs | rk-cli/src/suggest.rs:409-415 | the addresses grouped as loopback are those whose first byte is 127 |
| PortSuggest.NoCovering | rk-policy/src/net.rs:1300-1310 | two such places never cover one another |
| PortSuggest.LearnedEntryFits | rk-policy/src/net.rs:1318-1333 | an entry compiled from learned rules has at most 8 ranges |
| PortSuggest.LearnedRulesCompile | rk-policy/src/net.rs:1282-1342 | main: learned rules alone never exceed the compiler limit |
| PortLearn.ListGroups | rk-cli/src/suggest.rs:438-439 | the groups as a list, each once |
| PortLearn.AllowedWasMade | rk-cli/src/suggest.rs:420-474 | a learned rule matches only what was seen: its ranges are never widened |
| PortLearn.MadeIsAllowed | rk-cli/src/suggest.rs:407-474 | what was seen matches a learned rule, or its place has all 8 ranges |
| PortLearn.Suggest | rk-cli/src/suggest.rs:395-474 | main: from any connections, through the audit records, the grouping, the range budget and the rules: the profile compiles, allows only what was seen, and allows all that was seen but at a place that already has all 8 ranges |
| EventDecoder.SplitStr | rk-sensor/src/decoder.rs:202-213 | takes a string off the front, and the rest is shorter |
| EventDecoder.Validate | rk-sensor/src/decoder.rs:166-181 | accepts a string area exactly if it is the announced number of strings and nothing else |
| EventDecoder.StringIter.Next | rk-sensor/src/decoder.rs:183-199 | yields the strings of the area one by one, and ends only when there is none |
| EventDecoder.EncodedStringsRead | rk-sensor/src/decoder.rs:157-209 | encoded strings validate and read back |
| EventDecoder.ValidTailIsEncoding | rk-sensor/src/decoder.rs:157-209 | an area that validates is the encoding of the strings read from it |
| EventDecoder.DecodeOfEncode | rk-sensor/src/decoder.rs:230-325 | decoding an encoded record of a string-carrying type gives its header, body and strings |
| EventDecoder.EncodeOfDecode | rk-sensor/src/decoder.rs:230-325 | main: an accepted record of a string-carrying type re-encodes to the same bytes |
| EventWire.UnpackIsRead | rk-bpf/include/rk_abi.h:75-87 | reading a structure reads each field at its offset |
| EventWire.HeaderReads | rk-bpf/include/rk_abi.h:75-96 | the header is its fields at offsets 0 to 44, with the type at 40, the verdict at byte 42 and the version at byte 43 |
| EventWire.PayloadDecodes | rk-sensor/src/decoder.rs:269-322 | by event type and byte offset: connect and sendmsg are 40 bytes, socket creation 16, tun 8 and tamper 16, read field by field, any other length refused as too short or with what is left over; exec, file open and file deny are 24, 32 and 32 bytes and then exactly as many strings as their count says, or refused as malformed or with what is left over; four types are raw and every other is unknown |
| EventWire.DecodeMeans | rk-sensor/src/decoder.rs:230-325 | main: any bytes are refused with the error of the first check that fails, version 2, zero reserved word, length at most 2048 and as stated, verdict at most 2, or decode to the header fields and the payload of their type |
| EventWire.DecodeOfFixed | rk-sensor/src/decoder.rs:282-311 | a structure of a type without strings packed under a valid header decodes to exactly that header and its values |
| EventWire.FixedOfDecode | rk-sensor/src/decoder.rs:282-311 | an accepted record of such a type is the packing of what it decodes to |
| EventBuilder.Scratch.AppendKstr | rk-bpf/src/common.bpf.h:374-408 | appends the length-prefixed part of a kernel string that fits, and nothing when three bytes are not left |
| EventBuilder.Scratch.AppendUblob | rk-bpf/src/common.bpf.h:414-455 | appends the part of user memory that fits and could be read, and says whether it was cut or unreadable |
| EventBuilder.Scratch.Emit | rk-bpf/src/common.bpf.h:460-476 | what is emitted is the envelope and the payload built so far, no mask having changed its length |
| EventBuilder.BuiltDecodes | rk-sensor/src/decoder.rs:230-325 | a payload built as body and strings, within 2048 bytes, decodes to them |
| EventBuilder.ExecDecision | rk-bpf/src/exec.bpf.c:105-121 | main: for any file name the decision record decodes to its header, device, inode, the decision flag and, for a file without links, that flag, and the first 255 bytes of the name |
| EventBuilder.ExecRecord | rk-bpf/src/exec.bpf.c:151-199 | main: for any file name and argument area the exec record decodes to its header, device, inode, the first 255 bytes of the name and the arguments, all that fits into 2048 bytes or none if that cannot be read; the flags say which, and whether the file has no link |
| EventBuilder.FileDeny | rk-bpf/src/file.bpf.c:101-122 | main: for any name, or none, the denial record decodes to its header, device, inode, access, hook and flags, and the first 255 bytes of the name |
| Layout.UnpackOfPack | rk-sensor/src/decoder.rs:217-228 | fixed bodies read back |
| Layout.PackOfUnpack | rk-sensor/src/decoder.rs:217-228 | and every body of the right size is one |
| PinSets.StepKeepsInv | rk-sensor/src/pins.rs:130-195 | every file-system step and every death of the process keeps the directory states between and around the two renames |
| PinSets.AlwaysProtected | rk-sensor/src/pins.rs:130-195 | main: from a live pin set, in every state of every run, some whole pin set holding links exists |
| PinSets.BuildingIsNotReady | rk-sensor/src/pins.rs:171-195 | in every run a set being built does not count as whole |
| PinSets.ReplacementHappens | rk-sensor/src/pins.rs:130-185 | there is a run from one whole set to another, alone at `root` |
| PinSets.NeverStuck | rk-sensor/src/pins.rs:130-195 | no rename ever meets a taken name and nothing that must exist is missing |
| PinSets.SurvivorIsWhole | rk-sensor/src/pins.rs:130-169 | in every state of every run a reconcile that completes keeps a whole set |
| PinSets.SurvivorKeepsLinks | rk-sensor/src/pins.rs:110-169 | from any directories reconcile keeps one of the sets it finds; it holds links exactly if `root` or `-next` does, or `-old` does and is alone |
| PinSets.LinksLostExactly | rk-sensor/src/pins.rs:110-169 | the only links are lost exactly if they are in `-old` beside a linkless `root` or `-next`; no run from a live set gets there |
| PinSets.SurvivorMayLoseLinks | rk-sensor/src/pins.rs:130-169 | a linked `-old` loses its links beside a linkless `root`, and beside a linkless `-next` without a `root` |
| PinSets.PinStore.ReconcileDirs | rk-sensor/src/pins.rs:130-169 | from any directories: afterwards at most `root` exists and it is the survivor; what it reports says exactly which sets it found and which one it kept; every state passed is a state of the run |
| PinSets.PinStore.SettlePrior | rk-sensor/src/pins.rs:134-148 | the first half of reconcile: an interrupted switch is completed, or undone if only `-old` is left, and it says which |
| PinSets.PinStore.SettleNext | rk-sensor/src/pins.rs:149-168 | the second half: at most one of `root` and `-next` is left, at `root`, the one with links if either has any, and it says which was dropped |
| PinSets.PinStore.FinishReplacement | rk-sensor/src/pins.rs:177-185 | afterwards only the new set exists, at `root` |
| PinSets.PinStore.AbortReplacement | rk-sensor/src/pins.rs:189-195 | afterwards the new set is gone and the old one untouched |
| PinSets.PinStore.RemovePrior | rk-sensor/src/pins.rs:139-141 | removal entry by entry, any order, then the directory; nothing else changes |
| Pipeline.Observer.constructor | rk-sensor/src/observe.rs:95-112 | the counters at the start are the baseline |
| Pipeline.Observer.RecordLosses | rk-sensor/src/observe.rs:227-250 | the loss records then account for exactly what each counter gained since it was last recorded, nothing is recorded when neither did, and counters that never go back are recorded as they are |
| Pipeline.RecordedAgrees | rk-sensor/src/observe.rs:227-250 | the channel losses stated grow by exactly the advance of the counter |
| Pipeline.DrainMovesLine | rk-sensor/src/consumer.rs:196-243 | each step of the drain thread leaves the line of records as it is, appends the record just read, or hands a refused batch to the lost ones |
| Pipeline.WorkerKeepsLine | rk-sensor/src/consumer.rs:252-279 | each step of the worker leaves the line of records as it is |
| Pipeline.StepKeepsInv | rk-sensor/src/consumer.rs:196-279 | every step of either thread keeps every record in exactly one place, in ring order, and the counters exact |
| Pipeline.Conserved | rk-sensor/src/consumer.rs:196-279 | main: in every interleaving, drained = handled + dropped + in flight |
| Pipeline.HandledInOrder | rk-sensor/src/consumer.rs:252-279 | records are handled in ring order, each at most once; the worker gives records up only after a stop, and then only after all it handled; the channel stays within its capacity |
| Pipeline.StoppedAccountsForAll | rk-sensor/src/observe.rs:268-298 | main: once both threads ended nothing is in flight, each record read was handled or lost and not both, and with every loss record written the channel losses stated sum to the drops since the baseline |
| Pipeline.WorkerStepsDescend | rk-sensor/src/consumer.rs:302-326 | with the drain thread gone each worker step leaves less work |
| Pipeline.WorkerNeverStuck | rk-sensor/src/consumer.rs:302-326 | and there always is one until it stops |
| PipelineStop.DrainEnds | rk-sensor/src/consumer.rs:222-243 | once the deadline of the stopping pass has passed the drain thread takes at most 516 more steps, whatever the kernel writes |
| PipelineStop.WorkerEnds | rk-sensor/src/consumer.rs:252-279 | once the drain thread has ended the worker takes at most as many steps as there is work left |
| PipelineStop.StopReturns | rk-sensor/src/consumer.rs:302-326 | main: in every run, from that deadline on, both threads end within those bounds, and until then the one the stop waits for always has a step |
| PipelineStop.PassLastsExactly | rk-sensor/src/consumer.rs:222-240 | a pass that began before the flag was seen goes on exactly as long as it has not found the ring empty |
| PipelineStop.BusyPass | rk-sensor/src/consumer.rs:222-240 | so for every number there is a run in which a stop is asked and the pass under way takes that many more steps |
| PipelineRuns.BatchesSized | rk-sensor/src/consumer.rs:227-240 | in every run no batch is empty or over 512 records, and only the last of a pass is smaller |
| PipelineRuns.RefusedExactlyIfFull | rk-sensor/src/consumer.rs:196-205 | in every run a batch is refused exactly if the channel is full when it is sent, and otherwise queued last |
| PipelineRuns.TicksBetweenBatches | rk-sensor/src/consumer.rs:252-279 | between handling one batch and receiving the next the worker reads both counters and states what was lost |
| PipelineRuns.StopsOnlyIfAsked | rk-sensor/src/consumer.rs:219-226 | in every run a stopping pass is under way only if a stop was asked |
| PipelineRuns.StopCanBeSeen | rk-sensor/src/consumer.rs:219-226 | and with the flag set a waiting thread can begin one |
| PipelineRuns.StopReadsRing | rk-sensor/src/consumer.rs:219-243 | main: in every run what is in the ring before the drain thread sees a stop has been read when it ends, unless the deadline came first or its wait failed |
| ProcTable.HolderActed | rk-sensor/src/proctable.rs:157-162 | the holder procfs shows started no later than an event, as start times read, exactly if it caused it |
| ProcTable.SameTickSameProcess | rk-sensor/src/proctable.rs:164-168 | equal start times of one tgid mean one process |
| ProcTable.ActorIsLast | rk-sensor/src/proctable.rs:157-162 | of the processes of a tgid started by the decision the one that decided is exactly the last |
| ProcTable.PutKeeps | rk-sensor/src/proctable.rs:134-149 | a put stays within the capacity, finds the new entry, and loses at most the entry used longest ago, only when full |
| ProcTable.TouchKeeps | rk-sensor/src/proctable.rs:164-164 | a lookup reorders and loses nothing |
| ProcTable.TouchIs | rk-sensor/src/proctable.rs:164-164 | it moves the entry found to the front and leaves the others in their order |
| ProcTable.EntryExactly | rk-sensor/src/proctable.rs:164-181 | an entry is used exactly if it is known to be of a process that had started by the decision, and procfs shows nobody, that process, or one that started after the decision |
| ProcTable.UsableNames | rk-sensor/src/proctable.rs:164-181 | an entry that is used names the live process when that one decided, and otherwise one that started no later than the decision; its parent likewise |
| ProcTable.NamesTheActor | rk-sensor/src/proctable.rs:153-222 | main: what is named always is a process of the tgid that ran the executable; it is the process that decided if the live one shows a start time no later than the decision, and in general exactly if, for a table entry, no process took the tgid over between its start and the decision, or, for the live process, it started by then |
| ProcTable.UnreadableStartMisnames | rk-sensor/src/proctable.rs:157-162 | without a readable start time the present holder is named for a decision made before it started, by an executable the process that decided never ran |
| ProcTable.StaleEntryMisnames | rk-sensor/src/proctable.rs:164-181 | with every start time readable an older entry names an executable the process that decided never ran, whether that process is gone or another holds the tgid |
| ProcTable.Table.constructor | rk-sensor/src/proctable.rs:98-105 | empty, with room for at least one entry |
| ProcTable.Table.RecordExec | rk-sensor/src/proctable.rs:134-149 | the entry of the tgid is the exec, with a start time exactly if procfs showed the process that made it; it is the most recent, and of the others at most the one used longest ago goes, when the table is full of them |
| ProcTable.Table.Lookup | rk-sensor/src/proctable.rs:153-222 | in terms of the processes: if the entry is of one that had started by the decision and procfs shows nobody, that one, or a later one, the answer is the entry, and its parent that of procfs the first time it is shown; otherwise, if procfs shows one that had started by then or cannot tell, and its link can be read, the answer is that link; otherwise nothing; what answered is the most recent entry and the table otherwise as it was, but for the entry used longest ago when it is full |
| ProcTable.ExecThenLookup | rk-sensor/src/proctable.rs:134-222 | main: a process whose exec was recorded while it was shown is named by that exec, with source and parent, in every later decision, while it is shown, or once nobody or only a later holder is |
| ProcTable.StaleLookup | rk-sensor/src/proctable.rs:134-222 | the code gets there: an exec is recorded, the next holder of the tgid decides and is gone, and the first is named |
| ProcTable.Table.UseEntry | rk-sensor/src/proctable.rs:181-198 | the parent is asked of procfs once and kept |
| AuditFrame.FrameInjective | rk-audit/src/chain.rs:45-64 | both hash framings together are injective: form, predecessor, position, count and bytes can be told apart |
| AuditFrame.FrameBytes | rk-audit/src/chain.rs:36-63 | what is hashed, byte by byte: the domain text, the previous hash, the number, in the current form the count, both highest byte first, and the records |
| AuditLines.SplitFlat | rk-audit/src/chain.rs:454-460 | splitting is the inverse of writing lines |
| AuditLines.SplitWhole | rk-audit/src/chain.rs:454-460 | and loses no byte |
| AuditLines.SplitPrefix | rk-audit/src/chain.rs:454-460 | of a cut file the first lines are whole and a part of the next is torn |
| AuditChain.ReadSegment | rk-audit/src/chain.rs:436-545 | the scan over bytes and offsets decides what opening does with a segment: remove, refuse, accept, leave or move as forged, or cut |
| AuditChain.ScanLoop | rk-audit/src/chain.rs:454-524 | its loop finds the position, the trusted end, the number of batches and of unsealed lines, and whether a line was forged |
| AuditChain.ReadLine | rk-audit/src/chain.rs:461-523 | one line of it |
| AuditChain.VerifySegments | rk-audit/src/chain.rs:740-1074 | the segment and line loops of verification give the report of the whole log; `AuditExact.VerifiedExactly` says what that is |
| AuditAgree.LineAgrees | rk-audit/src/chain.rs:900-984 | a line is forged to the scan exactly where it is a problem to verification |
| AuditAgree.ScanIsLeadingVerification | rk-audit/src/chain.rs:461-524 | main: the scan accepts exactly the batches verification accepts before its first problem, from the same header and key, and ends at the same position |
| AuditExact.HeaderExact | rk-audit/src/chain.rs:799-896 | a header is one problem for a key that is not pinned, or with none pinned not the last one, and one for not starting where the chain stands, or at its beginning, or anywhere past it in a log that may be pruned |
| AuditExact.SegmentExact | rk-audit/src/chain.rs:777-1014 | a segment is no problem exactly if it has a header that fits and only records and batches that follow it, and, unless the newest, ends with a batch |
| AuditExact.NotedMeans | rk-audit/src/chain.rs:730-736 | the expected head is held to be reached exactly if the log goes through its number, and wrong exactly if it does so with another hash |
| AuditExact.VerifiedExactly | rk-audit/src/chain.rs:740-1074 | main: whatever is expected, verification reports no problem exactly if no file was set aside as forged, every segment reads, the headers join from a place the log may begin, keys are pinned ones or all the same, some batch is there, and the expected head is passed; the report then gives what the files say, and a report with a problem gives no head; each forged file is one problem |
| AuditExact.UnpinnedOneKey | rk-audit/src/chain.rs:820-845 | with no key pinned a log without a problem is under one key, headers and batches |
| AuditExact.KeyChangeIsProblem | rk-audit/src/chain.rs:829-845 | and two headers under different keys always are a problem |
| AuditExact.VerifiedChain | rk-audit/src/chain.rs:898-984 | the batches of a log without a problem lead from its first header to its head, each with the number and hash of where it stands, the count and hash of its records and a signature of that |
| AuditExact.DamageIsOneProblem | rk-audit/src/chain.rs:966-984 | one bad batch is one problem: batches that follow the position it states are accepted as if it had been good |
| AuditExact.ReportCounts | rk-audit/src/chain.rs:1015-1073 | beside what the lines gave, an expected head not reached and a log without a batch are one problem each; the counts are of the accepted batches |
| AuditExact.PlanExactly | rk-audit/src/chain.rs:436-575 | main: what opening does with a segment of any bytes: empty, removed; without a complete line, cut to nothing; without the header its name asks for, refused; with a line that is neither a record nor a batch that follows, forged; ending with its header or a batch, done; otherwise its unsealed lines, counted, and torn one are left over |
| AuditRecover.PlanOfPart | rk-audit/src/chain.rs:436-545 | a segment cut anywhere inside its leftovers still has the same position and the same trusted bytes |
| AuditRecover.PlanOfShortPart | rk-audit/src/chain.rs:436-545 | cut inside its trusted bytes it is neither refused nor taken for forged |
| AuditRecover.InterruptedRecoveryIsSame | rk-audit/src/chain.rs:546-575 | main: however much of the leftovers was durable, and however often setting them aside is interrupted, by the end of the process, or, with the trusted bytes durable, of the machine: a recovery that finishes reports the same head and leaves the same sealed segment |
| AuditRecover.NothingIsLost | rk-audit/src/chain.rs:546-575 | at every moment before that, where they cannot be lost, the trusted bytes are in the segment, and the leftovers are in it or saved |
| AuditRecover.SameExactly | rk-audit/src/chain.rs:546-575 | main: every recovery that finishes reports the same head and leaves the same segment exactly if the trusted bytes were durable when recovery began or only the process can stop |
| AuditRecover.TrustedLost | rk-audit/src/chain.rs:405-413 | otherwise one stop of the machine and a recovery leave a shorter segment, or none |
| AuditRecover.SavedExactly | rk-audit/src/chain.rs:546-575 | main: every recovery that finishes has the leftovers whole in a durable file exactly if they were durable when recovery began or only the process can stop, however much of the trusted bytes was |
| AuditRecover.LeftoversLost | rk-audit/src/chain.rs:546-575 | otherwise one stop of the machine and a recovery lose them |
| AuditOpen.RemovedHadNothing | rk-audit/src/chain.rs:436-442 | recovery removes or renames only segments without a batch that verifies |
| AuditOpen.KeptPrefix | rk-audit/src/chain.rs:546-575 | and cuts no such batch off the others |
| AuditOpen.TargetIsFree | rk-audit/src/chain.rs:392-404 | unless sequence numbers wrap, the name of the next segment holds no batch that verifies |
| AuditOpen.ReplacedKeeps | rk-audit/src/chain.rs:392-404 | starting a segment keeps every such batch exactly if that name held none |
| AuditOpen.WrapMeetsBatches | rk-audit/src/chain.rs:497-500 | for every working key and rendering: with a segment 0 and a segment ending at number 2^64-1, of any records, opening leads to position 0, whose name holds a batch that verifies |
| AuditOpen.Directory.FreeSuffix | rk-audit/src/chain.rs:579-593 | the first suffix not taken |
| AuditOpen.Directory.Recover | rk-audit/src/chain.rs:436-575 | what becomes of a segment and of the files set aside, case by case; no byte of it is lost and nothing set aside before changes |
| AuditOpen.Directory.FindHead | rk-audit/src/chain.rs:258-281 | the position is a function of the files and their order, or the opening is refused; exactly the newer segments without a position go, the one that has it is cut to what it trusts and the others stay; no byte and no batch that verifies is lost |
| AuditOpen.Directory.Open | rk-audit/src/chain.rs:258-293 | main: in a directory of any contents the position is a function of the files and their order, and so is every segment afterwards; no byte is lost but what the new segment overwrites; when opening succeeds every batch that verified is where it was exactly if the name of the new segment held none, which is so whenever no segment counts past 2^64-1; a refused opening loses none |
| AuditTamper.HeadDetermines | rk-audit/src/chain.rs:45-75 | one head has one history of batches, or at the last position where two histories differ the framed bytes of the two batches have the same hash |
| AuditTamper.ChainedExtends | rk-audit/src/chain.rs:900-984 | each counted batch was accepted where the ones before it lead |
| AuditTamper.NoteNext | rk-audit/src/chain.rs:730-736 | the expected head is noted as reached exactly when it is on the chain |
| AuditTamper.VerifiedIsSound | rk-audit/src/chain.rs:1026-1073 | a log without a problem is one chain from the genesis hash to the reported head, through the expected head, under pinned keys only |
| AuditTamper.ExpectedHeadFixesLog | rk-audit/src/chain.rs:730-736 | main: verified with an expected head, nothing pruned, there are as many batches before it as were hashed into it, and they are byte for byte and in order the same, or the two batches at the last place they differ collide |
| AuditTamper.SameHeadSameBatches | rk-audit/src/chain.rs:740-1074 | two logs that verify with the same expected head hold the same batches before it, or the two at the last place they differ collide |
| AuditTamper.PinnedKeySignedIt | rk-audit/src/chain.rs:900-984 | main: with pinned keys every counted batch is one such a key signed, at that position after that predecessor, or collides with one such a key signed |
| AuditText.AcceptsOwn | rk-audit/src/chain.rs:378-390 | the trailer a writer signs closes its batch |
| AuditText.ScanBody | rk-audit/src/chain.rs:454-524 | the scan of what was written leads to the head of the chain over exactly its batches |
| AuditText.PlanOfText | rk-audit/src/chain.rs:436-545 | opening finds that head, and whatever follows the batches left over |
| AuditText.VerifyText | rk-audit/src/chain.rs:740-1074 | verification of a segment as written counts its batches and finds no problem |
| AuditExample.WorksIsMet | rk-audit/src/chain.rs:378-390 | for any hash and any key of 32 bytes there are signatures of 64 bytes that check, and a rendering of control lines that reads back under a parser that reads no key and no signature of another length |
| AuditWriter.StepKeeps | rk-audit/src/chain.rs:258-414 | every step of append, seal, sync, rotation, recovery and start of a segment keeps the log in shape and its sealed batches on it, if it settles and no batch takes the last number |
| AuditWriter.CrashKeeps | rk-audit/src/chain.rs:258-414 | so does a crash of the process or the machine at any point |
| AuditWriter.TornTrailer | rk-audit/src/chain.rs:340-355 | a trailer cut anywhere before its newline seals nothing |
| AuditWriter.ChainGrows | rk-audit/src/chain.rs:340-364 | what was sealed stays sealed |
| AuditWriter.LogVerifies | rk-audit/src/chain.rs:740-1074 | finished segments and a newest one with an open batch verify as the chain they hold |
| AuditWriter.OpenShape | rk-audit/src/chain.rs:258-364 | while a writer is open its newest segment is its header, the batches sealed in it and the open batch |
| AuditWriter.OpenLogVerifies | rk-audit/src/chain.rs:740-1074 | main: over every settled run of append, seal, rotation, crash and reopening under one key, once a writer is open and a batch was sealed, verification reports no problem, counts exactly the sealed records in order, ends at the writer head and passes through every head a seal reported |
| AuditWriter.ReportedHeadFixesLog | rk-audit/src/chain.rs:1026-1073 | main: any directory that verifies with a head some seal of the run reported holds the very batches the writer sealed before it, or two batches at one position collide |
| AuditUnsettled.UnsettledBreaks | rk-audit/src/chain.rs:527-529 | main: exactly the settled runs are safe: whenever a writer continues from a segment with batches that is not on disk as it reads, some continuation ends with a writer open and a log that does not verify |
| AuditUnsettled.UnsettledHappens | rk-audit/src/chain.rs:340-355 | such a step exists: a writer dies between writing a trailer and its sync, and the next one continues from it |
| AuditUnsettled.TailInsideReported | rk-audit/src/chain.rs:777-795 | a torn line or unsealed records in a segment that is not the newest are reported whatever follows |
| AuditWriter.MissingBatchesReported | rk-audit/src/chain.rs:884-898 | a log that lost the last batches of an older segment, or whole segments, never verifies |
| AuditLog.Log.constructor | rk-audit/src/chain.rs:258-262 | an empty directory |
| AuditLog.Log.Append | rk-audit/src/chain.rs:314-326 | the record joins the open batch, which is sealed once it holds enough, and the segment is left as a seal leaves it; the states passed are a run, settled as long as batch numbers last |
| AuditLog.Log.Tick | rk-audit/src/chain.rs:329-337 | seals the open batch if its interval has passed, and otherwise changes no segment |
| AuditLog.Log.SealBatch | rk-audit/src/chain.rs:340-355 | trailer written, then synced: the batch is on the chain and its head is reported |
| AuditLog.Log.Seal | rk-audit/src/chain.rs:340-364 | seals the open batch, if any: the newest segment gets its trailer, and a new one holding only a header is started exactly if it is then at or over the segment size |
| AuditLog.Log.StartSegment | rk-audit/src/chain.rs:392-414 | one more segment, named for the position, that holds its header and nothing else |
| AuditLog.Log.RecoverNewest | rk-audit/src/chain.rs:436-575 | the position of the newest segment, or the segment removed, or a refusal; in a settled run never a refusal, and the run stays settled if what it continues from is on disk |
| AuditLog.Log.SetAside | rk-audit/src/chain.rs:550-575 | the leftovers are whole in a durable file before the segment is cut |
| AuditLog.Log.Open | rk-audit/src/chain.rs:258-293 | main: of a directory a settled run left, opening always succeeds, keeps every sealed batch and takes a whole trailer for sealed; the run stays settled if the newest segment, where it ends sealed, is on disk |
| AuditLog.Log.Stop | rk-audit/src/chain.rs:258-293 | the end of the process or the machine, with whatever it leaves of the directory, is part of the run |
| AuditLog.Log.Reopen | rk-audit/src/chain.rs:258-293 | main: a writer that stops between two calls, whatever of its open batch had reached the disk, is opened again with every sealed batch and in a settled run |
| AuditLog.OpenCrashOnDisk | rk-audit/src/chain.rs:340-355 | what was sealed by then is on disk |

## Left out

- TOML, JSON and hexadecimal parsing and rendering: the model starts from parsed values, and the rendering of a CIDR in `PolicyDiff` is a parameter assumed injective and without spaces.
- The cryptography and key files of `rk-audit/src/key.rs`.
- Partial write errors and full disks in the audit writer: writes succeed, or the process or the machine stops.
- AuditWriter.CrashKeeps: the removal of a file and the truncation of a segment that is about to be written again are durable at once.
- AuditWriter.StepKeeps: for steps that settle, and up to the last 64-bit batch number; `AuditUnsettled.UnsettledBreaks` is the other half of the first, `AuditOpen.WrapMeetsBatches` shows what follows the second.
- AuditWriter.OpenLogVerifies: over settled runs, of which `AuditUnsettled.UnsettledBreaks` shows that no others are safe; and for verification with nothing pruned, the stricter setting; pruning only turns one problem into a warning.
- AuditLog.Log.Seal: once batch numbers have started over, the segment rotated into has the name of an old one; the model adds it as the newest where the code truncates the old one. No such run is settled, so no result depends on it.
- AuditChain.VerifySegments: problems are counted, not worded, and warnings and key ids are not part of the report.
- AuditOpen.Directory.Open: a directory listing is given in name order; permissions and unreadable files are not modelled.
- Pipeline.StepKeepsInv: the 64-bit counters are unbounded, a panic of a thread is not modelled, and time passes in steps of its own: the deadline of a stop and the budget of the worker run out at any moment.
- PipelineStop.StopReturns: from the moment the flag was read as set and the deadline passed; a relaxed load that never sees the flag is not ruled out.
- Pipeline.Observer.RecordLosses: only loss records are kept; decision records and metrics are not.
- ProcTable.Table.Lookup: the parsing of `/proc/<pid>/stat` is a given; its reads show one process, and start times separate the holders of a tgid at clock-tick granularity.
- EventBuilder.ExecRecord: field order and little-endian layout are as on the supported hosts; the kernel's copy helpers are modelled by what they copy.
- EventDecoder.Decode: the counters of accepted and rejected records are not modelled.
- CivilTime.FormatTimeExact: the tuple of year to millisecond, not its zero-padded text.
- PolicyDiff.Diff: names and lines come in some order where the code sorts them; bindings and namespaces are compared the same way and are not part of it.
- FileWalk.FileCheck: open, unlink, rmdir, link, create and attribute hooks call the same check with other access masks and are not repeated.
- NetKernelRefinement.SockAddr: the address, port and protocol bit of the socket are given as one query, and whether the heartbeat is stale is a parameter.
- NetKernel.Govern: how the sensor computes `governed_levels` and flips slots is an assumption; the loaded maps are given by the compiled policies.
- NetParse.ParseProfile: exec and file rules only take rule ids; their meaning is not modelled.
- PinSets.StepKeepsInv: a fresh installation and `uninstall` are not part of the runs, which start from a live set.
- PortLearn.Suggest: the learned rules alone; those of the profile they are added to are kept beside them and not part of it.
- PortSuggest.Learn: the network part of a suggested profile; exec and file suggestions and the comments written beside rules are not modelled.
- Exec allow-listing, tun and raw-socket hooks, the Kubernetes and gRPC parts, metrics, the OTLP exporter and the command line: they pass values on, and what they promise is about formats and services outside the repository.
