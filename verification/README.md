# A verified model of Poise

Poise enforces context-aware access policies in a programmable switch. Clients send context packets;
a compiler turns the policy into P4 tables that compute a decision from them; the switch caches that
decision and applies it to the data packets of the same source. This project models the four parts
that carry the hard logic, and proves what they promise.

- **The compiler back end** (`Policy`, `Decision`, `HeaderMerge`, `MonitorMerge`, `Optimizer`, `Identity`,
  `Allocation`, `Emission`, `Positions`, `Compiler`, `Correctness`, `Naming`, `SortOrders`, `Witnesses`). Statements are
  lowered to checks,
  checks on one header and on one monitor are merged, the rest is sorted by priority, packed into
  pipeline stages and recirculation rounds, and emitted as tables, entries and a control block.
  The main theorem is an equivalence: the emitted program, run round by round and looking tables up
  by name, decides the greatest action value among the policy's statements that fire, in every context
  and for every monitor activity, **if and only if** the policy is `Faithful`.
- **The data plane** (`DataPlane`, `Runs`, `Network`, `Refresh`, `Monitors`, `MonitorEvaluation`, `Monitored`,
  `TemplateOrder`): connection registers, the five cache registers, the Bloom filter, monitor registers, resubmission
  and recirculation, over whole interleaved runs, up to the statement that a completed context packet makes the
  data packets of its address obey the policy, monitors included (`Monitored.PolicyEnforced`).
- **The control plane** (`ControlPlane`): the learning and the aging thread sharing a free list, call by call.
  `Joint` runs both planes together.
- **The client** (`Client`, `InternetChecksum`): option insertion and segment splitting on byte buffers,
  and the Internet checksum. `Templates` and `Decimal` cover the compiler's text substitution and numbers.

Objects that the source updates in place are classes (`Compiler.Program`, `DataPlane.Switch`,
`MonitorEvaluation.Pipeline`, `ControlPlane.Allocator`, `Client.Hook`) whose methods are proved against functions;
the lemmas are about those functions. `std::sort` is not stable, so the theorems quantify over every
permutation sorted by priority (`SortedChecks`).

## How the code behaves

Where code and documentation differ, the model follows the code. The differences are results:

- `<` and `>` become closed ranges, the second one ending at 10000; `<=` and `>=` produce a check that is
  silently erased; `notin` is compiled like `in`; the operator of a monitor statement's extra predicate is never
  read and taken for `==`. `OperatorsKept` gives the exact operators that keep their meaning.
- A merged header group takes the actions of its first check even when that is a monitor check, which
  turns drops into the normal action; folding monitor checks overwrites values and loses an unconditional
  check behind a conditional one. `Faithful` is the exact condition under which neither changes a
  decision; `WatchedHeaderMisjudged` and `ConditionalFirstMisjudged` are two small policies outside it, with
  contexts that are judged wrongly. Whatever the policy, `CompilationNeverRaises` holds.
- A merged group headed by a range or monitor check reuses the id of a check that stays
  (`DistinctIdsExact`). Two tables then share a name exactly when that check is named after the same header
  and lands in the same round (`GeneratedNamesExact`); for a policy that fits in one round, exactly when a
  range check heads a merged group (`OneRoundNames`, with the policy of `RangeHeadShares`). For any number of rounds
  `SomeOrderClashes` says exactly when the sort may leave an order in which names clash. Tables are looked up
  by name, so the main theorems ask for distinct names, as the P4 compiler does.
- A second run of the header pass can still merge (`SecondRunExact`, with the policy of `SecondRunMerges`).
- The monitor template declares its table with size 2 however many extra headers were folded into it
  (`TableSizes`, with the policy of `ManyConditionsOverflow`). The main theorems do not let a full table drop entries.
- The monitor template is filled by six replacements of text, so a monitor or header whose name contains a later
  placeholder is renamed in the declarations (`SuccessiveIsSimultaneous`), and the declared table no longer has the
  name that the control block applies (`DeclaredNameExact`; `RenamedTable` for a monitor called HNAME).
- The ingress control evaluates the policy before it sets the timestamp, so monitor registers only ever see
  time 0 and no monitor turns inactive (`NeverInactive`); `ActivityExact` is what the registers mean when time moves.
  The switch as ordered therefore enforces the policy without its monitor statements, exactly when no merged
  group loses a drop (`DeadMonitorsExact`, `PlainPolicyEnforced`).
- Every pass of a context packet stores its decision so far. Until its last pass data packets can be forwarded that
  the policy drops, even when they were dropped before (`RefreshForwards`); `EarlyEnforcedExact` says exactly when a
  partial decision is enforced like the final one.
- A statement never writes its else action `fwd1`: when no statement fires the decision stays 0, which the
  template's enforcement tables drop (`Enforce`).
- The learning and the aging thread share state without a lock. Three things can hand a decision to another
  connection: an insert between recycling an index and resetting its register, a reset that fails, and a
  decision written after its connection was aged out. Without them no interleaving leaks (`SafeSchedule`), and
  each of them alone can (`EveryHazardLeaks`).
- p4/poise.p4 numbers decisions differently from the template: there 0 is forwarded, and the control plane resets
  registers to 0. `ClearedForwardsExact` says exactly when a table hit then forwards without a decision.
- The client does not update the TCP checksum: a packet whose checksum was valid and that is not split never leaves
  with a valid one (`EmittedChecksums`).

## Reading the model

- Contexts map header names to natural numbers; field widths are not modelled. Constants in policies are
  natural numbers (header-to-header comparisons are outside the model).
- An entry constrains only the fields it names.
- Hash functions are arbitrary functions, reduced modulo the register size. The connection table is a map;
  driver calls may succeed or fail as a parameter says. Which packets hit a monitor's own table is an input.
- In `Network` the activity of monitors is given with each packet; in `Monitored` it comes from their registers, at
  evaluation times that each pass is given.
- The text of the monitor template is a parameter of the shape `Worded`: capitals occur only in its six
  placeholders and in the word TIMEOUT.
- The range table that selects the first connection register is taken to hold the range 0..56999.
- `ip_fast_csum` is taken to compute the Internet checksum of the header.

## Model

| member | source | states |
|---|---|---|
| Policy.LowerStmtMeaning | compiler/ast-tofino.c:29-125 | a lowered check fires in exactly the environments in which its statement does, writes the statement's value, and has that value as priority |
| Policy.OperatorsKept | compiler/ast-tofino.c:29-125 | exactly which operators keep their meaning: `==` in a predicate statement, `in` in a list statement, and in a monitor statement no extra predicate, `==`, or `<= 0` |
| Decision.SortedRunIsGreatest | compiler/ast.h:343-345 | running checks in priority order, last write wins, decides the greatest value written by a firing check |
| Decision.SortOrderIrrelevant | compiler/ast-tofino.c:328-329 | any two orders sorted by priority give the same decision |
| HeaderMerge.MergedMatches | compiler/ast-tofino.c:431-454 | the merged list check fires exactly when some exact or list check of its group does |
| HeaderMerge.MergeSameHeadersMembers | compiler/ast-tofino.c:401-490 | closed form of the pass: the valid checks no merge absorbs, and one merged check per merged header |
| HeaderMerge.HeaderPassWellFormed | compiler/ast-tofino.c:443-454 | after the pass every check's priority is still the value it writes |
| MonitorMerge.MergeMonitorsMembers | compiler/ast-tofino.c:492-520 | closed form of the pass: other checks pass through, each monitor keeps one check, the fold of its group |
| MonitorMerge.OneCheckPerMonitor | compiler/ast-tofino.c:492-520 | at most one check per declared monitor is left |
| MonitorMerge.MergedMonitorFires | compiler/ast-tofino.c:507-515 | when a folded check fires, from the group alone: the last value given for each extra header counts |
| MonitorMerge.FoldedGroupExact | compiler/ast-tofino.c:507-515 | folding keeps a group's meaning in every environment if and only if the first check is unconditional, or all are conditional and agree on shared headers |
| Optimizer.OptimizedNeverRaises | compiler/ast-tofino.c:536-538 | merging never makes the decision greater, for any policy |
| Optimizer.MergingIsExact | compiler/ast-tofino.c:536-538 | both passes keep the decision in every environment if and only if the policy is faithful |
| Optimizer.ActiveMergingIsExact | compiler/ast-tofino.c:403-454 | while all monitors are active, both passes keep the decision if and only if no group merged under a monitor's actions loses a drop |
| Identity.DistinctIdsExact | compiler/ast-tofino.c:403-454 | ids stay distinct through the header pass if and only if no merged group is headed by a range or monitor check |
| Identity.SecondRunExact | compiler/ast-tofino.c:471-490 | a second run of the header pass changes nothing if and only if no merge was blocked by a check that the first run erased |
| Allocation.AllocationOptimal | compiler/ast-tofino.c:158-189 | no order-preserving assignment with at most 7 stages a round needs fewer rounds |
| Allocation.AllocationExact | compiler/ast-tofino.c:158-198 | allocation succeeds if and only if some such assignment to 8 rounds exists |
| Allocation.AllocationThresholds | compiler/ast-tofino.c:181-195 | up to 42 stages are always accepted, more than 56 never |
| Allocation.RoundsGapFree | compiler/ast-tofino.c:181-188 | rounds start at 0, never decrease and skip none |
| Allocation.StagesDisjoint | compiler/ast-tofino.c:181-188 | stage intervals lie inside their round, in order, without overlap |
| Emission.EntriesOfMean | compiler/ast-tofino.c:352-398 | the entries generated for a check match exactly when it fires, and all write its value |
| Naming.NameExact | compiler/ast-tofino.c:233-250 | two checks get the same table name if and only if they agree on header or monitor, round and id |
| Emission.TablesRunChecks | compiler/ast-tofino.c:293-311 | applying the tables by name, with all entries installed, runs the checks in order |
| Emission.RecirculationIsSequential | compiler/ast-tofino.c:276-321 | letting the counter run from 0 to the last round applies every check's tables once, in order |
| Compiler.Program.CountHeaders | compiler/ast.h:438-443 | the header list becomes the one strictly ascending list of its elements, without repetition |
| Compiler.Program.ProcessMatchExprs | compiler/ast-tofino.c:127-156 | succeeds exactly when every statement is supported, with one check per statement |
| Compiler.Program.RemoveInvalidChecks | compiler/ast-tofino.c:458-469 | erasing in place leaves the valid checks in order |
| Compiler.Program.MergeChecksPerHeader | compiler/ast-tofino.c:401-456 | the in-place merge of one group is `MergeHeader`, and reports whether it merged |
| Compiler.Program.MergeSameHeaders | compiler/ast-tofino.c:471-490 | the loop over headers is the fold of `MergeHeader` followed by erasing |
| Compiler.Program.FoldReaders | compiler/ast-tofino.c:501-516 | folding through pointers is `MergeMonitor` |
| Compiler.Program.MergeMonitors | compiler/ast-tofino.c:492-520 | the loop over monitors is the fold of `MergeMonitor` followed by erasing |
| Compiler.Program.SortByPriority | compiler/ast-tofino.c:328-329 | the result is a permutation sorted by priority |
| Compiler.Program.AllocateResources | compiler/ast-tofino.c:158-198 | the loop over the cursor places every check as `Placed` does and fails exactly when round 8 is reached |
| Compiler.Program.GenerateEvalCtx | compiler/ast-tofino.c:276-321 | the emitted blocks are `Blocks` |
| Compiler.Program.GenerateCmd | compiler/ast-tofino.c:352-398 | the emitted commands are `Commands` |
| Compiler.Program.CompileTofino | compiler/ast-tofino.c:522-547 | fails on an unsupported statement or when eight rounds do not suffice; otherwise generates from a sorted order of the merged checks |
| Correctness.LowerDecision | compiler/ast-tofino.c:127-156 | the greatest value among lowered checks is the one decision the policy asks for |
| Correctness.GeneratedDecision | compiler/ast-tofino.c:323-398 | over all passes the generated program decides the greatest value the merged checks write |
| Correctness.CompilationExact | compiler/ast-tofino.c:522-547 | given distinct table names, the generated program decides what the policy says, in every context and for every monitor activity, if and only if the policy is faithful |
| Correctness.CompilationNeverRaises | compiler/ast-tofino.c:522-547 | given distinct table names, the generated program never decides more than the policy |
| Naming.GeneratedNamesExact | compiler/ast-tofino.c:233-250 | table names are distinct if and only if no merged check meets, in one round and under one header, the surviving check it took its id from |
| Naming.OneRoundNames | compiler/ast-tofino.c:403-454 | for a one-round policy with no monitor named like a header, names are distinct if and only if no range check heads a merged group |
| Naming.NoRangeHeadNames | compiler/ast-tofino.c:403-454 | without range heads and monitors named like headers, names are distinct however many rounds there are |
| Naming.DeclaredNameExact | compiler/ast-tofino.c:249-264 | the table declared by the filled monitor template has the name the control block and commands use if and only if the monitor's name contains no later placeholder |
| Naming.RenamedTable | compiler/ast-tofino.c:249-264 | a monitor called HNAME that watches another header gets its table declared under a name nothing applies |
| Naming.GeneratedNames | compiler/ast-tofino.c:233-250 | names are distinct when no merged group is headed by a range or monitor check |
| SortOrders.SomeOrderClashes | compiler/ast-tofino.c:328-329 | for a policy with no monitor named like a header, some order the sort may leave makes names clash if and only if a range check heads a merged group whose priority class has three checks or does not start at the last stage of a round |
| SortOrders.OrderExists | compiler/ast-tofino.c:328-329 | every accepted policy has an order the sort may leave |
| Identity.OrderedSeparate | compiler/ast-tofino.c:401-520 | whatever the policy, after both passes and in any order two checks that share an id are a list check and another one |
| Correctness.DecisionGrows | compiler/ast-tofino.c:328-340 | the decision carried from round to round never decreases |
| Correctness.PassIsPrefix | compiler/ast-tofino.c:276-321 | the decision after the pass with counter k is that of exactly the checks placed in rounds up to k |
| Correctness.MonitorTouchedOnce | compiler/ast-tofino.c:297-307 | over all its passes a context packet applies each monitor it needs exactly once |
| Correctness.TableSizes | compiler/ast-tofino.c:239-264 | header tables hold their entries; a monitor's table overflows if and only if the policy's first statement on the monitor is conditional and at least three of them are |
| Correctness.PlainPoliciesFaithful | compiler/ast-tofino.c:401-520 | a policy without monitor statements is always faithful |
| Witnesses.WatchedHeaderMisjudged | compiler/ast-tofino.c:403-408 | an accepted policy with distinct table names whose generated program lets a context through that the policy drops, because a monitor check heads a merged group |
| Witnesses.ConditionalFirstMisjudged | compiler/ast-tofino.c:507-515 | an accepted policy with distinct table names whose generated program decides nothing where the policy drops, because an unconditional monitor statement follows a conditional one |
| Witnesses.SecondRunMerges | compiler/ast-tofino.c:471-490 | an accepted policy on which a second run of the header pass merges more |
| Witnesses.RangeHeadShares | compiler/ast-tofino.c:403-454 | an accepted policy whose merged check shares id and table name with a range check, in every order the sort may leave |
| Witnesses.Overflows | compiler/ast-tofino.c:507-515 | any policy with three conditional statements on a monitor, its first one among them, gives some table more entries than it is declared with |
| Witnesses.ManyConditionsOverflow | compiler/templates/monitor_template.p4:70-78 | an accepted policy of that kind |
| Templates.ReplaceStringInPlace | compiler/ast-tofino.c:14-22 | terminates with the left-to-right non-overlapping replacement |
| Templates.InstantiateMonitor | compiler/ast-tofino.c:249-264 | the six calls compose to `Instantiated` |
| Templates.MonitorTemplateText | compiler/ast-tofino.c:249-264 | what the six replacements produce for every name the lexer accepts: the values in their places, the two names as later replacements leave them |
| Templates.MonKeptExact | compiler/ast-tofino.c:251-255 | which monitor names survive the later replacements |
| Templates.SuccessiveIsSimultaneous | compiler/ast-tofino.c:249-264 | for every name the lexer accepts, the six replacements fill all places of the template at once if and only if neither name contains a placeholder replaced after it (a monitor may contain HNAME when its header is called HNAME) |
| Templates.PlainNamesKept | compiler/ast-tofino.c:251-263 | names without capitals always survive |
| Templates.RenamedMonitor | compiler/ast-tofino.c:251-252 | a monitor called HNAME is renamed to its header |
| Decimal.TrailingNumber | compiler/ast-tofino.c:239-250 | the number at the end of a table name is determined by the name |
| MonitorEvaluation.Pipeline.EvaluateContext | compiler/templates/monitor_template.p4:25-78 | one pass through its round, register by register and table by table, refines `Evaluate` |
| MonitorEvaluation.EvaluateRecorded | compiler/templates/monitor_template.p4:25-58 | after any pass the registers and flags are those that the uses so far call for |
| MonitorEvaluation.EvaluateDecides | compiler/templates/monitor_template.p4:70-78 | a pass decides like its tables in any environment that agrees with the flags of the monitors it applies |
| Monitored.RegistersExact | compiler/templates/monitor_template.p4:25-58 | in every interleaved run whose evaluation times move forward, each register holds the time of the latest hit on its monitor |
| Monitored.ActivityExact | compiler/templates/monitor_template.p4:25-62 | in every such run a use sees its monitor active if and only if it is a hit or the latest hit before it, boot counting as 0, is less than the timeout old |
| Monitored.RunRefines | compiler/templates/recir_template.p4:831-911 | in every interleaving the switch with its monitor registers is the one of `Network`, each packet with the activity it saw |
| Monitored.AllUsed | compiler/ast-tofino.c:297-307 | a context packet that has made its last pass has used every monitor of the policy |
| Monitored.PolicyEnforced | compiler/templates/recir_template.p4:831-911 | with the registers part of the switch, for a faithful policy, data packets are treated as the policy decides for the packet's headers and the activity its uses of the registers found |
| TemplateOrder.NeverInactive | compiler/templates/recir_template.p4:839-844 | with the timestamp set after evaluation, every use of every run finds its monitor active |
| TemplateOrder.DeadMonitorsExact | compiler/templates/recir_template.p4:839-844 | with all monitors active the generated program decides like the policy without its monitor statements if and only if no merged group loses a drop |
| TemplateOrder.PlainPolicyEnforced | compiler/templates/recir_template.p4:831-911 | in the template's order, data packets are treated as the policy without its monitor statements decides, provided no merged group loses a drop |
| DataPlane.Switch.AccessConn | p4/poise.p4:317-395 | the 57000 and 43000 entry registers behave as one of 100000 entries |
| DataPlane.Switch.AccessCache | compiler/templates/recir_template.p4:448-563 | the five cache tables report the old slot and, for context packets, overwrite all five fields |
| DataPlane.Switch.AccessFilter | compiler/templates/recir_template.p4:565-641 | the filter tables set the evicted key's cells exactly for an evicted drop decision |
| DataPlane.Switch.MyIngress | compiler/templates/recir_template.p4:831-911 | one pass through the control, register by register, refines `After`, `MissOutcome` and `Enforce` |
| Runs.CacheIsLastWriter | compiler/templates/recir_template.p4:448-563 | after any run each slot of the five registers holds the fields of the latest context pass that hashed there |
| Runs.ForwardedExact | compiler/templates/recir_template.p4:866-911 | a data packet without connection entry is forwarded if and only if the latest context pass in its slot had its address and a forwarding decision |
| Runs.DefaultDeny | compiler/templates/recir_template.p4:394-425 | forwarding needs an earlier context pass of that address and slot with a decision other than unseen and drop |
| Runs.CollisionNeverForwards | compiler/templates/recir_template.p4:894-904 | a packet whose slot belongs to another address is never forwarded |
| Runs.FilterExact | compiler/templates/recir_template.p4:601-641 | exactly the cells of keys evicted with a drop decision by another address are set |
| Runs.FilterForever | compiler/templates/recir_template.p4:868-879 | the cells of such a key stay set whatever follows |
| Network.RunKeeps | compiler/templates/recir_template.p4:762-769 | in every interleaving, packets in flight agree with their passes, and every context pass carries the decision of its round |
| Network.PassesBounded | compiler/templates/recir_template.p4:894-901 | every data packet is gone after three resubmissions, every context packet after one pass per round |
| Network.EnforcedFromContext | compiler/templates/recir_template.p4:847-893 | a data packet is enforced by the decision the owner of its slot carried in its latest pass |
| Network.PolicyEnforced | compiler/templates/recir_template.p4:831-911 | for a faithful policy, once a context packet has made its last pass and still owns its slot, data packets of its address are treated as the policy decides |
| Refresh.EarlyEnforcedExact | compiler/templates/recir_template.p4:448-563 | for a faithful policy, after any pass of the slot's owner data packets are treated as the policy decides if and only if the rounds so far settle the decision |
| Refresh.RefreshForwards | compiler/templates/recir_template.p4:815-893 | after any run, the first pass of a context packet that the policy drops makes the switch forward its connection's data packets |
| Joint.Projections | control-plane/setup.py:60-112 | a joint run of both planes is a run of each |
| Joint.HitForwardsOwn | compiler/templates/recir_template.p4:314-425 | in every joint interleaving without an insert over another key's register, a table hit forwards only on a decision that the generated program reached in a pass of a context packet of the same key |
| Joint.SafeHitForwardsOwn | control-plane/setup.py:95-112 | so in every joint interleaving that meets none of the three hazards |
| ControlPlane.PartitionKept | control-plane/poise.py:67-96 | in every interleaving the 100000 indices are partitioned into free, live, in a thread's hands, and lost |
| ControlPlane.NoSharedIndex | control-plane/setup.py:95-108 | no two live connections share an index and no live index is free |
| ControlPlane.IsolationExact | control-plane/setup.py:99-107 | in every interleaving data packets read only their own decisions if no key is inserted over a register last written for another key, and only if, when decisions tell keys apart |
| ControlPlane.SafeSchedule | control-plane/setup.py:95-112 | in every interleaving without an insert before the reset, a failed reset or a late write, data packets read only their own decisions throughout |
| ControlPlane.EveryHazardLeaks | control-plane/setup.py:104-107 | each of the three, met alone, has a run that hands one connection's decision to another |
| ControlPlane.DisciplinedIsolated | control-plane/setup.py:95-112 | a locking discipline that is enough: no pop while a reset is pending, successful resets, no age-out of a key whose decision is still to be written |
| ControlPlane.WholeCallsIsolated | control-plane/setup.py:95-112 | with uninterrupted adds and age-outs and successful resets, data packets read only their own decisions, whatever other calls fail |
| ControlPlane.ForwardedIsOwn | compiler/templates/recir_template.p4:340-425 | then, with the template's constants, a table hit forwards only on a decision carried by the packet's own key |
| ControlPlane.ClearedForwardsExact | p4/poise.p4:8-18 | with the constants of this file that holds if and only if the register has been written since its reset, or the key has carried 0 |
| ControlPlane.UnwrittenIsForwarded | control-plane/poise.py:78-88 | between an insert and the write of its decision this file's switch forwards packets without a decision |
| ControlPlane.Allocator.Setup | control-plane/poise.py:35-36 | the free list holds 0..99999 in order |
| ControlPlane.Allocator.PoiseAdd | control-plane/poise.py:67-93 | one add is the sequence of its calls, on every outcome of the driver |
| ControlPlane.Allocator.AgeOut | control-plane/setup.py:95-112 | entries are aged out one by one on every outcome of the driver, until a missing entry or a failed delete ends the thread |
| InternetChecksum.Csum | client-module/kernel-module/mon_nf.c:77-100 | terminates with the complement of the word sum's residue modulo 65535, where only a sum of 0 has residue 0 |
| InternetChecksum.StoredChecksumVerifies | client-module/kernel-module/mon_nf.c:77-100 | storing the result in a zeroed aligned word makes the checksum of the whole 0 |
| InternetChecksum.ByteOrderIndependent | client-module/kernel-module/mon_nf.c:84-99 | byte-swapping every word byte-swaps the result |
| InternetChecksum.OddIsPadded | client-module/kernel-module/mon_nf.c:91-93 | a byte left over counts as if padded with zero |
| InternetChecksum.TcpUdpCsum | client-module/kernel-module/mon_nf.c:101-126 | the checksum over the padded 24-byte structure is the one over the 12-byte pseudo-header |
| Client.RewrittenCarries | client-module/kernel-module/mon_nf.c:166-204 | the rewritten packet has the option, the chosen payload, the right sequence number, data offset and lengths, the other header bytes, and a verifying IP checksum |
| Client.CreateCxtSkb | client-module/kernel-module/mon_nf.c:129-215 | the in-place edits of the copy produce such a packet |
| Client.SegmentsCarryStream | client-module/kernel-module/mon_nf.c:282-299 | the emitted payloads concatenate to the original one, at sequence numbers that abut modulo 2^32 |
| Client.SegmentsFit | client-module/kernel-module/mon_nf.c:257-299 | a packet of at most 1500 bytes gives packets of at most 1500 bytes whose data offset fits |
| Client.TcpChecksumExact | client-module/kernel-module/mon_nf.c:166-204 | the packet made from one with a valid TCP checksum has a valid one if and only if a sum over its removed bytes, length and sequence number vanishes modulo 65535 |
| Client.EmittedChecksums | client-module/kernel-module/mon_nf.c:282-299 | a packet whose TCP checksum was valid and that is not split never leaves with a valid one; a half exactly when its drift vanishes |
| Client.SentVerifies | client-module/kernel-module/mon_nf.c:108-126 | storing the checksum over a zeroed field gives a packet whose TCP checksum is valid |
| Client.VerifiedPacket | client-module/kernel-module/mon_nf.c:108-126 | such a packet of forty bytes that the hook rewrites |
| Client.Hook.ParseTxSkb | client-module/kernel-module/mon_nf.c:218-304 | which packets pass unchanged, which are replaced, and by what |

## Left out

- The lexer and parser, nested ifs and arithmetic expressions: the model starts from the list of statements.
- Generated P4 text other than table names and the places of the monitor template: tables, blocks and entries are data.
- Compiler.Program.CompileTofino: file output and progress messages are not modelled.
- Network.PolicyEnforced: takes the activity of monitors as an input of each packet; Monitored.PolicyEnforced has the registers.
- The digest polling loop, message filtering and thread start-up in control-plane/setup.py are not modelled.
- The timeout guard of p4/poise.p4 and its one-recirculation limit on collisions: the runs follow compiler/templates/recir_template.p4.
- Packet parsers, including which header fields they fill in: a pass starts with its key given.
- Client.CreateCxtSkb: a failed allocation is not modelled; missing tail room is the `Panic` verdict of the hook.
- Kernel sockets, device files, sensors, one-time passwords, servers and traffic scripts.
