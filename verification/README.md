# Evemon: a verified model

Evemon watches processes from a headless service and shows them in clients. This project models the parts
of it that are protocols or algorithms and proves what they are for. The functions in each file are the
specification; the classes and methods beside them work on arrays, cursors and tables as the C code does and
are proved equal to those functions.

| files | part |
|---|---|
| `fft.dfy` | the in-place radix-2 FFT |
| `milkdrop_*.dfy` | the MilkDrop expression language: variable table, lexer, evaluator, the printed form of programs, and what each function and assignment computes |
| `tracing.dfy`, `registry.dfy`, `registry_server.dfy` | tracing registrations: the union of all clients' watches and its effect on the eBPF backend |
| `control_protocol.dfy` | clients sending revisioned watch lists over connections that come and go |
| `jobs.dfy`, `jobs_server.dfy` | inspector jobs shared by two threads |
| `framing.dfy` | requests and replies over a byte stream |
| `events.dfy` | the event ring and its subscribers |
| `wire.dfy`, `snapshot*.dfy`, `records.dfy`, `inspect*.dfy` | wire codecs: snapshots, inspection replies, GPU replies |
| `watchset.dfy`, `counters.dfy`, `steam*.dfy` | watched descendants, byte counters, Steam inheritance |
| `common.dfy` | what several of them share |

Concurrency is modelled as state machines whose steps interleave freely. Main results: `Fft.FftDit`,
`MilkProgram.PrintedProgramMeans`, `Registry.ReplaceAtomic`, `ControlProtocol.ServerCatchesUp`,
`Jobs.DeliveredRightAndOnce`, `Framing.EveryRun`, `Events.OneFrameEach`, `SnapshotClient.Transfer`,
`WatchSetServer.Monitor.Refresh`, `CounterRuns.Conservation`, `Steam.MarkedExactly`, and `Inspect.ReportRoundTrip`.

Three expectations turned out false of the code. Each has its input and the exact condition:
a descriptor watched on its own can be lost when its process is also watched as a parent (`Backend.FdLost`, `Backend.TracedExactly`);
a name over 63 characters given to the variable table is stored and never found again, so it reads zero (`MilkVars.LongNameLost`,
`MilkVars.VarTable.SetThenRead`), which only the table's own interface shows, because the lexer cuts the words of a program to 63 characters first;
an inspection reply that was encoded and fits a frame is refused by the decoder when an array exceeds the count limit or the budget
(`Inspect.ManyDescendantsRefused`, `Inspect.ManyDescriptorsRefused`, `Inspect.ReportRoundTrip`).

Inputs taken as given: the results of reading /proc and of recognising a Steam process, the outcome of
attaching probes, what sockets accept and deliver, clock readings, the random source, the float operations of the
evaluator, and the conversions between float and double, of which only exactness on finite floats is used,
and that widening keeps other floats not finite.

## Model

| member | source | states |
|---|---|---|
| Fft.FftDit | src/plugins/milkdrop_expression.c:5-33 | for every power-of-two length the in-place program leaves in slot k the discrete Fourier transform sum of x[m]·w^(mk) of the input, in exact complex arithmetic |
| Fft.AdvanceReversed | src/plugins/milkdrop_expression.c:8-10 | the carry loop on j turns the bit-reverse of i-1 into that of i |
| Fft.SwapReversed | src/plugins/milkdrop_expression.c:7-15 | the swap loop leaves the bit-reversed permutation of the input, each pair swapped once |
| Fft.ReverseFromTop | src/plugins/milkdrop_expression.c:7-15 | reversing p bits can be split off at the top bit as well as at the bottom one |
| Fft.ReverseInvolution | src/plugins/milkdrop_expression.c:7-15 | reversing twice is the identity, which is why swapping only for i < j is enough |
| Fft.ReverseSuccessor | src/plugins/milkdrop_expression.c:7-10 | counting up by one and counting up in reversed bits agree for all i |
| Fft.BitReversedAt | src/plugins/milkdrop_expression.c:7-15 | the recursive even/odd shuffle puts x[Reverse(i)] in slot i |
| Fft.HornerSnoc | src/plugins/milkdrop_expression.c:16-32 | appending a sample adds its power term to the evaluated polynomial |
| Fft.DftIsHorner | src/plugins/milkdrop_expression.c:16-32 | the k-th transform sum is the input polynomial evaluated at w^k |
| Fft.HornerSplits | src/plugins/milkdrop_expression.c:16-32 | even and odd halves of a polynomial recombine at the square of the point |
| Fft.HalfTurn | src/plugins/milkdrop_expression.c:17-20 | the root of block length 2h raised to h is -1, from the half-angle law alone |
| Fft.CombineHalves | src/plugins/milkdrop_expression.c:23-29 | sum and difference of the half transforms are the transform at j and at j+h |
| Fft.ButterflyOfDfts | src/plugins/milkdrop_expression.c:21-30 | a butterfly block over two half transforms is the full transform |
| Fft.PassesComputeDft | src/plugins/milkdrop_expression.c:16-32 | all passes over bit-reversed input compute the transform of the input |
| Fft.AfterPassAppend | src/plugins/milkdrop_expression.c:20-31 | a pass treats blocks independently |
| Fft.NextBlock | src/plugins/milkdrop_expression.c:20-31 | the next block of a pass is built from exactly two blocks of the pass before |
| Fft.ButterflyPair | src/plugins/milkdrop_expression.c:23-29 | one inner iteration replaces two slots by sum and difference with the twiddled product and touches nothing else |
| Complex.MulMagnitude | src/plugins/milkdrop_expression.c:23-29 | the product of the butterfly is that of complex numbers: magnitudes multiply |
| Fft.ButterflyBlock | src/plugins/milkdrop_expression.c:21-30 | the innermost loop, carrying the twiddle factor along, performs one whole butterfly block |
| Fft.OnePass | src/plugins/milkdrop_expression.c:16-32 | one outer iteration takes the array from pass s-1 to pass s |
| MilkVars.VarTable.Probe | src/plugins/milkdrop_expression.c:79-88 | linear probing stops at the first bucket of that name or the first empty one, having passed only other names |
| MilkVars.VarTable.Get | src/plugins/milkdrop_expression.c:79-99 | finds or creates an entry at value zero; entries never move; a 193rd name is not found and disturbs nothing; a name within the buffer, to which no longer name was cut, has the map's entry whatever else is stored; a longer name is never found again |
| MilkVars.VarTable.Insert | src/plugins/milkdrop_expression.c:90-98 | a new entry extends the map by the name at zero |
| MilkVars.VarTable.Overwrite | src/plugins/milkdrop_expression.c:101-103 | writing to an entry updates its name and no other |
| MilkVars.VarTable.Set | src/plugins/milkdrop_expression.c:101-103 | assignment stores into the map unless the name is new and the table full; whatever the name, every other name within the buffer keeps its value |
| MilkVars.VarTable.Read | src/plugins/milkdrop_expression.c:104-107 | reading gives the stored value or zero; a name over 63 characters always reads zero |
| MilkVars.VarTable.SetThenRead | src/plugins/milkdrop_expression.c:101-107 | setting and then reading gives the value back if the name fits the buffer and zero if not |
| MilkVars.LongNameLost | src/plugins/milkdrop_expression.c:79-107 | a 64-character name is assigned and reads zero |
| MilkVars.ShortIsPlain | src/plugins/milkdrop_expression.c:91-92 | no longer name is ever cut to a name under 63 characters |
| MilkVars.VarTable.constructor | src/plugins/milkdrop_expression.c:79-88 | a new table is the empty map |
| MilkVars.NeverFull | src/plugins/milkdrop_expression.c:81-92 | 192 entries never fill 256 buckets, so probing ends |
| MilkVars.Absent | src/plugins/milkdrop_expression.c:81-92 | an empty bucket on the probe path proves the name was never stored |
| MilkVars.Inserted | src/plugins/milkdrop_expression.c:90-98 | filling that bucket keeps every stored name on its own probe path |
| MilkVars.MapOfUpdate | src/plugins/milkdrop_expression.c:101-103 | the map an entry list stands for follows a write to one entry |
| MilkLex.Lexer.Run | src/plugins/milkdrop_expression.c:116-180 | fills the token array with the lexed text, cut at 2047 tokens, and the end marker |
| MilkLex.LexIsStream | src/plugins/milkdrop_expression.c:116-180 | a lexed text with its end marker is a stream the evaluator accepts |
| MilkLex.ReadToken | src/plugins/milkdrop_expression.c:120-177 | one turn of the lexer loop consumes at least one character and yields the token at the position, if any |
| MilkLex.CharacterClasses | src/plugins/milkdrop_expression.c:120-167 | exactly which characters are blanks, digits, letters, exponent marks and signs |
| MilkLex.ScanNumber | src/plugins/milkdrop_expression.c:130-147 | the number scan takes digits and points and at most one exponent |
| MilkLex.ReadWord | src/plugins/milkdrop_expression.c:151-167 | a word is a function token only if it is a known name followed by a parenthesis |
| MilkLex.LiteralEnds | src/plugins/milkdrop_expression.c:130-147 | a number literal ends where its text ends, whatever separated text follows |
| MilkLex.FillerSkipped | src/plugins/milkdrop_expression.c:122-126 | blanks and comments produce no token |
| MilkLex.OneToken | src/plugins/milkdrop_expression.c:116-180 | the spelling of a token followed by a separator lexes to that token |
| MilkLex.LexSpell | src/plugins/milkdrop_expression.c:116-180 | every legal spelling of a token list lexes to that list |
| MilkEval.EvalAssign | src/plugins/milkdrop_expression.c:285-310 | on every token stream evaluation ends at a position between the cursor and the end marker, and below the depth limit consumes a token |
| MilkEval.EvalArgs | src/plugins/milkdrop_expression.c:239-243 | at most eight arguments are kept and the cursor never passes the end marker |
| MilkEval.EvalProgram | src/plugins/milkdrop_expression.c:311-326 | every program, well formed or not, is evaluated to its end marker |
| MilkTree.NotAnAssignment | src/plugins/milkdrop_expression.c:285-309 | a printed expression that is no assignment is never taken for one by the two-token look-ahead |
| MilkTree.StoreFits | src/plugins/milkdrop_expression.c:79-107 | while the names fit the table, storing and reading are plain map operations |
| MilkTree.SetShown | src/plugins/milkdrop_expression.c:290-293 | a printed assignment evaluates right to left to its meaning |
| MilkTree.UpdateShown | src/plugins/milkdrop_expression.c:294-305 | a printed compound assignment evaluates the right side first, then reads the variable |
| MilkTree.AssignShown | src/plugins/milkdrop_expression.c:285-310 | every printed expression evaluates to its value and variable store and stops just behind itself |
| MilkTree.SumBare | src/plugins/milkdrop_expression.c:191-201 | printed sums associate to the left |
| MilkTree.AddShown | src/plugins/milkdrop_expression.c:191-201 | operands of the additive level evaluate to their meaning, parenthesised only where precedence needs it |
| MilkTree.ProdBare | src/plugins/milkdrop_expression.c:210-222 | printed products, quotients and remainders associate to the left and bind tighter than sums |
| MilkTree.MulShown | src/plugins/milkdrop_expression.c:210-222 | operands of the multiplicative level evaluate to their meaning |
| MilkTree.UnaryShown | src/plugins/milkdrop_expression.c:203-209 | signs bind tighter than products |
| MilkTree.Parenthesised | src/plugins/milkdrop_expression.c:232-235 | a parenthesised expression evaluates as its content, one nesting level deeper |
| MilkTree.PrimaryBare | src/plugins/milkdrop_expression.c:223-284 | numbers, variables and calls evaluate to their meaning |
| MilkTree.CallBare | src/plugins/milkdrop_expression.c:236-277 | a call evaluates its arguments in order and applies the function, `if` being strict |
| MilkTree.ArgsShown | src/plugins/milkdrop_expression.c:239-243 | a printed argument list evaluates to its values, left to right |
| MilkProgram.ProgramShown | src/plugins/milkdrop_expression.c:311-326 | a printed program evaluates statement by statement to its meaning |
| MilkProgram.PrintedProgramMeans | src/plugins/milkdrop_expression.c:116-326 | text to meaning: every legal spelling of a program nested less than 128 deep, with at most 8 arguments, 192 names of at most 63 characters and 2047 tokens, lexes and evaluates to the value and variable store the program means |
| MilkProgram.NiceProgram | src/plugins/milkdrop_expression.c:116-180 | every printed program has a text form |
| MilkProgram.SpacedIsLegal | src/plugins/milkdrop_expression.c:122-126 | printed programs with blanks between their tokens are legal spellings |
| MilkProgram.UnsetIsZero | src/plugins/milkdrop_expression.c:79-107 | reading a variable, which creates it, cannot be observed: unset and zero are the same |
| MilkCalls.IfSelects | src/plugins/milkdrop_expression.c:270-270 | `if` evaluates all three arguments in order; its value is the second if the first is larger than 0.00001 in magnitude and the third otherwise |
| MilkCalls.Trigonometry | src/plugins/milkdrop_expression.c:246-252 | the angle functions, arguments of asin and acos clamped to [-1, 1], atan2 with its arguments in order |
| MilkCalls.Powers | src/plugins/milkdrop_expression.c:253-262 | pow, the logarithms and sqrt on magnitudes, exp on an argument cut at 80, sqr, the exponent of pow second |
| MilkCalls.Rounding | src/plugins/milkdrop_expression.c:258-265 | abs, min, max, floor, ceil and int are the C functions on the arguments in order |
| MilkCalls.Comparisons | src/plugins/milkdrop_expression.c:271-273 | above and below are 1 or 0 by the order of their arguments, equal by whether they differ by less than 0.00001 |
| MilkCalls.Logic | src/plugins/milkdrop_expression.c:274-276 | band and bor are 1 or 0 by whether both, or one, of the arguments is larger than 0.00001 in magnitude, bnot by whether the argument is smaller |
| MilkCalls.Sign | src/plugins/milkdrop_expression.c:261-261 | sign is 1, -1 or 0 |
| MilkCalls.Random | src/plugins/milkdrop_expression.c:267-267 | rand is the next draw times the argument if that is positive, and the draw itself times one otherwise |
| MilkCalls.Sigmoid | src/plugins/milkdrop_expression.c:268-268 | sigmoid is one over one plus the exponential of the negated first argument times the second |
| MilkCalls.OnlyRandDraws | src/plugins/milkdrop_expression.c:245-276 | rand moves the random source on by one draw, no other function does, and no call changes a variable beyond what its arguments do |
| MilkCalls.UnknownIsZero | src/plugins/milkdrop_expression.c:230-276 | a call of a name that is no function is zero |
| MilkCalls.MissingIsZero | src/plugins/milkdrop_expression.c:245-245 | missing arguments count as zero |
| MilkCalls.FourthUnused | src/plugins/milkdrop_expression.c:239-245 | a fourth and later argument is evaluated, with its effects, and not used; for rand, whose draw comes after it, nothing is said |
| MilkCalls.FmodAndAvg | src/plugins/milkdrop_expression.c:266-269 | fmod is the % operator, and avg half the sum |
| MilkCalls.ProductValue | src/plugins/milkdrop_expression.c:210-222 | a product, quotient or remainder takes the right side after the left one; division and remainder by zero are zero |
| MilkCalls.QuietLaws | src/plugins/milkdrop_expression.c:262-272 | for an expression that neither assigns nor draws, sqr(e) is e*e, and above and below are each other's mirror |
| MilkCalls.UpdateIsSet | src/plugins/milkdrop_expression.c:294-305 | x op= e means x = x op (e) whenever e does not assign x |
| MilkCalls.UpdateValue | src/plugins/milkdrop_expression.c:294-305 | a compound assignment combines the variable, read after the right side, with it, in this order, and stores the result; division by zero stores zero |
| MilkCalls.UpdateReadsLate | src/plugins/milkdrop_expression.c:294-305 | x += (x = v) gives v + v, the case in which the two differ |
| MilkMachine.Evaluator.EvalAssign | src/plugins/milkdrop_expression.c:285-310 | the recursive-descent evaluator, working on a cursor, a depth and the table, computes the specified value, store and position and restores the depth |
| MilkMachine.Evaluator.AssignTo | src/plugins/milkdrop_expression.c:290-293 | assignment at the `=` token stores the right side |
| MilkMachine.Evaluator.UpdateTo | src/plugins/milkdrop_expression.c:294-305 | compound assignment reads the variable after the right side |
| MilkMachine.Evaluator.EvalAdd | src/plugins/milkdrop_expression.c:191-201 | the additive loop |
| MilkMachine.Evaluator.EvalMul | src/plugins/milkdrop_expression.c:210-222 | the multiplicative loop |
| MilkMachine.Evaluator.EvalUnary | src/plugins/milkdrop_expression.c:203-209 | the sign cases |
| MilkMachine.Evaluator.EvalPrimary | src/plugins/milkdrop_expression.c:223-284 | primaries; at depth 128 the value is 0 and nothing is consumed |
| MilkMachine.Evaluator.EvalLeaf | src/plugins/milkdrop_expression.c:231-279 | numbers, variables and skipped tokens |
| MilkMachine.Evaluator.EvalParen | src/plugins/milkdrop_expression.c:232-235 | parentheses, the closing one optional |
| MilkMachine.Evaluator.EvalCall | src/plugins/milkdrop_expression.c:236-277 | calls with optional parentheses |
| MilkMachine.Evaluator.EvalArgs | src/plugins/milkdrop_expression.c:239-243 | the argument loop |
| MilkMachine.Evaluator.Invoke | src/plugins/milkdrop_expression.c:245-276 | the function table; `rand` advances the random source by one draw |
| MilkMachine.Evaluator.EvalProgram | src/plugins/milkdrop_expression.c:311-326 | the statement loop, each statement starting at depth 0 |
| MilkMachine.Evaluator.constructor | src/plugins/milkdrop_expression.c:327-333 | evaluation takes over at the position and depth of the lexer |
| MilkMachine.Run | src/plugins/milkdrop_expression.c:311-333 | lexing a text afresh and evaluating it leaves the value and variables the specification gives its tokens |
| MilkMachine.Replay | src/plugins/milkdrop_expression.c:327-333 | evaluating a lexed text gives the outcome of its tokens from the start, wherever earlier evaluations left the lexer's position and depth, and keeps the tokens |
| MilkMachine.ReplayAgrees | src/plugins/milkdrop_expression.c:327-333 | replaying on a used lexer and lexing the text again, from equal variables, end with equal values and variables |
| Watches.DecodeExactly | src/ipc/query_events.c:100-107 | accepted are exactly the words of legal watches, as the watches they stand for; the rest is refused for one of the request's reasons |
| Watches.MergeKeys | src/ipc/query_events.c:55-69 | merging keeps one entry per key and adds just the new key |
| Watches.MergeMask | src/ipc/query_events.c:59-69 | merging ORs the masks of one pid and changes no other |
| Watches.UnionSpec | src/ipc/query_events.c:59-69 | the union has exactly the keys asked for, each once, with masks ORed |
| Watches.MaskBits | src/ipc/query_events.c:59-69 | a bit is in the merged mask of a pid exactly if some watch of that pid asks for it |
| Backend.ApplyCovered | src/ipc/query_events.c:75-94 | whatever fails, applying a union leaves the backend within the two unions |
| Backend.RemovalsSpec | src/ipc/query_events.c:75-85 | the removal half takes away exactly what is no longer wanted; removing any parent flushes the pid map |
| Backend.ReapplySpec | src/ipc/query_events.c:86-94 | the re-apply half succeeds exactly if every watch is applicable and the parents fit, and then all are applied |
| Backend.ApplySpec | src/ipc/query_events.c:75-94 | applying a union succeeds exactly when the backend can hold it and the write probe is attached, and then the backend holds exactly that union |
| Backend.FdLost | src/platform/fdmon_ebpf.c:1021-1065 | a concrete union in which a single descriptor of a watched parent is lost |
| Backend.TracedExactly | src/platform/fdmon_ebpf.c:1021-1065 | for a watched parent a descriptor stays traced exactly if its mask has it or it is applied after the parent |
| Backend.BitTaken | src/platform/fdmon_ebpf.c:929-957 | removing a descriptor clears its bit for its process and no other, and leaves no empty entry |
| Registry.SwitchOrRestore | src/ipc/query_events.c:114-122 | from one union to the next, or by the diff run backwards to the previous one, with the exact condition for success |
| Registry.ReplaceAt | src/ipc/query_events.c:95-125 | replacing one owner: success exactly if the backend can hold the new union; otherwise owners, parent table and orphan flag are as before |
| Registry.ReplaceAtomic | src/ipc/query_events.c:95-125 | every request keeps owners and backend in step, refused ones change neither owners, parent table nor flag, and one that reaches the backend asks for exactly the watches its words spell |
| Registry.DecodeAllExactly | src/ipc/query_events.c:96-107 | a request decodes exactly to the list whose words it spells, in order, and is refused exactly if one of its words is illegal |
| Registry.ReplyExactly | src/ipc/query_events.c:95-125 | bad, unsupported and busy are answered each exactly under its condition; after an accepted request the owner's slot spells the words sent, and no other slot changed |
| Registry.BackendTraces | src/ipc/query_events.c:59-125 | in step: which descriptors of a process are traced, from the words of all owners |
| Registry.ReplaceRefused | src/ipc/query_events.c:95-113 | malformed, unsupported and busy requests leave everything as it was |
| Registry.BackendIsUnion | src/ipc/query_events.c:59-125 | in step: the parent table is the OR of all owners' masks per pid and the orphan flag is set exactly if some owner asks for it |
| Registry.FewerFeasible | src/ipc/query_events.c:126-133 | fewer watches are never harder to hold |
| Registry.DropSucceeds | src/ipc/query_events.c:126-133 | dropping an owner never fails, frees its slot and changes no other |
| Registry.BusyOnlyWhenFull | src/ipc/query_events.c:110-113 | busy is answered only while sixteen other owners hold watches |
| RegistryServer.TableSwapRemove | src/platform/fdmon_ebpf.c:1093-1102 | removing a parent by moving the last one into its place removes exactly that pid |
| RegistryServer.Ebpf.AddPidFd | src/platform/fdmon_ebpf.c:905-928 | adds one descriptor bit to the pid's map entry or refuses |
| RegistryServer.Ebpf.RemovePidFd | src/platform/fdmon_ebpf.c:929-957 | clears one bit and deletes an entry that becomes empty |
| RegistryServer.Ebpf.EnterParent | src/platform/fdmon_ebpf.c:1042-1064 | changes a parent's mask or appends it while there is room |
| RegistryServer.Ebpf.DropParent | src/platform/fdmon_ebpf.c:1093-1102 | takes one parent out of the table |
| RegistryServer.Ebpf.WatchParent | src/platform/fdmon_ebpf.c:1021-1065 | overwrites the pid's map entry, then enters the parent, even when the table turns out full |
| RegistryServer.Ebpf.UnwatchParent | src/platform/fdmon_ebpf.c:1067-1103 | flushes the whole pid map and removes the parent |
| RegistryServer.Ebpf.OrphanEnable | src/platform/fdmon_ebpf.c:982-1004 | sets orphan mode once the write probe is attached |
| RegistryServer.Ebpf.OrphanDisable | src/platform/fdmon_ebpf.c:1005-1012 | clears orphan mode |
| RegistryServer.Registrations.CollectUnion | src/ipc/query_events.c:59-69 | the nested loops compute the union of all owners, within 16·128 watches |
| RegistryServer.Registrations.ApplyUnion | src/ipc/query_events.c:75-94 | the two loops apply the diff, stopping at the first failure |
| RegistryServer.Registrations.Replace | src/ipc/query_events.c:95-125 | the whole request on the real tables, with rollback; after an accepted one the owner's slot holds the watches the words spell |
| RegistryServer.Registrations.FindSlot | src/ipc/query_events.c:110-113 | the owner's own slot, else the first free one |
| RegistryServer.Registrations.Drop | src/ipc/query_events.c:126-133 | the drop on the real tables leaves no slot with that owner |
| ControlProtocol.EditSpec | src/ipc/query_fdmon.c:134-152 | an edit keeps the list free of repeats and within 128, touches only its own entry and is refused only when full |
| ControlProtocol.SameEntryIsSameKey | src/ipc/query_events.c:55-58 | the client's and the server's notion of the same registration agree: kind and process, and for single descriptors the descriptor |
| ControlProtocol.RegisteredAfter | src/ipc/query_events.c:95-125 | a replacement changes what its own connection registered and nobody else's |
| ControlProtocol.SlotForLive | src/ipc/query_server.c:63-72 | with 16 connections and 16 slots a live connection always finds one |
| ControlProtocol.NeverBusy | src/ipc/query_events.c:95-125 | a control request on a live connection is never answered with busy |
| ControlProtocol.OnlyIllegalIsBad | src/ipc/query_events.c:95-108 | a delivered list is refused as malformed exactly if one of its entries is illegal |
| ControlProtocol.StepInv | src/ipc/query_fdmon.c:23-40 | edits, connects, sends, deliveries, disconnects and closes keep the protocol invariant |
| ControlProtocol.RunInv | src/ipc/query_fdmon.c:23-80 | the invariant holds after every run |
| ControlProtocol.ServerHoldsSomeRevision | src/ipc/query_fdmon.c:23-40 | after every run the server's watches for a live connection are none or spelled by a list its client once had, and owners are live tickets |
| ControlProtocol.ServerCatchesUp | src/ipc/query_fdmon.c:23-40 | once the current revision was sent, the channel is drained and the list was accepted, the server's watches are those the client's list spells |
| ControlProtocol.AcceptedInOrder | src/ipc/query_fdmon.c:23-40 | a connection never goes back to an older revision |
| ControlProtocol.RevisionsAreEdits | src/ipc/query_fdmon.c:134-152 | after every run a client's revisions are the lists its own edits made, one after another |
| ControlClient.Remote.Control | src/ipc/query_fdmon.c:134-152 | the search, swap-remove and append on the real list do the specified edit; the revision moves exactly when the list was written |
| ControlClient.Remote.SendControls | src/ipc/query_fdmon.c:23-40 | the whole list goes out unless this revision was already sent |
| Jobs.StepInv | src/ipc/query_server.c:88-144 | every step of either thread keeps slots, clients and deliveries consistent |
| Jobs.OneWaiter | src/ipc/query_server.c:201-218 | no two clients name the same slot |
| Jobs.DeliveredRightAndOnce | src/ipc/query_server.c:88-144 | under every interleaving a delivery answers one request: the step that asked, on that connection, with its type, id, process and needs, and the outcome the worker finished for it; no request is answered twice |
| Jobs.RequestsAreAsked | src/ipc/query_server.c:201-218 | the requests that took a slot are exactly those clients made, in order, with connection, type, id, process and needs as asked |
| Jobs.ResultsAreFinished | src/ipc/query_server.c:104-137 | every result in a slot or delivered is one the worker finished while it held that request |
| Jobs.RunningUntouched | src/ipc/query_server.c:104-136 | no step of the socket thread changes a running slot's request |
| Jobs.ReapFrees | src/ipc/query_server.c:259-273 | a finished slot is free after reaping, also when its client is gone |
| Jobs.ReapSlotDelivers | src/ipc/query_server.c:259-273 | a waiting client gets its result when its slot is reaped; if none waits, nobody does |
| Jobs.PickCloser | src/ipc/query_server.c:97-105 | each start of another job brings the scan strictly closer to a queued one |
| Jobs.AtMostFifteenOthers | src/ipc/query_server.c:97-105 | a queued job starts after at most fifteen others, whatever is queued meanwhile |
| JobsServer.JobServer.PickJob | src/ipc/query_server.c:97-105 | the circular scan takes the first queued slot |
| JobsServer.JobServer.FinishJob | src/ipc/query_server.c:136-137 | storing a result completes the running slot |
| JobsServer.JobServer.EnqueueJob | src/ipc/query_server.c:201-218 | a request takes the first free slot with the connection's ticket, its type, id, process and needs; busy exactly when there is none |
| JobsServer.JobServer.ReapJobs | src/ipc/query_server.c:259-273 | reaping delivers or discards every finished slot |
| JobsServer.JobServer.ReapOne | src/ipc/query_server.c:262-271 | one slot of that loop |
| Wire.RoundTrip32 | src/ipc/ipc_wire.c:28-54 | big-endian words are read back |
| Wire.RoundTrip32Bytes | src/ipc/ipc_wire.c:28-54 | four bytes are the word they decode to |
| Wire.BigEndian32 | src/ipc/ipc_wire.c:28-32 | the first of the four bytes is the most significant |
| Wire.BigEndian64 | src/ipc/ipc_wire.c:33-36 | the high word comes first |
| Wire.HeaderBytes | src/ipc/ipc_wire.c:92-97 | magic EVM1, version 1, type, id and size stand in this order |
| Wire.Read64 | src/ipc/ipc_wire.c:33-59 | 64-bit words are read back, high half first |
| Wire.ReadFixed | src/ipc/ipc_wire.c:43-90 | a string shorter than the capacity is read back |
| Wire.WrittenFixed | src/ipc/ipc_wire.c:67-90 | whatever is accepted as a string stood there as a written string without zero bytes |
| Wire.Writer.PutBytes | src/ipc/ipc_wire.c:13-27 | appends exactly the bytes, or fails for good exactly when the 32 MiB limit would be passed |
| Wire.Writer.PutU32 | src/ipc/ipc_wire.c:28-32 | appends a word |
| Wire.Writer.PutU64 | src/ipc/ipc_wire.c:33-36 | appends a double word |
| Wire.Writer.PutText | src/ipc/ipc_wire.c:43-48 | appends a length-prefixed string |
| Wire.Reader.TakeU32 | src/ipc/ipc_wire.c:49-54 | reads a word or fails for good |
| Wire.Reader.TakeU64 | src/ipc/ipc_wire.c:55-59 | reads a double word or fails for good |
| Wire.Reader.TakeFixed | src/ipc/ipc_wire.c:67-90 | refuses strings that are too long, run past the end or hold a zero byte |
| Wire.Reader.Done | src/ipc/ipc_wire.c:91-91 | done exactly if no error occurred and every byte was read |
| Wire.HeaderRoundTrip | src/ipc/ipc_wire.c:92-107 | a written header is read back |
| Wire.HeaderOnlyWritten | src/ipc/ipc_wire.c:98-107 | only written headers are accepted |
| Framing.ParseMore | src/ipc/query_server.c:224-238 | more bytes never change the frames already complete |
| Framing.ParseStream | src/ipc/query_server.c:224-238 | the bytes of a list of frames parse to that list |
| Framing.StepInput | src/ipc/query_server.c:224-238 | each read, split anywhere, keeps dispatched requests equal to the frames of the bytes received, and the buffer within bounds |
| Framing.StepOutput | src/ipc/query_server.c:239-249 | each write keeps the bytes sent whole replies and a prefix of the current one |
| Framing.StepAnswers | src/ipc/query_server.c:201-273 | each step keeps answers matched to requests by position and id, one still missing while the inspector works |
| Framing.OutputParses | src/ipc/query_server.c:73-79 | a client parsing the bytes sent finds exactly the replies, each header announcing its body's length, and the start of the current one |
| Framing.EveryRun | src/ipc/query_server.c:224-294 | for every way the socket splits reads and writes the requests dispatched are exactly the frames of the bytes received, the bytes sent parse to exactly the frames written, and the answers among them answer the requests one by one in order, each under its request's id, with the body given for it, of the request's type or, where handling failed, of the error type |
| Framing.PushBetweenRequests | src/ipc/query_server.c:276-294 | a pushed frame never discards a partly received request |
| FramingServer.Connection.Load | src/ipc/query_server.c:73-79 | a frame goes out with type, id and body length in its header; the request buffer starts over |
| FramingServer.Connection.Respond | src/ipc/query_server.c:73-87 | an answer goes to the request last read |
| FramingServer.Connection.FinishJob | src/ipc/query_server.c:259-273 | the inspector's result is sent as the answer to the request that waits |
| FramingServer.Connection.PushFrame | src/ipc/query_server.c:276-294 | a pushed frame starts between requests |
| FramingServer.Connection.ReadRequest | src/ipc/query_server.c:224-238 | one recv of any size on the real buffer |
| FramingServer.Connection.Dispatch | src/ipc/query_server.c:237-237 | a complete request is dispatched once |
| FramingServer.Connection.Fill | src/ipc/query_server.c:227-232 | received bytes land behind those already there |
| FramingServer.Connection.SendReply | src/ipc/query_server.c:239-249 | one send of any size, header first |
| Events.FrameRoundTrip | src/ipc/query_events.c:138-195 | the dispatcher publishes exactly the events that were encoded |
| Events.OnlyFrames | src/ipc/query_events.c:161-195 | nothing but an encoded frame is published |
| Events.WriteLayout | src/ipc/query_events.c:148-152 | the place of every field of a write |
| Events.ExecLayout | src/ipc/query_events.c:153-156 | the place of every field of an exec |
| Events.StepAccounted | src/ipc/query_events.c:27-39 | recording and encoding keep every event accounted for |
| Events.EveryEventAccounted | src/ipc/query_events.c:138-160 | over every interleaving, frame by frame, dropped plus delivered is newest minus old cursor, and nothing is dropped within 256 events |
| Events.OneFrameEach | src/ipc/query_events.c:138-160 | each event after the start belongs to exactly one frame, delivered in its place or counted as dropped |
| Events.GivenIsRecorded | src/ipc/query_events.c:27-39 | over every run what is recorded is what was given, in order |
| Events.GivenOnceEach | src/ipc/query_events.c:138-160 | so each event given to a fresh subscription is in one frame only, delivered in its place with its own fields or counted as dropped |
| Events.ClippedIs | src/ipc/query_events.c:33-37 | a write keeps its fields and its first 4096 bytes, an exec is kept whole |
| Events.FitsUnchanged | src/ipc/query_events.c:33-37 | nothing else of an event changes: one of at most 4096 bytes is recorded as given |
| EventServer.EventRing.Record | src/ipc/query_events.c:27-39 | recording appends the event to the history the ring represents, cut to 4096 bytes, overwriting only the oldest slot |
| EventServer.EventRing.Encode | src/ipc/query_events.c:138-160 | the encoded frame is the specified one and always fits the buffer limit |
| EventServer.Dispatch | src/ipc/query_events.c:161-195 | the whole frame is decoded before anything is published |
| Steam.MarkedInTurn | src/core/monitor.c:1179-1233 | in pass k a process whose parent chain to a recognised one has fewer than k child-before-parent inversions is marked when its turn comes |
| Steam.MarkedAfter | src/core/monitor.c:1179-1233 | so it is marked after pass k |
| Steam.OnlyChains | src/core/steam.c:614-637 | whatever is marked after pass k has a chain with at most k-1 inversions and carries the record of its end |
| Steam.ParentIs | src/core/monitor.c:1187-1202 | the parent used is the first of the 8192 entered processes whose pid is the process's positive ppid |
| Steam.RecordExactly | src/core/steam.c:614-637 | a process newly marked in a pass takes its parent's record if the parent was marked by then, and its own otherwise |
| Steam.MarkedExactly | src/core/monitor.c:1179-1233 | after pass k the marked processes are exactly those with a parent chain to a recognised one with at most k-1 child-before-parent inversions |
| Steam.QuietMeansClosed | src/core/monitor.c:1231-1233 | after a pass that finds nothing every chain's start is marked: the set is the inheritance closure |
| Steam.QuietExactly | src/core/monitor.c:1231-1233 | once a pass finds nothing the marked processes are exactly those with any such chain |
| Steam.QuietStays | src/core/monitor.c:1231-1233 | stopping after such a pass gives what all remaining passes would |
| SteamPasses.Inserted | src/core/monitor.c:1161-1177 | entering a process in the pid table keeps earlier processes of the same pid nearer their home |
| SteamPasses.BuildTable | src/core/monitor.c:1161-1177 | the table holds the first 8192 processes |
| SteamPasses.Lookup | src/core/monitor.c:1187-1202 | looking a pid up finds the first process entered with it, or proves there is none |
| SteamPasses.RunPass | src/core/monitor.c:1180-1230 | one pass over the table, in order, marks what the specification marks and counts zero exactly if nothing changed |
| SteamPasses.MarkAll | src/core/monitor.c:1161-1237 | at most four passes with early exit mark exactly the processes with a chain of at most three inversions, each with the record of its chain; if a pass found nothing, all with any chain |
| WatchSet.OneMoreRoot | src/platform/fdmon.c:764-787 | a walk that starts from the least set of some roots ends with the least set for one root more |
| WatchSet.LeastUnique | src/platform/fdmon.c:764-787 | there is only one least set |
| WatchSet.DescendantsIn | src/platform/fdmon.c:265-287 | every descendant of a root is in it |
| WatchSet.RoomInQueue | src/platform/fdmon.c:279-280 | the queue guard never drops a descendant |
| WatchSetServer.PidSet.Lower | src/platform/fdmon.c:58-68 | binary search |
| WatchSetServer.PidSet.Contains | src/platform/fdmon.c:70-74 | membership |
| WatchSetServer.PidSet.Add | src/platform/fdmon.c:76-95 | adds one pid, keeping the array strictly sorted |
| WatchSetServer.PidSet.Remove | src/platform/fdmon.c:97-106 | removes one pid, keeping the array strictly sorted |
| WatchSetServer.ScanChildren | src/platform/fdmon.c:273-283 | one turn of the queue adds and queues the unwatched children of one process |
| WatchSetServer.EnumerateDescendants | src/platform/fdmon.c:265-287 | on any table, cyclic or not, the walk ends with the least set containing what was watched and the root and closed under children of the root and of newly watched processes |
| WatchSetServer.Monitor.Refresh | src/platform/fdmon.c:774-787 | rebuilding gives the least set containing the roots and closed under "child of" |
| WatchSetServer.Monitor.Watch | src/platform/fdmon.c:712-740 | adds a root and its descendants, or refuses |
| WatchSetServer.Monitor.Unwatch | src/platform/fdmon.c:742-772 | removes a root and rebuilds from those left, or refuses and changes nothing |
| Counters.SubmitSums | src/platform/fdmon.c:366-376 | submitted bytes go to the right process and direction, once |
| Counters.LatchSums | src/platform/fdmon.c:406-434 | a latch reports exactly what was not reported before |
| Counters.SubmitFindable | src/platform/fdmon.c:349-364 | every process entry stays on its own probe path |
| Counters.ReadIsSum | src/platform/fdmon.c:378-404 | the process table has one entry per process, so reading it gives the process's sum |
| Counters.FreeFinds | src/platform/fdmon.c:436-475 | with a free slot left no event is lost, whatever the socket keys |
| Counters.ReachesOwn | src/platform/fdmon.c:436-491 | an event reaches an entry of its own process and socket and changes no other |
| Counters.NotShared | src/platform/fdmon.c:436-475 | two sockets with inodes share an entry only if process and inode agree |
| CounterRuns.Conservation | src/platform/fdmon.c:406-491 | over every run that leaves both tables a free slot, reported deltas plus unlatched bytes equal all bytes submitted, per process and summed over its sockets |
| CounterRuns.EntryConservation | src/platform/fdmon.c:406-491 | over every run, full tables included, for every entry of either table reported deltas plus unlatched bytes equal the bytes submitted to it, which are its total |
| CounterRuns.OneEntryPerSocket | src/platform/fdmon.c:436-491 | once a socket's events reach an entry, they reach that entry for the rest of every run |
| CounterRuns.SocketsSumToProcess | src/platform/fdmon_ebpf.c:385-396 | whenever no event is half submitted a process's socket counts add up to its own count |
| CounterRuns.LatchReports | src/platform/fdmon.c:378-434 | right after a latch a reader sees what was submitted since the one before |
| CounterServer.FindOrCreate | src/platform/fdmon.c:349-364 | probing finds the matching entry or takes the first empty slot |
| CounterServer.SubmitTo | src/platform/fdmon.c:366-376 | one submission on the real table |
| CounterServer.LatchTable | src/platform/fdmon.c:406-434 | the latch loop |
| CounterServer.NetCounters.SubmitNet | src/platform/fdmon.c:366-376 | first half of an event |
| CounterServer.NetCounters.SubmitSock | src/platform/fdmon.c:477-491 | second half of an event |
| CounterServer.NetCounters.Snapshot | src/platform/fdmon.c:406-434 | both tables latched together, possibly between the halves of an event |
| CounterServer.NetCounters.Get | src/platform/fdmon.c:378-404 | the last latched deltas of a process, found exactly if something was ever counted for it |
| Strings.PushReads | src/core/proc.h:138-167 | a stored string is read back and all earlier ones still read the same |
| Strings.StringTable.Store | src/core/proc.h:138-167 | appends the string with its terminator, or gives offset 0 when empty or out of room; capacity doubles without overflow |
| Strings.StringTable.constructor | src/core/proc.h:113-122 | starts with the empty string at offset 0 |
| SnapshotWire.ReadSteam | src/ipc/query_snapshot.c:21-44 | a Steam record, present or absent, is read back |
| SnapshotWire.ReadsRow | src/ipc/query_snapshot.c:45-95 | wherever it stands a row is read back if its pids are legal, its history fits and its numbers are finite, and refused otherwise |
| SnapshotWire.RowSize | src/ipc/query_snapshot.c:164-166 | no row takes fewer than 300 bytes |
| SnapshotWire.BlankSize | src/ipc/query_snapshot.c:164-166 | a blank row takes exactly 300 bytes |
| SnapshotWire.RowLayout | src/ipc/query_snapshot.c:45-59 | the place of every field of a row |
| SnapshotWire.CountsLayout | src/ipc/query_snapshot.c:48-51 | the order of its counts |
| SnapshotWire.RatesLayout | src/ipc/query_snapshot.c:52-52 | the order of its rates |
| SnapshotWire.NamesLayout | src/ipc/query_snapshot.c:55-57 | the order of its strings |
| SnapshotWire.SteamLayout | src/ipc/query_snapshot.c:21-30 | the order of a Steam record's fields |
| SnapshotWire.SystemLayout | src/ipc/query_snapshot.c:7-13 | the place of every system value |
| SnapshotWire.FrameLayout | src/ipc/query_snapshot.c:135-149 | the place of every field of a frame's head, the row count and the rows |
| SnapshotWire.RowsFit | src/ipc/query_snapshot.c:164-166 | so the count test never refuses encoded rows |
| SnapshotWire.GetFrame | src/ipc/query_snapshot.c:151-174 | an accepted frame has legal times and at most as many rows as it announces |
| SnapshotWire.FrameRoundTrip | src/ipc/query_snapshot.c:122-190 | decoding an encoded frame gives the frame if its times, pids and numbers are legal, and nothing otherwise |
| Snapshot.AddRow | src/ipc/query_snapshot.c:66-95 | adding an entry, its strings and its Steam record adds one row and changes none before it |
| Snapshot.SelectedIs | src/ipc/query_snapshot.c:97-121 | without a pid all rows are sent, with one the first row that has it, or none |
| SnapshotServer.Copy | src/ipc/query_snapshot.c:97-121 | the deep copy has the same rows, or the first row of the pid asked for |
| SnapshotServer.WriteRow | src/ipc/query_snapshot.c:45-59 | writes the row's bytes in order, or fails exactly past the limit |
| SnapshotServer.WriteSteam | src/ipc/query_snapshot.c:21-30 | writes the Steam record |
| SnapshotServer.Encode | src/ipc/query_snapshot.c:122-150 | the reply is the frame describing the state, with stamped rows; not found and not ready exactly when no row matches; internal error only past the limit |
| SnapshotClient.TakeNames | src/ipc/query_snapshot.c:81-88 | each string is read and stored; the string table never runs out of offsets |
| SnapshotClient.TakeRow | src/ipc/query_snapshot.c:66-95 | reads one row into the snapshot being built |
| SnapshotClient.SampleAge | src/ipc/query_snapshot.c:178-184 | the local sample time lies as far before the local clock as the sample lay before the sending, or is 0 when unknown or older than the clock |
| SnapshotClient.ShiftedClock | src/ipc/query_snapshot.c:178-184 | so it does not depend on the origin of the service's clock |
| SnapshotClient.Decode | src/ipc/query_snapshot.c:151-190 | publishes a whole frame, its sample as old on the local clock as it was when sent, or leaves the shared state untouched |
| SnapshotClient.Transfer | src/ipc/query_snapshot.c:122-190 | an encoded reply is accepted if and only if its times, pids and numbers are legal; the client then is connected, has the same rows, strings and Steam records, stamped with the service's instance, and the sample's age, and otherwise is untouched |
| Records.NoneSmaller | src/ipc/query_inspect.c:6-260 | no record is smaller than its layout's minimum |
| Records.BareIsSmallest | src/ipc/query_inspect.c:6-260 | the record of zeros and empty strings has exactly that size |
| Records.ReadArray | src/ipc/query_inspect.c:250-260 | the bytes-left test never refuses encoded records: only the count limit, the budget and numbers that are not finite can |
| Inspect.MinimumsRight | src/ipc/query_inspect.c:306-347 | each hard-coded minimum of both decoders is the size of the smallest record |
| Inspect.GetArrays | src/ipc/query_inspect.c:303-340 | accepted arrays and what is left of the budget make up the budget |
| Inspect.ReadArrays | src/ipc/query_inspect.c:261-340 | written arrays are read back if and only if they meet the count limit and the budget and their numbers are finite |
| Inspect.GetReport | src/ipc/query_inspect.c:296-350 | arrays of an accepted reply take at most 32 MiB |
| Inspect.ReportRoundTrip | src/ipc/query_inspect.c:261-350 | a reply is decoded as encoded if and only if its arrays meet the count limit and the budget and its numbers are finite |
| Inspect.InspectRoundTrip | src/ipc/query_inspect.c:261-350 | the same for the layouts and minimums built into the decoder |
| Inspect.ManyDescendantsRefused | src/ipc/query_inspect.c:250-260 | a reply with 65537 descendants fits a frame and is refused by the count limit |
| Inspect.ManyDescriptorsRefused | src/ipc/query_inspect.c:250-260 | a reply with 65536 file descriptors fits a frame and is refused by the budget |
| Inspect.GetGpu | src/ipc/query_gpu.c:46-98 | every accepted GPU process names an existing device |
| Inspect.GpuNamesDevices | src/ipc/query_gpu.c:75-98 | the device index of every accepted GPU process is that of a decoded device |
| Inspect.GpuRoundTrip | src/ipc/query_gpu.c:5-98 | a GPU reply is decoded as encoded |
| InspectServer.EncodeReport | src/ipc/query_inspect.c:261-295 | writes the reply, or fails exactly past the limit |
| InspectServer.TakeArray | src/ipc/query_inspect.c:250-260 | tests the count, takes the budget, reads the records |
| InspectServer.DecodeReport | src/ipc/query_inspect.c:296-350 | the decoder yields the specified reply or nothing |
| InspectServer.DecodeGpu | src/ipc/query_gpu.c:46-98 | the GPU decoder yields the specified reply or nothing |

## Left out

- MilkVars.VarTable.Get: for a name of exactly 63 characters to which a longer name was cut, does not say which of the two entries is found, because that depends on their hashes; setting and reading it still agree.
- Fft.FftDit: takes the roots of unity with their half-angle law as input and computes over exact reals; rounding, sine and cosine are not modelled, and the two arrays are distinct.
- RegistryServer.Ebpf.AddPidFd: does not model an update of the pid map that fails because the map is full, because the map is taken to never fill.
- RegistryServer.Ebpf.WatchParent: the eBPF pid map changes only by registration calls and never fills; fork, exec and exit changes and the 8192-entry limit are not modelled, nor the pid checks that decoding a request already makes.
- Steam.OnlyChains: the display label a child rebuilds from its own name is not part of the record, and a process's own recognition is the same in every pass.
- SteamPasses.MarkAll: marks sit in one array beside the process table, where the code keeps an index into a list of extras.
- WatchSetServer.Monitor.Refresh: one reading of the process table serves a whole rebuild; the code reads it once per root.
- CounterRuns.Conservation: counters are unbounded; wrap-around at 2^64 bytes is not modelled. The socket table is not a map per key, because a lookup without inode can match an entry that has one, so its sums per process are used.
- ControlProtocol.ServerCatchesUp: revisions, tickets and event sequence numbers are unbounded.
- MilkLex.Lexer.Run: a number token keeps its text, which the evaluator converts; the code converts while lexing.
- Running out of memory: allocation never fails, except for the string table's offset limit.
- Sockets, deadlines, peer credentials, shutdown flags and clocks beyond the local sample time of a decoded frame.
- Reading /proc, sysfs, D-Bus, PipeWire and nvtop, and the eBPF kernel programs.
- The file-descriptor event ring of the monitor: it would repeat the event ring with easier claims.
- The CPU and I/O history tables of the monitor: they would repeat the open-addressed tables already modelled.
- The other requests of the server (hello, host, signal, about): one branch each.
- GTK and Qt views, plugins, overlays, charts, sound analysis, art loading, desktop sessions: interface code.
