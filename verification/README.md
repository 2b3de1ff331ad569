# go-lua in Dafny

A model of the parts of go-lua, a Lua virtual machine, compiler and analysis front end
written in Go, that carry its hardest guarantees, with proofs that the guarantees hold for
every input, every run or every reachable state. `dafny verify dfyconfig.toml` checks the
whole project; it has no dependencies.

Operations that the Go code performs in place are methods of classes or methods with loops,
each proved equal to a specification function or to an outright postcondition. What Lua
promises is then proved about those functions and states.

- **Patterns** (`PatternSyntax`, `PatternSemantics`, `PatternCompiler`, `PatternMachine`,
  `PatternVM`, `PatternFind`, `PatternLanguage`, `Gsub`). A pattern tree denotes an ordered list
  of outcomes, which are exactly the matches in its language. The compiled program, on the
  explicit backtracking machine, returns exactly the first one; the number of backtracks equals
  the number of dead ends before it, so the backtrack limit is exact too. `string.gsub` is the
  untouched gaps with the replacements between them.
- **Tables** (`TableOrder`, `Table`, `LuaTable`, `TableRuns`, `Traversal`). Array part, string
  dictionary and general dictionary act as one finite map under every operation and over every
  sequence of operations, and `next` visits every key that stays exactly once while fields are
  cleared or overwritten.
- **Strongly connected components** (`Scc`). Tarjan's algorithm with its stack, low links and
  recursion.
- **SSA versions** (`Dominance`, `PhiPlacement`, `SsaSpec`, `SsaRename`, `Ssa`,
  `SsaVersions`). Phi placement by worklist, renaming over the dominator tree, which version is
  current where, and what every control-flow edge carries.
  Dominator tree and frontiers are inputs; the facts about dominance are proved from paths.
- **Conditions and jumps** (`Conditions`, `ConditionProof`, `ConditionCorrect`,
  `ConditionCompiler`, `ConditionLaws`, `PatchCode`, `PatchLimits`). Short-circuit conditions
  with labels and peephole pops, against the machine's instructions; then move fusing and jump
  threading.
- **Calls, captured variables, coroutines** (`Frames`, `Upvalues`, `UpvalueRuns`,
  `UpvalueCells`, `Coroutines`, `CoroutineDelivery`, `CoroutineRuns`).
- **Persistent map** (`Hamt`). The path-copying trie is a map for every hash function.
- **Codecs** (`PackBytes`, `Pack`, `PackFormats`, `Bytecode`, `BytecodeProof`,
  `BytecodeFormat`, `BytecodeFiles`, `QuotedStrings`, `StringEscapes`). Saved bytecode,
  `string.pack`, and `%q` text read back by the lexer.

Values are abstract, floating-point numbers are opaque 64-bit patterns, and errors are failure
results. Some predicates stand under a token (`forall t :: Token(t) ==> ...`): they say the
same as their body and are unfolded only where a proof asks for it.

Where code and promise part:

- `pm.Find` documents that it returns up to limit matches; a limit of 0 finds all
  matches (`PatternFind.LimitRespected` says exactly when the limit holds,
  `PatternFind.LimitZeroIgnored` is the input).
- Capture slots are 32 bits wide and hold twice the position, so a position comes back
  exactly below 2^31 (`PatternFind.MarkRoundTrip`). `Gsub.GsubWholeMatch` says exactly when
  `gsub` by `%0` still returns the subject, and `Gsub.GsubAnyWholeMatch` that for `.` it fails
  on every subject of 2^31 bytes or more.
- Jump threading reads the store it is patching, so a chain that goes back to a patched jump
  takes a distance for a label (`PatchCode.BackChainGoesWrong`). The patched code does what the
  code did if and only if every patched jump lands where the code's jumps lead
  (`PatchCode.PatchPreserves`), which a jump does whose chain never goes back
  (`PatchCode.ForwardLands`), and one that goes back if the distance happens to name a label at
  the right place (`PatchCode.BackChainMayGoRight`).
- `patchCode` raises "too long to jump" for a jump out of reach only if no distance was found
  before, and takes a distance of 0 for none. So it also fails for a jump to the next position
  where that one jumps just out of reach (`PatchLimits.ZeroJumpFails`;
  `PatchLimits.PatchSucceedsExactly` says when the pass succeeds).
- The upward loop of `CopyRange` repeats values when its target begins inside the range it
  reads (`Frames.MovesExactlyIf` says exactly when it does not); no caller modelled here does that.
- The first position outside the array range is kept in the dictionary, where the length
  does not look: with the whole array range filled the length need not be a border
  (`LuaTable.LenIsBorder` is exact, `LuaTable.FullTableHasNoBorder` the table).
- `Append` and `Insert` do not check the limit of the array range. What moves past it is
  lost, and exactly then (`LuaTable.LTable.Append`, `LuaTable.LTable.Insert`, with the table
  of `LuaTable.AppendToFilledRange`).
- A back reference to a capture that is still open does not always fail: the missing end is
  padded with 0 when a later capture is written, so a capture opened at position 0 then reads
  as empty (`PatternFind.OpenReference` is exact). `((a)%1)` matches `a` at the start of a
  subject and nowhere else (`PatternFind.SelfReference`).
- `string.unpack` reads a signed integer of size 0 from the byte behind it in big endian order,
  and panics otherwise. It comes back exactly if that byte has its sign (`Pack.PackRoundTrip`
  with `Pack.Fits` is exact for all options, `Pack.SignedZero` gives inputs of each kind).
  Strings whose 8-byte length is 2^63 or more do not come back.
- `coroutine.resume` checks only that its thread is neither running nor dead, and the
  continuation by which a thread goes on with the thread it waited for checks nothing. So even
  if every call to resume is of a suspended thread, a dead thread can become the running one
  (`CoroutineRuns.DeadThreadRuns`) and resumers can form a circle
  (`CoroutineRuns.ResumersFormCircle`). Over a whole run the resumers form a chain if and only
  if whatever is resumed is suspended, continuations included (`CoroutineRuns.RunKeepsExactly`).
- A point whose only successor is itself sends its phi no operand; `Ssa.EdgeIntoPhi` states
  exactly which edges carry one.
- `Insert` in the middle of a table shifts the array part only; `LuaTable.LTable.Insert` says
  what the map is then.

## Model

| member | source | states |
|---|---|---|
| PatternSemantics.PatternTreeOutcomes | pm/pm.go:551-627 | for every pattern, subject and start, the search the code performs has exactly the ordered outcomes of the pattern: longest first for greedy repetitions, shortest first for `-`, nested captures in order |
| PatternSemantics.GreedyOutcomes | pm/pm.go:605-627 | trying one more byte before going on gives the runs of a class from the longest down, and no others |
| PatternSemantics.LazyOutcomes | pm/pm.go:605-627 | going on before trying one more byte gives the same runs from the shortest up |
| PatternSemantics.FirstIsHead | pm/pm.go:819-906 | the first live leaf of a search is the head of its outcome list |
| PatternSemantics.RunLength | pm/pm.go:761-790 | the run of a class from a position ends at its first byte outside the class |
| PatternLanguage.OutcomesAreLanguage | pm/pm.go:551-627 | for every pattern, subject and start, the outcomes of the search are exactly the stretches of the subject in the language of the pattern, each with its captures; the language is defined by what items match, without a search |
| PatternLanguage.MatchInLanguage | pm/pm.go:819-906 | a match attempt returns a match in the language; if at most 100000 attempts fail first, it returns one if and only if there is one, and if more do it returns none |
| PatternLanguage.LetterClasses | pm/pm.go:251-280 | the bytes of each class letter: letters, digits, spaces, control and punctuation characters |
| PatternLanguage.CapitalClasses | pm/pm.go:284-288 | a capital class letter is the complement of its letter |
| PatternLanguage.OtherCharacters | pm/pm.go:278-280 | any other character behind `%` stands for itself |
| PatternLanguage.SetClasses | pm/pm.go:222-308 | a set is the union of its classes, `^` the complement, a range all bytes between its ends; `.` is any byte |
| PatternLanguage.BraceBalances | pm/pm.go:908-928 | `%bxy` matches from an `x` exactly up to the first position with as many `y` as `x`, and `%bxx` up to the next `x` |
| PatternCompiler.InstructionBuilder.CompileItem | pm/pm.go:551-604 | appends the code of one item at the current address and takes exactly its capture slots |
| PatternCompiler.InstructionBuilder.CompileItems | pm/pm.go:551-604 | appends the code of the items one behind the other, with consecutive capture slots |
| PatternCompiler.InstructionBuilder.CompileRepeat | pm/pm.go:605-627 | appends the split and jump code of a repetition with its targets at absolute addresses |
| PatternCompiler.CompilePattern | pm/pm.go:551-604 | the program: save 0, the items, save 1 and the final match, anchored at the end if the pattern is |
| PatternMachine.ProgramWellFormed | pm/pm.go:551-627 | every target is inside the program, and every backward jump follows an instruction that consumes a byte |
| PatternMachine.StepDecreases | pm/pm.go:819-892 | each step of a well-formed program consumes a byte or lowers the rank of its address, so every run ends |
| PatternMachine.CodesCorrect | pm/pm.go:551-604 | the code of a list of items, wherever it stands, searches exactly the tree of the items before what follows |
| PatternMachine.LoopCorrect | pm/pm.go:605-627 | the loop of a repetition searches exactly the repetition tree, greedy or lazy |
| PatternMachine.ProgramCorrect | pm/pm.go:551-627 | the meaning of the compiled program is the search tree of the pattern, dead ends included |
| PatternVM.MatchBraceLoop | pm/pm.go:908-928 | the counting loop is the `%bxy` of the model, which `PatternLanguage.BraceBalances` states in terms of counts |
| PatternVM.Machine.MatchBackRefHere | pm/pm.go:929-950 | the method computes the back reference of the model: the slots of the capture, if both are there and in order within the subject, are compared with the text at the position |
| PatternFind.ReferenceCopies | pm/pm.go:929-950 | a back reference to a finished capture matches exactly a copy of its text, and ends behind it |
| PatternFind.OpenReference | pm/pm.go:929-950 | a back reference to a capture that is still open matches, and then nothing, if and only if the capture was opened at position 0 modulo 2^31 and an inner capture came after it |
| PatternFind.SelfReference | pm/pm.go:929-950 | the pattern `((a)%1)` matches `a` at the start of a subject and nowhere else |
| PatternVM.Machine.Execute | pm/pm.go:819-892 | one instruction does to pc, position, captures and stack what its meaning says |
| PatternVM.Machine.Backtrack | pm/pm.go:893-907 | takes the newest thread with its saved captures, unless there is none or the limit is passed |
| PatternVM.Machine.Run | pm/pm.go:819-906 | for every program in range, succeeds exactly if the search has an outcome within the backtrack limit, with the end and the captures of the first outcome; always terminates |
| PatternFind.MatchAtIsFirstOutcome | pm/pm.go:819-906 | a match attempt is the head of the pattern's outcome list unless the search passes the backtrack limit first |
| PatternFind.MarkRoundTrip | pm/pm.go:88-140 | a 32-bit slot gives a position back if and only if it is below 2^31; position captures are told apart by the low bit |
| PatternFind.PatternMatchGood | pm/pm.go:88-140 | in every match slots 0 and 1 are its bounds, every capture of the pattern has its two slots, and all are finished and within the subject |
| PatternFind.Find | pm/pm.go:952-988 | the loop over start positions returns the captures of all matches of the scan |
| PatternFind.FindStep | pm/pm.go:967-985 | one start position adds its match, if any, and the next start or the end of the scan is the right one |
| PatternFind.FindOrdered | pm/pm.go:952-988 | matches have increasing starts, do not overlap, are the matches at their starts, and have good captures |
| PatternFind.FindComplete | pm/pm.go:952-988 | without anchor and limit, every position where the pattern matches is the start of a reported match or inside one |
| PatternFind.FindAnchored | pm/pm.go:952-988 | a pattern that begins with `^` is tried at the first position only |
| PatternFind.FindLimit | pm/pm.go:952-988 | a positive limit cuts the list of all matches; any other limit returns the whole list |
| PatternFind.LimitRespected | pm/pm.go:952-988 | the number of matches stays within the limit if and only if the limit is positive or no attempt succeeds, at any start or, for a pattern that begins with `^`, at the first |
| PatternFind.LimitZeroIgnored | pm/pm.go:952-988 | with limit 0 the empty pattern still reports a match |
| Gsub.FlagScanner.Next | utils.go:46-96 | one scanner step keeps the text that the scanned and the unscanned part expand to |
| Gsub.ReplacementFor | stringlib.go:207-231 | the scanner loop expands `%d`, `%%` and plain text as specified, and fails on a capture the pattern does not have |
| Gsub.CaptureIndexValid | stringlib.go:191-231 | `%d` fails if the pattern has fewer than d captures, except `%1`, which is the whole match then; below 2^31 bytes it fails only then |
| Gsub.ExpandCapture | stringlib.go:179-231 | below 2^31 bytes `%d` is the text between the slots of capture d, or for a position capture the decimal numeral of its position; `%0`, and `%1` of a pattern without captures, is the whole match; any other d is an error |
| Gsub.ExpandPieces | stringlib.go:207-231 | a replacement string stands for its pieces one behind the other: `%%` is a percent sign, `%d` a capture, any other byte, alone or behind a percent sign, stands for itself |
| Gsub.DoReplace | stringlib.go:191-206 | the loop with a running offset yields the gaps interleaved with the replacements, or fails where a slice would be out of range |
| Gsub.StrGsub | stringlib.go:137-231 | result and count for every subject, pattern, replacement and limit; fails for a missing capture or a slice out of range |
| Gsub.GsubInOrder | stringlib.go:137-231 | below 2^31 bytes all replacements are in order and disjoint, so no slice is out of range |
| Gsub.ReplaceBySelf | stringlib.go:191-206 | replacing any ordered stretches by themselves gives the text back |
| Gsub.GsubWholeMatchIsIdentity | stringlib.go:137-231 | replacing every match of any pattern by `%0` returns every subject below 2^31 bytes |
| Gsub.GsubWholeMatch | stringlib.go:137-231 | for every subject it returns the subject if and only if the match bounds are in order modulo 2^31, and fails otherwise |
| Gsub.GsubAnyWholeMatch | stringlib.go:137-231 | for the pattern `.` it returns the subject if and only if that is shorter than 2^31 bytes |
| Scc.ComputeSCCs | internal/scc.go:18-52 | the lists partition all nodes; two nodes share one if and only if each reaches the other; an edge leads to the same or an earlier list; each list is strictly increasing, so it holds each node once |
| Scc.SccState.StrongConnect | internal/scc.go:54-106 | from any valid state, visits what is reachable, leaves the stack below as it was, and the low link bounds the edges that leave the segment |
| Scc.SccState.VisitSuccessor | internal/scc.go:70-82 | the three cases of a successor keep the invariant of the visit |
| Scc.SccState.PopComponent | internal/scc.go:84-97 | takes exactly the nodes above the root off the stack, from the top down, each once |
| Scc.SccState.Leave | internal/scc.go:84-106 | a root emits its segment as a component, any other node stays on the stack |
| Scc.SegmentConnected | internal/scc.go:84-97 | all nodes from the root upwards reach each other |
| Scc.EmitKeepsInv | internal/scc.go:84-106 | emitting the segment keeps the invariant: components are connected and closed below |
| Scc.ComponentsAreSccs | internal/scc.go:18-106 | emitted components are exactly the classes of mutual reachability, targets first |
| Hamt.GetIsAt | internal/hamt.go:217-247 | following the hash digits finds a key wherever the trie holds it, for any hash function |
| Hamt.LevelDigit | internal/hamt.go:232-243 | a level of the trie goes by one digit of the hash to the base 32 |
| Hamt.SetIsUpdate | internal/hamt.go:248-333 | changes the value of one key only, keeps every structural invariant, and the flag says whether the key is new |
| Hamt.DeleteIsRemoval | internal/hamt.go:334-383 | removes one key only, prunes empty children, keeps popcount equal to child count; a missing key gives the same node |
| Hamt.AddChildCorrect | internal/hamt.go:248-304 | a new child goes to the rank of its bit, and all other children keep theirs |
| Hamt.RemoveChildCorrect | internal/hamt.go:334-383 | taking a child out loses exactly its key |
| Hamt.ItemsDistinct | internal/hamt.go:396-412 | the iteration order lists no key twice |
| Hamt.ItemsAt | internal/hamt.go:396-412 | the iteration order lists exactly what lookup finds |
| Hamt.Iterate | internal/hamt.go:396-412 | calls the function on the items in order, up to and including the first that returns false |
| Hamt.GetIsLookup | internal/hamt.go:101-112 | `Get` is lookup in the finite map the trie stands for |
| Hamt.MapSetIsUpdate | internal/hamt.go:113-149 | `Set` is map update, with the size the number of keys |
| Hamt.MapDeleteIsRemoval | internal/hamt.go:150-170 | `Delete` is map removal, with the size the number of keys |
| Hamt.RunIsMap | internal/hamt.go:101-177 | every version that sets and deletes produce from the empty map, for every sequence of operations, equals the finite map of these operations in lookup, size and items |
| TableOrder.NormIdentifiesWhole | table.go:42-54 | integer and integral float keys with the same value have one stored form, and no other keys are identified |
| TableOrder.NormRange | table.go:42-54 | whole numbers from 1 to 67108863 are stored as floats, all others as integers |
| TableOrder.AddKeepsInv | table.go:192-225 | appending a slot or compacting keeps slots and index inverse to each other, and leaves at most twice as many slots as live hash keys |
| TableOrder.CompactKeepsInv | table.go:192-225 | compaction leaves one slot per live key |
| TableOrder.DeleteKeepsInv | table.go:178-191 | a deleted key keeps its position but not its slot |
| TableOrder.ForgetKeepsInv | table.go:226-237 | a deleted key that enters the array part loses its position |
| LuaTable.Squeeze | table.go:192-225 | the compacting loop keeps the filled slots in order and numbers them |
| LuaTable.LTable.RawSet | table.go:369-412 | for every key and value the three parts together are updated at one key, and the invariant holds; an immutable table is unchanged |
| LuaTable.LTable.RawSetInt | table.go:413-433 | the same for an integer key |
| LuaTable.LTable.RawSetString | table.go:513-534 | the same for a string key |
| LuaTable.LTable.RawSetHash | table.go:535-564 | a store in the dictionary with its slot list |
| LuaTable.LTable.SetSparseIntKey | table.go:434-462 | a position beyond the array part: one key of the map changes; the array part grows to the position if the value is not nil, the key is not in the dictionary and at most 32 positions lie between, and stays as it is otherwise |
| LuaTable.LTable.TakeHashed | table.go:477-492 | takes the next position out of the dictionary with its value |
| LuaTable.LTable.PullHashed | table.go:493-502 | moves positions over until the next one is not in the dictionary; the map stays the same |
| LuaTable.LTable.PullNext | table.go:493-502 | one position moves over, or there is none and pulling ends |
| LuaTable.LTable.RawGet | table.go:565-587 | lookup in the one map, for every key |
| LuaTable.LTable.GetIntKey | table.go:463-476 | lookup of a position, in the array part or the dictionary |
| LuaTable.LTable.Len | table.go:238-253 | the last filled position of the array part |
| LuaTable.LenIsBorder | table.go:238-253 | in every valid table the position at the length is filled (or the length is 0), and the next one is empty if and only if it lies in the array range or the dictionary does not have the first position outside it |
| LuaTable.FullTableHasNoBorder | table.go:238-253 | a valid table whose length is not a border: the whole array range and the first position outside it are filled |
| LuaTable.LTable.Append | table.go:254-283 | for every valid table the map gains the value behind the border if and only if that is in the array range (or the value was there); at its limit the map stays and the value is lost |
| LuaTable.AppendVisible | table.go:254-283 | after appending, the map has the value behind the border if and only if the position is below the maximum array index or had the value before |
| LuaTable.AppendToFilledRange | table.go:254-283 | the input: with the whole array range filled, what is appended cannot be read back |
| LuaTable.LTable.Insert | table.go:284-307 | for every valid table the positions from there to the border are shifted up, or it is a plain store outside them; the shifted map is right if and only if the last value stays in the array range (or was there) |
| LuaTable.InsertVisible | table.go:284-307 | at the limit of the array range an insertion loses exactly the last value |
| LuaTable.LTable.Remove | table.go:335-368 | the removed value, and the map with the later positions shifted down |
| LuaTable.LTable.EnsureIterationOrder | table.go:146-177 | builds the slot list once, for all dictionary keys, without changing the map |
| LuaTable.LTable.Next | table.go:657-696 | the next item of the array part or the slot list behind the key, or the end; the map stays |
| LuaTable.LTable.AddIterationKey | table.go:192-225 | the slot list with the key added, compacted when it is due |
| LuaTable.LTable.DeleteIterationKey | table.go:178-191 | the slot list with the slot of the key emptied |
| LuaTable.LTable.ForgetDeletedArrayKey | table.go:226-237 | the index without the deleted key, in both of its forms |
| TableRuns.Run | table.go:238-587 | any sequence of writes, appends, insertions, removals, lookups and `next` on a new table, until one writes behind the array range: the table shows the finite map of a plain table that inserts and removes by loops, with its answers, and every length is a border of that map |
| TableRuns.ShowsOne | table.go:565-587 | the lookups of a table determine that finite map |
| TableRuns.InsertShows | table.go:284-334 | the shift of the array part is the loop that moves every position of the map up by one |
| TableRuns.RemoveShows | table.go:335-368 | the removal is the loop that moves every later position of the map down by one |
| TableRuns.LengthIsBorder | table.go:238-253 | the length is a border of the map, below the limit of the array range |
| Traversal.NoKeyTwice | table.go:657-696 | under any interleaving of `next` with clearing or overwriting fields, no key is returned twice |
| Traversal.CursorKnown | table.go:657-696 | whatever was cleared since, `next` finds the place of the key it returned last |
| Traversal.StayingKeyReturned | table.go:657-696 | a key that keeps a value until the end was returned |
| Traversal.WalkEnds | table.go:657-696 | the number of returned keys is bounded by the positions at the start |
| Traversal.CursorStable | table.go:178-235 | clearing and overwriting never move a position |
| Traversal.PresentIsItem | table.go:146-177 | every key with a value is an item of the traversal |
| Dominance.ImmediateDominatorExists | compiler/cfg/ssa.go:262-268 | every reachable point but the entry has an immediate dominator, so the tree that renaming walks covers them |
| Dominance.SiblingsDisjoint | compiler/cfg/ssa.go:674-682 | subtrees of two children are disjoint, so no point is renamed twice |
| Dominance.InSomeSubtree | compiler/cfg/ssa.go:674-682 | every strictly dominated point lies in the subtree of a child |
| PhiPlacement.CollectDefPoints | compiler/cfg/ssa.go:82-168 | exactly the points that assign the symbol, and the entry for symbols declared before the code |
| PhiPlacement.PlaceSymbol | compiler/cfg/ssa.go:171-259 | the worklist with epoch marks places a phi exactly where a chain of visible frontier steps leads from a definition |
| PhiPlacement.PlacePhis | compiler/cfg/ssa.go:171-259 | the phi list of every point, for all symbols in order, each at most once |
| PhiPlacement.NeedsStep | compiler/cfg/ssa.go:205-245 | the points with phis are closed under frontier steps |
| PhiPlacement.NeedsLeast | compiler/cfg/ssa.go:205-245 | they are contained in every closed set: the least fixed point |
| SsaRename.Renamer.NewVersion | compiler/cfg/ssa.go:374-384 | a version with the next number of its symbol, on top of its stack |
| SsaRename.Renamer.PushAll | compiler/cfg/ssa.go:471-527 | versions for the phis, the seeded symbols and the targets of a point, in this order, each counted |
| SsaRename.Renamer.RecordVisible | compiler/cfg/ssa.go:529-650 | shared, patched or rebuilt, the recorded map agrees with the stack tops on every visible symbol |
| SsaRename.Renamer.PatchVersions | compiler/cfg/ssa.go:568-589 | a copy of the parent's map with exactly the pushed symbols brought up to date |
| SsaRename.Renamer.BuildVersions | compiler/cfg/ssa.go:590-650 | a map of the tops of all visible symbols, locals before globals |
| SsaRename.Renamer.SendOperands | compiler/cfg/ssa.go:652-672 | every phi of every successor gets the current top as operand, once for each edge, unless the point is its own sole successor |
| SsaRename.Renamer.Pop | compiler/cfg/ssa.go:684-694 | the stacks as they were before the pushes |
| SsaRename.Renamer.Rename | compiler/cfg/ssa.go:437-695 | visits exactly the subtree, keeps the invariant over all recorded points, and restores every stack |
| Ssa.ComputeVersions | compiler/cfg/ssa.go:18-728 | the whole pass leaves a complete result, and the final list of its phis, for every program with a correct dominator tree and frontiers |
| Ssa.EdgeWithoutPhi | compiler/cfg/ssa.go:171-695 | along every edge into a point without a phi of the symbol, the versions that leave are those that enter |
| Ssa.EdgeIntoPhi | compiler/cfg/ssa.go:652-672 | along every edge into a phi, the phi has an operand from the source if and only if a version leaves it (and it is not a sole self-loop), and it is that version, once for each edge |
| Ssa.OperandsFromPredecessors | compiler/cfg/ssa.go:652-672 | operands come from reachable predecessors only |
| Ssa.CollectPhis | compiler/cfg/ssa.go:718-728 | the loop over the points in order keeps the phis that have operands |
| Ssa.PhiKept | compiler/cfg/ssa.go:718-728 | the final list holds exactly the phis to which a reachable predecessor, not a sole self-loop, sends a version |
| Ssa.KeptOnce | compiler/cfg/ssa.go:718-728 | no phi stands in it twice: their targets are all different |
| Ssa.RecordedIsTop | compiler/cfg/ssa.go:529-650 | the recorded version of every visible symbol is the one on top of its stack there |
| Ssa.RecordedAcrossEdge | compiler/cfg/ssa.go:529-672 | where nothing is defined, recorded versions agree across an edge |
| Ssa.OneSite | compiler/cfg/ssa.go:374-527 | every version is made once in the whole program, by one phi, seeded symbol, assignment target or global function |
| Ssa.RecordedSites | compiler/cfg/ssa.go:471-527 | the versions recorded for phis and assignment targets are all different |
| SsaVersions.LeavesCurrent | compiler/cfg/ssa.go:471-527 | what is on top of the stack behind a point is the version the point makes last (its last assignment target, global function, declaration before the code, or its phi), or, if it makes none, what is current behind its immediate dominator |
| SsaVersions.CurrentUnique | compiler/cfg/ssa.go:471-527 | there is at most one such version |
| SsaVersions.RecordedIsCurrent | compiler/cfg/ssa.go:529-650 | the recorded version of a visible symbol is that one, and no other |
| SsaVersions.OperandIsCurrent | compiler/cfg/ssa.go:652-672 | a phi has from each predecessor that sends to it exactly the version that is current behind it |
| SsaVersions.DefinedExactly | compiler/cfg/ssa.go:730-742 | a point defines the names, and the bases of the fields and elements, that its statement assigns, a global function, and at the entry what is declared before the code |
| SsaVersions.VisibleNames | compiler/cfg/ssa.go:574-625 | a symbol is visible where its name means it: a local, or else a global; at most one of each name |
| ConditionCompiler.FuncContext.BranchCondition | compile.go:1029-1074 | emits exactly the code of the branch function, labels and dropped instructions included |
| ConditionCompiler.FuncContext.Comparison | compile.go:1677-1698 | emits the code of a comparison with folded operands and its jump |
| ConditionCompiler.FuncContext.Value | compile.go:1240-1353 | emits the code of an expression |
| ConditionCompiler.FuncContext.LogicalValue | compile.go:1710-1740 | emits the code of `and` and `or` as values |
| ConditionCompiler.FuncContext.Part | compile.go:1741-1832 | emits the code of an operand of `and` and `or`, outermost or nested |
| ConditionCompiler.FuncContext.FoldMove | compile.go:284-297 | drops a last move that may be dropped and uses its source |
| ConditionCompiler.FuncContext.FoldConstantOrMove | compile.go:262-283 | drops a last constant load or move that may be dropped |
| ConditionCompiler.FuncContext.LoadNilAt | compile.go:313-321 | extends a preceding load of nil or adds one |
| ConditionCompiler.FuncContext.SetLabelPc | compile.go:299-311 | records a label and protects the instruction before it from being dropped |
| ConditionCorrect.ExprCorrect | compile.go:1240-1353 | the code of any expression, in any surrounding code, leaves its value in the register and lower registers alone |
| ConditionCorrect.OperandCorrect | compile.go:1354-1366 | a folded operand names a register or constant that holds its value |
| ConditionCorrect.RelCorrect | compile.go:1677-1698 | a comparison jumps to its label exactly if it comes out as asked |
| ConditionCorrect.InnerCorrect | compile.go:1741-1832 | a nested operand of `and` or `or` arrives at the label its truth selects, with its value in the register where it is the result |
| ConditionCorrect.OuterCorrect | compile.go:1741-1832 | the last operand arrives at the end with the value of the whole in the register |
| ConditionCorrect.LogicalCorrect | compile.go:1710-1740 | `and` and `or` as values compute what the language says |
| ConditionCorrect.BranchCorrect | compile.go:1029-1074 | for every condition the code reaches the then-label if it is truthy and the else-label if not, with lower registers unchanged |
| ConditionCorrect.IfCondition | compile.go:1010-1028 | the condition of an `if`, with the labels as the statement sets them |
| ConditionCorrect.LabelsStay | compile.go:262-311 | no peephole pop removes an instruction at or below a recorded label or moves the label |
| ConditionLaws.LogicalOperators | compile.go:1710-1935 | `and` and `or` return their first operand or else the second, by its truth; `not` a boolean |
| ConditionLaws.RelationalOperators | compile.go:1677-1709 | `>` and `>=` are `<` and `<=` with operands exchanged, `~=` is the negation of `==`, and the others ask for the order and equality of the values |
| ConditionLaws.ComparisonSteps | vm.go:1508-1603 | a comparison skips the next instruction if its outcome is not its flag |
| ConditionLaws.TestSteps | vm.go:1604-1660 | a test skips the next instruction if the truth of its register is not its flag |
| ConditionLaws.ConstantFolded | compile.go:263-283 | a constant becomes an operand if and only if its index is at most 255 and its load may be dropped |
| ConditionLaws.NilLoaded | compile.go:313-320 | a load of nil extends one that ends just below it, unless a label follows that one |
| ConditionLaws.BranchFits | compile.go:1029-1074 | all constant operands in the code of a condition are at most 255 |
| ConditionProof.ExprExtends | compile.go:262-321 | compiling an expression keeps all protected code and labels, and what it leaves to fold is its own last load |
| ConditionProof.BranchExtends | compile.go:1029-1074 | compiling a condition keeps all protected code and labels |
| PatchCode.ThreadJump | compile.go:2046-2064 | the threading loop follows at most five jumps and reports a distance that is too long |
| PatchCode.PatchAll | compile.go:2011-2081 | the pass over the store equals its specification, jump by jump and run by run |
| PatchCode.PatchOk | compile.go:2011-2081 | after the pass every instruction stands for the code there: a jump for one to five jumps unless its chain goes back to a patched one, a fused move for a run of moves |
| PatchCode.StepRefines | vm.go:86-170 | one step of patched code is one or more steps of the original, from any position, the middle of a fused run included |
| PatchCode.PatchPreserves | compile.go:2011-2081 | every run of the patched code is a run of the original with the same registers, whatever the other instructions do, if and only if every patched jump lands where jumps of the code lead |
| PatchCode.ForwardLands | compile.go:2046-2064 | a jump whose chain never goes back to a patched jump lands there |
| PatchCode.BackChainGoesWrong | compile.go:2046-2064 | a chain that does go back and is patched to a place the code never reaches from there |
| PatchCode.BackChainMayGoRight | compile.go:2046-2064 | one that goes back and still comes out right |
| PatchLimits.PatchSucceedsExactly | compile.go:2046-2064 | for all code, the pass succeeds if and only if every jump it visits has its label at most 131071 ahead and does not run, over a distance of 0, into a jump whose label is out of its reach, along the path in the store as the pass finds it |
| PatchLimits.PatchSucceeds | compile.go:2046-2064 | the same along the path in the code alone, where no jump that stands before such a one goes back to a patched jump |
| PatchLimits.PatchSucceedsOrFails | compile.go:2046-2064 | for all code: it fails if a visited jump has its label further ahead than 131071, and succeeds if none has and none stands before a jump that is out of its reach |
| PatchLimits.ZeroJumpFails | compile.go:2046-2064 | two jumps within reach of their labels for which the pass fails |
| PatchLimits.JumpsShortened | compile.go:2046-2064 | every jump the pass visited has a distance of at most 131071, and if its chain never goes back it leads exactly five jumps further, or as many as there are within reach |
| PatchLimits.RunsFused | compile.go:2071-2080 | the first move of every run that ends before another instruction than a closure stands for the whole run, or for 512 moves of it |
| Frames.Registry.SetTop | registry.go:39-64 | registers below both tops keep their values, new ones and those given up are nil |
| Frames.Registry.FillNil | registry.go:150-173 | the range is nil and ends at the new top; what is below it stays |
| Frames.Registry.CopyRange | registry.go:111-147 | for every range and target what arrives where, nil beyond the limit or the top; a plain move in order unless the target begins inside the range, also when it moves down over itself |
| Frames.MovesExactlyIf | registry.go:111-147 | the copy moves every content unchanged if and only if the target does not begin inside the part of the range still to be read |
| Frames.CopyRepeats | registry.go:111-147 | otherwise it repeats the registers between start and target |
| Frames.Registry.Insert | registry.go:175-240 | later registers move up by one, in order; at or beyond the top it is a plain store |
| Frames.Registry.Set | registry.go:242-256 | one register changes and the top covers it |
| Frames.Registry.InitCallFrame | state.go:875-950 | for every callee shape and argument list, parameters hold the arguments (nil if missing) and the extra arguments lie below the window |
| Frames.Registry.Call | vm.go:1646-1776 | the callee sees its parameters and extra arguments; the caller's registers stay |
| Frames.Registry.TailCall | vm.go:1783-1998 | the callee moved down over its caller sees the same parameters and extra arguments as after a call |
| Frames.ShiftDown | vm.go:1872-1998 | a window copied as a whole means the same further down |
| Frames.Registry.VarArg | vm.go:2666-2720 | at any time while the frame runs, whatever it did to its registers: exactly the extra arguments in order, or as many as wanted, nil beyond; they stay for the next time |
| Frames.ExtraIs | vm.go:2666-2720 | the extra arguments are those from the number of parameters on, in order, and nil beyond |
| Frames.EnteredIs | state.go:875-950 | an entered frame register by register: parameters, base of the window, extra arguments |
| Frames.ExtraStays | vm.go:2666-2720 | no change to the registers of the window touches the extra arguments |
| Frames.Registry.Assign | registry.go:242-256 | assigning a register or parameter keeps the extra arguments |
| Upvalues.Upvalue.SetValue | function.go:68-74 | writes the variable, in its register or in the cell |
| Upvalues.Upvalue.Close | function.go:76-81 | the cell keeps the value the variable had |
| Upvalues.Thread.FindUpvalue | state.go:787-812 | the one cell of the register, linked in at its place if new; the list stays strictly increasing |
| Upvalues.Thread.CloseUpvalues | state.go:770-785 | detaches exactly the cells at or above the index, and no captured variable changes its value |
| UpvalueRuns.RunsAgree | vm.go:2600-2664 | over any run of captures, writes and closes, registers and captured variables hold what they would with a box per variable from the start, and captures share a cell exactly if they share a variable |
| UpvalueRuns.StepRelated | vm.go:2600-2664 | each operation keeps the relation between cells and boxes |
| UpvalueCells.Program.Capture | vm.go:2650-2664 | the linked cells after a capture are as the machine's step says |
| UpvalueCells.Program.SetCaptured | function.go:68-74 | the linked cells after a write through a closure are as the machine's step says |
| UpvalueCells.Program.Close | vm.go:2600-2622 | the linked cells after a close are as the machine's step says |
| UpvalueCells.RunProgram | state.go:770-812 | after any program, the linked cells that closures hold show the variables they captured, and are shared exactly if the variable is |
| CoroutineDelivery.YieldOk | vm.go:2881-2932 | a yield, also from a sole frame or behind a tail call, gives its whole stack to the resumer once and leaves the frame ready for the next arguments |
| CoroutineDelivery.CollapsedOk | state.go:2253-2274 | a callee that took its caller's frame by a tail call yields as the caller's frame would |
| CoroutineDelivery.PropagateOk | coroutinelib.go:119-160 | a thread between passes on exactly what it received and remembers whom to resume, in its caller's frame if its call to resume was a tail call |
| CoroutineDelivery.YieldReachesResumer | coroutinelib.go:70-160 | at any nesting depth, and whichever of the calls to yield and resume were tail calls, a system yield in the innermost thread reaches the outermost resumer with exactly its values in order, and all threads between are suspended with the frames that are left of them |
| CoroutineDelivery.ArgumentsReachInnermost | coroutinelib.go:161-176 | at any depth the arguments of the next resume reach the innermost thread in order |
| CoroutineDelivery.RoundTrip | coroutinelib.go:70-176 | after a yield and the next resume, whichever calls were tail calls, the innermost thread has its frames as they were, or without the caller it replaced, and the arguments from the return base of the call that yielded |
| CoroutineDelivery.YieldValues | coroutinelib.go:119-160 | at any depth the resumer finds, behind its own registers, true unless the thread it resumed is wrapped, and then the registers of the innermost thread from the base of its last frame on |
| CoroutineDelivery.ResumeValues | coroutinelib.go:161-176 | after the next resume the innermost thread has its registers up to the return base of the yielding frame and then the arguments |
| CoroutineRuns.StepKeeps | vm.go:2731-2762 | every step that the source allows, if whatever it resumes is suspended, keeps the invariant of threads |
| CoroutineRuns.StepKeepsExactly | coroutinelib.go:70-176 | from a state with the invariant, a step leaves a chain of resumers if and only if the thread it resumes, by a call or by a continuation, is suspended |
| CoroutineRuns.DeadRunsExactly | coroutinelib.go:161-176 | from a state with the invariant, a step makes a dead thread the running one if and only if it is a continuation that resumes a dead thread |
| CoroutineRuns.RunKeepsExactly | coroutinelib.go:70-176 | over any run from the main thread alone, there is a chain of resumers in every state if and only if whatever is resumed is suspended |
| CoroutineRuns.ResumersFormChain | coroutinelib.go:70-176 | in every state of a run, as long as whatever was resumed was suspended, resumer links form one simple chain from the running thread to main, and no other thread has one |
| CoroutineRuns.DeadStaysDead | state.go:706-716 | in every run a thread that has died is dead from then on |
| CoroutineRuns.DeadNeverRuns | state.go:706-716 | and as long as whatever is resumed is suspended, it never is the running thread |
| CoroutineRuns.DeadThreadRuns | coroutinelib.go:161-176 | a run in which every call to resume is of a suspended thread and a continuation makes a dead thread the running one |
| CoroutineRuns.ResumersFormCircle | coroutinelib.go:161-176 | a run in which every call to resume is of a suspended thread and a continuation closes a circle of resumers |
| CoroutineRuns.YieldedHasFrame | state.go:2205-2214 | in every state of every run a live yielded thread keeps a frame, so the guard against resuming without one never fires |
| CoroutineRuns.RunHandsOver | vm.go:2731-2762 | in every run: a thread that returns hands true and its last n registers, one that fails false and the error, one that yields true and its stack to its resumer, behind what that one had (wrapped threads the values alone); who returns or fails is dead, who yields is not; no other thread changes |
| CoroutineRuns.RunGoesOn | coroutinelib.go:70-176 | in every run: a thread that is resumed goes on with the last n registers of its resumer, or with its whole stack if a continuation resumes it |
| QuotedStrings.WriteQuoted | stringlib_format.go:414-433 | the loop writes the quoted text byte by byte |
| QuotedStrings.Scanner.Next | compiler/parse/lexer.go:318-343 | every line break, single or paired, reads as one line feed |
| QuotedStrings.Scanner.ScanEscape | compiler/parse/lexer.go:496-540 | the byte of a letter, digit or other escape, or the error for numbers above 255 |
| QuotedStrings.Scanner.ScanString | compiler/parse/lexer.go:478-494 | the text up to the closing quote, or the error for an unfinished string |
| QuotedStrings.QuoteRoundTrip | stringlib_format.go:414-433 | for every byte string in any surrounding text, scanning its quoted form gives the bytes back and ends behind the closing quote |
| StringEscapes.ScanStep | compiler/parse/lexer.go:478-494 | at each position the scanner ends at the quote, fails at a line break or the end, reads an escape or takes the byte |
| StringEscapes.EscapeLetters | compiler/parse/lexer.go:496-512 | the letters for control characters |
| StringEscapes.EscapeOthers | compiler/parse/lexer.go:513-540 | other bytes stand for themselves, a line break of one or two bytes for a line feed |
| StringEscapes.EscapeNumbers | compiler/parse/lexer.go:525-536 | one to three digits stand for the byte of that number, above 255 for an error |
| StringEscapes.QuotedByte | stringlib_format.go:414-433 | how each byte is quoted: backslash, decimal number of shortest or full length, or as it is |
| StringEscapes.QuotedText | stringlib_format.go:414-433 | a quoted string is its bytes, each quoted, between two quotes |
| PackBytes.UnsignedRoundTrip | stringlib.go:842-879 | reading what was written gives the number modulo its size, in both byte orders and with anything behind it |
| PackBytes.SignedRoundTrip | stringlib.go:833-870 | signed numbers that fit their size come back, sign included |
| PackBytes.AppendIs | stringlib.go:842-850 | the bytes are the low bytes of the number, in the order asked for |
| Pack.IntegersCode | stringlib.go:833-879 | the integers of all sizes up to 8 and both orders come back |
| Pack.StrPack | stringlib.go:475-603 | the loop over the format packs option by option, with the order in force, and reports the first error; string options take integers as their text, size 0 writes nothing, sizes above 8 panic |
| Pack.StrUnpack | stringlib.go:604-773 | the loop over the format reads option by option from any start, below 0 too, and reports data that is too short, unfinished strings and indexes out of range |
| Pack.StrPacksize | stringlib.go:774-831 | the sum of the sizes, or the error for options of variable length |
| Pack.PackRoundTrip | stringlib.go:449-879 | for every format and all arguments that can be packed, unpacking the packed bytes gives the arguments back if and only if all of them fit their options, and then ends behind the data |
| Pack.SignedZero | stringlib.go:851-870 | a signed integer of size 0 that cannot be read back, one that comes back, and one that comes back with the other sign |
| Pack.PacksExactlyIf | stringlib.go:475-603 | packing succeeds if and only if all options are known, integer sizes are at most 8 and arguments are there: integers for integer options, strings or integers for string options |
| Pack.PacksizeIsLength | stringlib.go:774-831 | the size is the packed length, and exists if and only if no option is of variable length |
| PackFormats.IntegerLetters | stringlib.go:506-552 | sizes and signs of the integer letters |
| PackFormats.SizedLetters | stringlib.go:457-473 | letters with a decimal size, and what stands for a missing one |
| PackFormats.OtherLetters | stringlib.go:485-603 | byte orders, zero-terminated strings, padding, spaces, and the error for anything else |
| PackFormats.IntegerBytes | stringlib.go:842-850 | byte k of a packed integer is its digit k to the base 256, from the end in big endian order |
| PackFormats.StringBytes | stringlib.go:566-588 | packed strings are cut or filled with zeros, followed by a zero, or preceded by their length |
| PackFormats.TextWrites | auxlib.go:61-70 | an integer given to a string option is its decimal numeral |
| PackFormats.ReadsInteger | stringlib.go:851-879 | from any data, an integer option reads the number of its bytes, in twos complement if signed or of eight bytes |
| PackFormats.ReadsZString | stringlib.go:604-773 | a string up to the next zero, or the error if there is none |
| PackFormats.ReadsString | stringlib.go:604-773 | a string of fixed size, or the error for data that is too short; padding is stepped over |
| PackFormats.ReadsLString | stringlib.go:604-773 | a string with its length before it, or the error for data that is too short |
| BytecodeProof.UndumpDump | compiler/bytecode/bytecode.go:26-70 | for every writable prototype tree, reading its dump gives the tree with string cache and type info rebuilt, whatever follows |
| BytecodeProof.PrefixRejected | compiler/bytecode/bytecode.go:43-70 | every strict prefix of a dump is rejected |
| BytecodeProof.RoundTrip | compiler/bytecode/bytecode.go:26-81 | a tree as the compiler builds it comes back as it was |
| BytecodeProof.ProtoGood | compiler/bytecode/bytecode.go:124-189 | a written prototype is read back by any reader that has all of its bytes, and by none that has fewer |
| BytecodeProof.ConstGood | compiler/bytecode/bytecode.go:191-218 | the same for one constant of any kind |
| BytecodeProof.RebuildPlain | function.go:121-128 | the rebuilt string cache is the one the compiler builds |
| BytecodeProof.InfoStays | function.go:136-145 | setting the root's type info again changes nothing in a tree that carries it |
| BytecodeFormat.HeaderChecked | compiler/bytecode/bytecode.go:43-57 | data is rejected as no saved function if and only if it does not begin with the four magic bytes, and as of another version if and only if byte 2 does not follow |
| BytecodeFormat.FileLayout | compiler/bytecode/bytecode.go:26-41 | a file is the bytes 43 41 55 4C 02 (hexadecimal) and the form of the root function |
| BytecodeFormat.ProtoLayout | compiler/bytecode/bytecode.go:124-189 | the form of a function: its parts in order, numbers in 4 or 8 bytes lowest first, strings and lists behind their lengths, constants behind their kinds, nested functions in the same form |
| BytecodeFormat.LoadingAdds | compiler/bytecode/bytecode.go:58-81 | loading fills the cache of string constants everywhere and gives the type information of the root to all nested functions, and changes nothing else |
| BytecodeFiles.Writer.WriteProto | compiler/bytecode/bytecode.go:124-189 | the recursive writer appends the prototype's form |
| BytecodeFiles.DumpBytes | compiler/bytecode/bytecode.go:26-41 | the bytes of magic, version and root prototype |
| BytecodeFiles.Reader.NextProto | compiler/bytecode/bytecode.go:272-356 | the recursive reader with its sticky error reads a prototype as specified |
| BytecodeFiles.Reader.NextList | compiler/bytecode/bytecode.go:272-356 | a count and its items; after an error reading goes on without effect |
| BytecodeFiles.UndumpBytes | compiler/bytecode/bytecode.go:43-70 | checks magic and version, reads the root and reports the sticky error |

## Left out

- Frames.Registry.InitCallFrame: requires a prototype with more registers than parameters, as the compiler makes them.
- Ssa.RecordedIsTop: speaks of visible symbols only. Shared maps may hold versions of symbols that are not visible at the point, and nothing is claimed about those.
- Tables whose array part has passed the limit of the array range: what `Append` or `Insert` does to get there is modelled, later operations on such a table are not.
- Pattern text to pattern tree (`parsePatternDepth`, `parseClassSet`): the theorems hold for all trees, so in particular for parsed ones. The pattern cache and object pools are left out as well.
- `gsub` with a table or function as replacement: it calls back into the interpreter.
- Table keys with pointer or native-function identity, NaN keys, direct calls of `RawSetH` with array keys, `MaxN` and `ForEach`.
- SSA: dense symbol lookup and the cache of visible symbols (faster forms of a map), the reverse postorder of the final phi list (a parameter), collection of assigned symbols, the sort of symbols (a parameter), root names of versions.
- Conditions: constant folding, operands with calls, arithmetic, tables or metamethods, comparison errors, results assigned straight to a local, and the encoding of operands in instruction words.
- `patchCode`: the computation of the register count, the 18-bit encoding of distances, and the panic for an index out of range.
- Frames: registry overflow at its maximum size, 16-bit argument counts, native callees and the difference between a missing value and nil.
- Upvalues: growing the registry while cells are open.
- Coroutines are modelled on values as a step system, so aliasing of threads is not captured. The wrapped-error path, cancellation timing and the host API's argument passing are left out. What a thread does once a continuation has made it current while dead is not followed further.
- `string.pack`: floating-point options, floats as arguments of other options, alignment (parsed but unused in the source), and sizes and positions of 2^63 or more, where the source's integers wrap around.
- Bytecode: errors of the writer, and lengths of 2^32 or more.
- Persistent map: the bitmap is 32 booleans, the hash stored in an entry and the built-in hasher are left out (the hash function is a parameter).
- Lexer: line and column positions, and every token but strings.
- Type checker, language server, coverage, debug hooks, error metadata, file loading and the rest of the standard library: they have no property of this kind or depend on code outside the model.
