# A model of sljit's regex engine, its AArch64 emitter and pwart's code generator

Three compiler stages, each with its claim that meaning is preserved, modelled in the form the sources have: methods with
loops over arrays, linked fragments, buffers and records that are updated in place, each proved against a specification,
and lemmas about those specifications.

**The regex engine** (`Regex*.dfy`, `Fragment*.dfy`). Pattern text is parsed into a stack of items, with `{n,m}` expanded by
copying; the items, popped last to first, are turned into a flat automaton of branch, jump and character cells by
back-patching; the automaton is numbered and traced; and the generated matcher steps an intrusive list of active states
over the text. `RegexFind.FindMatch` goes the whole way, for patterns with and without `^` and `$`. The notation is a grammar of its own
(`RegexSpelling`): what can be written, in any of its spellings, and which words it says; the parser accepts exactly what the grammar
spells, and a match is found by what the spelling says (`RegexFind.FoundAsSpelled`). The generated matcher is
modelled as the steps its code performs, not as intermediate code. `FragmentStack` is the stack below the parser as it is in memory,
with fragments shared between a stack and its clones, and `FragmentIterate` expands a repetition on it.

**The AArch64 emitter** (`Arm64.dfy`, `Jump*.dfy`, `LogicalImm.dfy`, `Immediates.dfy`, `MemOperand.dfy`, `StackFrame.dfy`, `Frame*.dfy` except
`Frames.dfy`). A small executable semantics of the instructions involved, and against it: jump relaxation in its two passes,
logical immediates, immediate synthesis, address splitting, and prologue and epilogue; and rewritable jumps, whose address is replaced
in the finished code.

**pwart's code generator** (`WasmBody.dfy`, `ZeroInit.dfy`, `Lazy*.dfy`, `Frames.dfy`, `Call*.dfy`, `FuncReturn.dfy`, `Twins.dfy`,
`WholeFunction.dfy`, `CompiledCall.dfy`, `ArgumentCode.dfy`, `NumberLaws.dfy`, `PassAgreement.dfy`, `PassEncoding.dfy`). The scan that finds
out which locals need clearing; the lazy operand stack, whose entries are registers, constants, aliases of locals, pending
flags or spilled slots; how caller, callee and host lay out arguments and results; a straight-line function
as a whole, from its entry to its results, and compiled code that calls one; what the numeric opcodes compute; and how the two passes
read a body.

What came out differently from what the code suggests:

- With both `^` and `$` a match can be reported for a text that is too long. The generated loop stops as soon as no state is
  active (`sljit/regex_src/regexJIT.c:2016-2018`), and the result is then taken from the end state as it is at that place
  (`sljit/regex_src/regexJIT.c:2476-2482`). `RegexAnchored.BothAnchors` gives the exact condition,
  and `RegexFind.LongerTextMatches` a text that meets it: `^a$` is found in `ab`.
- `sljit_generate_code` copies a word before it knows that the jump needs none. When the code ends in such a jump that word goes
  one past the allocated room (`sljit/sljit_src/sljitNativeARM_64.c:530`). `JumpFill.CopiesInside` gives the exact condition.
- The assertion on a page offset for jumps (`sljit/sljit_src/sljitNativeARM_64.c:352`) is tighter than the range that selects the form. It holds
  exactly when the distance is at most 0xfffff000 less the place of the instruction in its page (`JumpLanding.JumpAssertion`), and
  `JumpLanding.JumpAssertionFails` gives a jump for which it does not. The assertion for addresses (line 369) is the right one, and is what
  `JumpLanding.PageOffset` proves.
- The encoding of 0x100000001 as a logical immediate is the all-zero field, which `logical_imm` also returns for no encoding
  (`sljit/sljit_src/sljitNativeARM_64.c:779-781`), so that value takes two instructions where one would do; it is the only one
  (`Immediates.LoadImmediate`, `Immediates.UnusedUnencoded`).
- Zero-initialisation is skipped for a local that is read first at nesting depth 0xffff, and a local with an index of 0x8000 or more is listed
  under another index. `ZeroInit.ExactLimit` says exactly when the scan is sound.
- A call whose result takes an aligned frame can leave a gap between two arguments of the next call, and the arguments are then not laid
  out again unless the first one is misaligned (`pwart/opgen_utils.c:379-424`); where they are laid out again, one can be stored over another.
  `Calls.PassArguments` gives the exact condition. Arguments without gaps always meet it (`Calls.ContiguousPass`), and so does all that straight-line
  code puts on a stack without gaps (`ArgumentCode.GenCall`); `CallReturn.NestedCallLoses` and
  `Calls.OverrunHappens` show both ways to fail.
- Division has no test of its operands (`pwart/opgen_num.c:458-540`), so where WebAssembly traps the code goes on: `NumberLaws.TrapsExactly` says
  when that is, and `NumberLaws.TrapMissed` with which value.
- Several results of a function are stored one after the other from where they are, so one can be stored over another that is still a
  parameter (`pwart/opgen_utils.c:487-491`). `FuncReturn.ReturnsExactly` gives the exact condition, and `FuncReturn.SwapLost` a function that returns
  its two parameters in the opposite order.
- `select` with a type (0x1c) is always refused: the main loop hands opcodes above 0x1b to the memory group (`pwart/wagen.c:337-340`), so its case in
  `pwart/opgen_ctl.c:386-387` is never reached (`PassAgreement.TypedSelectRefused`).
- The test that a body ends with the byte 0x0b also passes when that byte is the last immediate (`PassAgreement.LastByteMisleads`).
  `PassAgreement.EmitFunction` says exactly which bodies are accepted; an unclosed one gets through only at the end of the module
  (`PassAgreement.UnclosedReachesEnd`).

## Model

| member | source | states |
|---|---|---|
| `RegexCompile.LayoutPreservesLanguage` | sljit/regex_src/regexJIT.c:975-1054 | For every pattern and every word: the cell array has a run from cell 1 to the end cell that consumes exactly the word if and only if the word is in the pattern's language; nested and stacked operators, chained alternatives and empty loops included |
| `RegexCompile.TermSound` | sljit/regex_src/regexJIT.c:945-1054 | A run that enters a term leaves it at the cell behind it, having consumed a word of the term; `*` and `+` may go round empty bodies |
| `RegexCompile.TermComplete` | sljit/regex_src/regexJIT.c:945-1054 | Every word of a term carries a run across the cells of that term |
| `RegexCompile.PatternWeight` | sljit/regex_src/regexJIT.h:48-53 | The summed weight of a pattern's items is the number of cells its layout takes |
| `RegexGenerate.GenerateTransitions` | sljit/regex_src/regexJIT.c:975-1058 | From the items of any pattern, popped last to first with back-patching: an array of `dfa_size` cells filled exactly, and holding the pattern's layout |
| `RegexGenerate.CloseIteratives` | sljit/regex_src/regexJIT.c:945-972 | All operators on top of the depth stack that belong to the finished term write their branch in front of it, as the reference step says |
| `RegexGenerate.GeneratePattern` | sljit/regex_src/regexJIT.c:987-1052 | The write pointer ends at the first cell and the depth stack empty: nothing is left over, nothing is missing |
| `RegexRepeat.IteratedLanguage` | sljit/regex_src/regexJIT.c:502-553 | The term built for {min,max} accepts exactly the concatenations of min to max words of the old term; without an upper bound, of min or more |
| `RegexRepeat.CopiesOfOpt` | sljit/regex_src/regexJIT.c:502-541 | n copies of X followed by k copies of X? accept exactly n to n+k words of X |
| `RegexIterate.Iterate` | sljit/regex_src/regexJIT.c:424-557 | The last term on the stack is replaced by the bracketed repetition of it, and the number returned is exactly what the summed weight of the stack gains (or loses when the term is deleted) |
| `RegexIterate.FindLast` | sljit/regex_src/regexJIT.c:435-476 | Popping backwards finds where the last term starts and its weight, through nested brackets and stacked operators |
| `RegexIterate.IteratedWeight` | sljit/regex_src/regexJIT.c:502-556 | The weight of the repetition is the one `iterate` computes without looking at the result |
| `RegexIterate.OpenGroup` | sljit/regex_src/regexJIT.c:488-498 | Moving the term up by one place and writing a bracket below it gives the bracketed term |
| `RegexIterate.Multiply` | sljit/regex_src/regexJIT.c:502-541 | Mandatory copies and copies with ? come out in the right number for every min <= max |
| `RegexParse.Parse` | sljit/regex_src/regexJIT.c:764-938 | Accepts exactly the texts that denote a pattern (`RegexAccepted.AcceptedExactly` says which those are); the stack then holds that pattern's items, `dfa_size` is their summed weight, and the anchors are noted |
| `RegexParse.RepeatedLanguage` | sljit/regex_src/regexJIT.c:559-662 | {n,m} in all its spellings means n to m occurrences, also where it is turned into `*`, `+`, `?` or nothing |
| `RegexParse.ParseBrace` | sljit/regex_src/regexJIT.c:559-662 | An opening brace is read as a repetition, a mark or a plain character, with the weight kept in step |
| `RegexParse.ParseCharRange` | sljit/regex_src/regexJIT.c:665-762 | A bracket expression pushes exactly the items of the class that the text denotes, or is refused |
| `RegexParse.DecodeNumber` | sljit/regex_src/regexJIT.c:404-421 | The decimal number at a position, and -1 where there is no digit |
| `RegexReading.SpellingRead` | sljit/regex_src/regexJIT.c:764-938 | Every spelling that fits its context, plain or escaped characters, brackets, counts, marks, groups and anchors, is read as its pattern |
| `RegexReading.PlainExactly` | sljit/regex_src/regexJIT.c:866-882 | A brace is a plain character if and only if no mark is written there and, behind a term, no count |
| `RegexReading.CountRead` | sljit/regex_src/regexJIT.c:559-628 | `{n}`, `{n,}`, `{n,m}`, `{,m}` and `{,}` are read with the numbers that the digits stand for, zeros and leading zeros included |
| `RegexReading.BracketRead` | sljit/regex_src/regexJIT.c:665-762 | A bracket expression written after the grammar, a leading `]`, a trailing `-` and spans in either order included, is read as its members |
| `RegexSpelling.PiecesMean` | sljit/regex_src/regexJIT.c:710-757 | The members match exactly the characters written and those between the ends of a span |
| `RegexSpelling.RepeatsMean` | sljit/regex_src/regexJIT.c:630-661 | A count admits exactly the numbers of repetitions that it is written with, whichever operator it is turned into |
| `RegexAccepted.AcceptedExactly` | sljit/regex_src/regexJIT.c:764-938 | A text is accepted if and only if the grammar spells it |
| `RegexAccepted.SpellingMeans` | sljit/regex_src/regexJIT.c:764-938 | Whichever spelling of a text one takes, the pattern that the parser leaves has exactly the words that the spelling says |
| `RegexAccepted.OrdinaryText` | sljit/regex_src/regexJIT.c:899-907 | A text without special characters is accepted and matches itself and nothing else |
| `RegexAccepted.CountMeans` | sljit/regex_src/regexJIT.c:559-662 | Behind any term, any count leaves a term that has exactly the repetitions admitted |
| `RegexPrint.ReadBack` | sljit/regex_src/regexJIT.c:764-938 | Every pattern that can be written out is written as a text that reads back as that same pattern, anchors included |
| `RegexPrint.DenotedExactly` | sljit/regex_src/regexJIT.c:764-938 | The patterns that accepted texts denote are exactly those: characters and ordered spans, bracket expressions with members, and marks without a term only where nothing but braces and marks precede |
| `RegexFlow.LayoutWellFormed` | sljit/regex_src/regexJIT.c:975-1054 | Every branch and jump of a pattern's layout leads to a cell where a walk may start, never into the middle of a bracket expression |
| `RegexClosure.TraceTransitions` | sljit/regex_src/regexJIT.c:1230-1279 | From all values -1 the walk ends, finds each cell reachable by empty steps once, and leaves as its value the maximum over all such paths of the largest id on the path, also with cycles |
| `RegexClosure.Lowered` | sljit/regex_src/regexJIT.c:1246-1262 | Each visit lowers a potential that counts how far values can still rise, so the walk is finite |
| `RegexRuns.AcceptsIsRunTo` | sljit/regex_src/regexJIT.c:975-1054 | Acceptance by counted steps and acceptance by alternating empty and consuming steps agree |
| `RegexStates.EnterFresh` | sljit/regex_src/regexJIT.c:1315-1371 | A cleared state array becomes a proper list of the states of a fresh start, each with its start position |
| `RegexStates.EnterStates` | sljit/regex_src/regexJIT.c:1373-1428 | The targets of a matched state join the next list without duplicates and keep the smaller start position |
| `RegexStates.WalkList` | sljit/regex_src/regexJIT.c:2193-2235 | Walking the list visits every active state once, clears every link it leaves, and the next array records exactly the least start offered to each state |
| `RegexStates.DropLater` | sljit/regex_src/regexJIT.c:1591-1619 | Exactly the states that started after the limit leave the list; the rest stays a proper list |
| `RegexMatch.Match.constructor` | sljit/regex_src/regexJIT.c:2330-2420 | The initial list, index and best match meet the invariant of the running matcher |
| `RegexMatch.Match.MoveStates` | sljit/regex_src/regexJIT.c:2048-2077 | After a character a state is active if and only if a start in play reaches it, with the smallest such start; the retired array is all -1 but for the end state |
| `RegexMatch.Match.EndCheck` | sljit/regex_src/regexJIT.c:1542-1619 | An active end state replaces the best match exactly when it started no later, and later starts leave the list |
| `RegexMatch.Match.EndOfCharacter` | sljit/regex_src/regexJIT.c:1992-2020 | Every character ends in a state that meets the invariant: acyclic duplicate-free list, cleared retired array, leftmost-longest match of the text read; stopping early is final |
| `RegexMatch.Match.Step` | sljit/regex_src/regexJIT.c:1992-2141 | One character keeps the invariant, with or without the fast-forward shortcut |
| `RegexMatch.Match.Continue` | sljit/regex_src/regexJIT.c:2427-2430 | Any further input keeps the invariant for the whole text, however the input is cut into pieces |
| `RegexMatch.Match.GetResult` | sljit/regex_src/regexJIT.c:2432-2474 | Without `$` the recorded best match, with it the leftmost match that ends with the text |
| `RegexMatch.StepTracks` | sljit/regex_src/regexJIT.c:1373-1428 | What is active after a character, from what was active before it |
| `RegexMatch.BestMoves` | sljit/regex_src/regexJIT.c:1542-1575 | An active end state means a match that is leftmost and, there, longest so far |
| `RegexMatch.NothingActive` | sljit/regex_src/regexJIT.c:2010-2019 | With a match known and nothing active, no longer text changes the answer |
| `RegexMatch.StaleSkips` | sljit/regex_src/regexJIT.c:2079-2141 | While fast-forward skips characters no earlier start can become active |
| `RegexMatch.EnterNext` | sljit/regex_src/regexJIT.c:2057-2077 | A fresh start is entered only while no match limits the starts |
| `RegexSearch.GenerateSearchStates` | sljit/regex_src/regexJIT.c:1168-1228 | Terms get the numbers 1, 2, ... in order, the end 0, other cells none |
| `RegexSearch.TraceAndEmit` | sljit/regex_src/regexJIT.c:1336-1358 | After a trace the values are reset, and the states emitted are exactly the numbered cells reachable by empty steps, each once |
| `RegexSearch.BuildMachine` | sljit/regex_src/regexJIT.c:1901-1962 | The tables behind the generated code: entry states, targets of each state and the fast-forward decision are those of the automaton |
| `RegexAnchored.Anchored.Step` | sljit/regex_src/regexJIT.c:1992-2077 | With `^` a state is active if and only if the text read so far leads to it; the matcher stops at the first place where nothing can follow |
| `RegexAnchored.EnterPlain` | sljit/regex_src/regexJIT.c:1429-1438 | States not yet listed are put in front, others left alone |
| `RegexAnchored.WalkPlain` | sljit/regex_src/regexJIT.c:2193-2235 | The next list holds exactly the states that some active state moves to |
| `RegexAnchored.Anchored.GetResult` | sljit/regex_src/regexJIT.c:2432-2490 | With `^` alone the longest word of the pattern that begins the text; with both anchors, whether the part that was read is a word |
| `RegexAnchored.BothAnchors` | sljit/regex_src/regexJIT.c:2010-2019 | With `^` and `$` the answer is right if and only if no proper part of the text, from its beginning, is a word that nothing can follow; if there is one, a match is reported although the text is longer |
| `RegexFind.FindMatch` | sljit/regex_src/regexJIT.c:1837-2312 | From pattern text and input to result: refusal exactly of texts that are no pattern; leftmost-longest match without anchors, leftmost match at the end for `$`, longest prefix for `^`, and for both anchors the exact condition under which the answer is right |
| `RegexFind.FoundAsSpelled` | sljit/regex_src/regexJIT.c:1837-2312 | What is found, in terms of any spelling of the pattern text: leftmost and longest without anchors, leftmost at the end for `$`, longest at the beginning for `^`, and -1 exactly where there is nothing |
| `RegexFind.LongerTextMatches` | sljit/regex_src/regexJIT.c:2010-2019 | The text `^a$` denotes a pattern for which the condition is met by `ab`: a match is reported although `ab` is no word of it |
| `RegexFind.BestIsLeftmostLongest` | sljit/regex_src/regexJIT.c:1542-1575 | The machine's best match is the leftmost, then longest match in terms of the pattern's language |
| `RegexFind.ShortIsCut` | sljit/regex_src/regexJIT.c:2010-2019 | The condition for a wrong answer, in terms of the pattern and its automaton |
| `FragmentStack.Stack.constructor` | sljit/regex_src/regexJIT.c:196-202 | The empty stack |
| `FragmentStack.Stack.Top` | sljit/regex_src/regexJIT.c:220-224 | The last item |
| `FragmentStack.Stack.Push` | sljit/regex_src/regexJIT.c:226-262 | One item more at the end of the sequence, whether in the same fragment, a kept one or a new one; every other item in the chain is as it was |
| `FragmentStack.Stack.Pop` | sljit/regex_src/regexJIT.c:264-280 | The last item leaves the sequence; fragments, and so every clone, stay as they were |
| `FragmentStack.Stack.Clone` | sljit/regex_src/regexJIT.c:282-285 | The clone has the same sequence and shares the fragments |
| `FragmentStack.Stack.PushCopy` | sljit/regex_src/regexJIT.c:287-344 | The top `length` items move up by `items` places, for overlapping ranges and across any number of fragments |
| `FragmentStack.Stack.Allocate` | sljit/regex_src/regexJIT.c:298-318 | The new top is `items` places further, with fragments added where the chain ends |
| `FragmentStack.Stack.CopyDown` | sljit/regex_src/regexJIT.c:320-337 | Copying from the last item down leaves at every place the item it is meant to get, although source and target overlap |
| `FragmentStack.Stack.PushUnder` | sljit/regex_src/regexJIT.c:495-497 | A push on a popped clone replaces exactly one item of the original |
| `FragmentStack.Stack.PushCopyOver` | sljit/regex_src/regexJIT.c:490-492 | Copying on the original does not disturb a popped clone |
| `FragmentStack.OpenBracket` | sljit/regex_src/regexJIT.c:432-498 | Clone, pops, copy and the push on the clone together put an open bracket before the last term and change nothing else |
| `FragmentIterate.Iterate` | sljit/regex_src/regexJIT.c:424-557 | On the fragments themselves: the last term is replaced by the bracketed repetition of it, whatever the bounds, and the number returned is what the summed weight gains or loses |
| `FragmentIterate.FindLast` | sljit/regex_src/regexJIT.c:433-476 | A clone of the stack is popped down to where the last term starts, and the stack itself is untouched |
| `FragmentIterate.Multiply` | sljit/regex_src/regexJIT.c:502-541 | Copying blocks within the fragments gives the mandatory and the optional copies in the right number |
| `JumpLayout.AllShrink` | sljit/sljit_src/sljitNativeARM_64.c:209-324 | For every stream of instructions, labels and jumps: no jump or address takes more words than the first pass set aside, although forward targets are judged on estimated positions |
| `JumpLayout.Judged` | sljit/sljit_src/sljitNativeARM_64.c:209-278 | The distance the second pass judges by is never longer than the first pass estimated, ahead and back |
| `JumpReach.JumpReaches` | sljit/sljit_src/sljitNativeARM_64.c:209-278 | Running the final code from a jump: a taken jump arrives at its target, an untaken one just behind it, with nothing else changed; near, conditional, page-relative and absolute forms |
| `JumpReach.AddressLoads` | sljit/sljit_src/sljitNativeARM_64.c:280-386 | The code for an address leaves the final address in the register and goes on behind it |
| `JumpRun.RunStands` | sljit/sljit_src/sljitNativeARM_64.c:491-608 | For every program of movable instructions, labels, jumps and addresses: a run of any length is a run of the generated code, which meets the same words with the same values and leaves the program where the program is left |
| `JumpRun.OneWay` | sljit/sljit_src/sljitNativeARM_64.c:491-608 | The program has one way to go on from a state, but for the register that a jump may use for its address |
| `JumpRun.StepStands` | sljit/sljit_src/sljitNativeARM_64.c:326-386 | Whatever the next word is, the generated code does it and stands at the word that follows |
| `JumpReach.ChoiceFits` | sljit/sljit_src/sljitNativeARM_64.c:209-278 | The form chosen on estimated positions suits the final distance and address |
| `JumpReach.LabelDistance` | sljit/sljit_src/sljitNativeARM_64.c:517-543 | A target ahead ends up no farther than it was judged to be |
| `JumpReach.CodeEncodable` | sljit/sljit_src/sljitNativeARM_64.c:326-386 | Every immediate of every generated instruction fits its field |
| `JumpReach.FitsAllocation` | sljit/sljit_src/sljitNativeARM_64.c:394-515 | The generated code never exceeds the room that was allocated |
| `JumpRewrite.RewritableCode` | sljit/sljit_src/sljitNativeARM_64.c:218-219 | A rewritable jump is always the five words MOVZ, MOVK, MOVK, MOVK and BR or BLR, however near its target is |
| `JumpRewrite.SetJumpAddr` | sljit/sljit_src/sljitNativeARM_64.c:3666-3683 | The four words are written anew for the new address, with the register found there; every other word stays |
| `JumpRewrite.RewrittenGenerated` | sljit/sljit_src/sljitNativeARM_64.c:3666-3683 | Then the code is the one generated for the program in which that jump has the new target, so whatever holds of generated code holds of it |
| `JumpRewrite.RewrittenReaches` | sljit/sljit_src/sljitNativeARM_64.c:3666-3683 | The rewritten jump, when taken, arrives at the new address |
| `JumpLanding.ShortestForm` | sljit/sljit_src/sljitNativeARM_64.c:209-278 | Of the forms that suit distance and address the shortest is chosen |
| `JumpLanding.RoomIsLength` | sljit/sljit_src/sljitNativeARM_64.c:433-486 | The room set aside in the first pass is the length of the form for the estimated distance |
| `JumpLanding.PageOffset` | sljit/sljit_src/sljitNativeARM_64.c:350-373 | For the distances that select the page form, the offset from the page is at most 0xffffffff, which is what the assertion at the point of use asks; the range tested before is tighter than the encoding needs |
| `JumpLanding.JumpAssertion` | sljit/sljit_src/sljitNativeARM_64.c:350-355 | Among the distances that select the page form, the bound asserted for jumps holds if and only if the distance is at most 0xfffff000 less the offset of the instruction in its page |
| `JumpLanding.JumpAssertionFails` | sljit/sljit_src/sljitNativeARM_64.c:352 | A jump that selects the page form and has the page offset 0xfffff004 |
| `JumpLanding.CondLands` | sljit/sljit_src/sljitNativeARM_64.c:233-240 | The condition of a conditional branch is inverted back: it branches exactly when the skipped jump would have been executed |
| `JumpLanding.LoadLoads` | sljit/sljit_src/sljitNativeARM_64.c:348-386 | Each way of loading an address computes it exactly |
| `JumpPasses.ReduceCodeSize` | sljit/sljit_src/sljitNativeARM_64.c:394-489 | Labels and jumps move to their reduced positions, every jump notes the room it keeps, and the size returned is the sum |
| `JumpPasses.TotalSize` | sljit/sljit_src/sljitNativeARM_64.c:421-472 | The room kept for one jump follows from the estimated distance alone |
| `JumpGenerate.PlaceLabel` | sljit/sljit_src/sljitNativeARM_64.c:528-536 | A label is placed where the word it stands before is about to go, also next to a jump for which no room was kept |
| `JumpGenerate.SeenIsChosen` | sljit/sljit_src/sljitNativeARM_64.c:209-251 | The fields that `detect_jump_type` reads give the same choice as the reference definition |
| `JumpEmit.DetectJumpType` | sljit/sljit_src/sljitNativeARM_64.c:209-278 | The jump's word, the skipping condition before it and the record change as the chosen form needs, and nothing else |
| `JumpEmit.MovAddrLength` | sljit/sljit_src/sljitNativeARM_64.c:280-324 | The number of words beyond the first that an address takes |
| `JumpWalk.Walk` | sljit/sljit_src/sljitNativeARM_64.c:523-576 | Walking the buffer with three ordered lists places every label and jump; the code ends where the layout says |
| `JumpFill.GenerateJumpOrMovAddr` | sljit/sljit_src/sljitNativeARM_64.c:326-386 | Exactly the words of one jump or address are overwritten, with the code of its form |
| `JumpFill.FillAddresses` | sljit/sljit_src/sljitNativeARM_64.c:578-596 | After the last jump every word of the code is final |
| `JumpFill.GenerateCode` | sljit/sljit_src/sljitNativeARM_64.c:491-608 | Both passes together: code that fits, is what the reference says, and has every label at its address |
| `JumpFill.CopiesInside` | sljit/sljit_src/sljitNativeARM_64.c:523-566 | A word is copied beyond the allocated room if and only if the code ends in a jump for which no room was kept and nothing before it came out shorter |
| `JumpFill.LoopCopiesOutside` | sljit/sljit_src/sljitNativeARM_64.c:523-566 | There is such a program: a conditional jump over nothing |
| `JumpBuild.Compiler.PushInst` | sljit/sljit_src/sljitNativeARM_64.c:192-199 | An instruction is appended and the size grows by one |
| `JumpBuild.Compiler.EmitLabel` | sljit/sljit_src/sljitNativeARM_64.c:2381-2395 | One label per position, in order |
| `JumpBuild.Compiler.EmitJump` | sljit/sljit_src/sljitNativeARM_64.c:2451-2475 | The skipping condition, the jump and the room for its longest form are appended |
| `JumpBuild.Compiler.EmitOpAddr` | sljit/sljit_src/sljitNativeARM_64.c:3627-3661 | The placeholder of an address and its record are appended |
| `JumpBuild.Compiler.SetTarget` | sljit/sljit_src/sljitLir.c:631-645 | Only the target of that jump changes |
| `JumpBuild.Compiler.Generate` | sljit/sljit_src/sljitNativeARM_64.c:491-608 | Everything emitted through these calls can be relaxed and comes out as proved |
| `LogicalImm.EncodeLogicalImm` | sljit/sljit_src/sljitNativeARM_64.c:683-746 | A non-zero result decodes, by DecodeBitMasks() of the Arm Architecture Reference Manual (DDI 0487), to the immediate; zero is returned if and only if there is no encoding or the encoding is the all-zero field |
| `LogicalImm.FindPeriod` | sljit/sljit_src/sljitNativeARM_64.c:701-714 | Halving finds the smallest period of the immediate |
| `LogicalImm.CountTrailingZero` | sljit/sljit_src/sljitNativeARM_64.c:654-679 | The position of the lowest one, and the value shifted down by it |
| `LogicalImm.CountsAreRun` | sljit/sljit_src/sljitNativeARM_64.c:716-745 | The two counts describe the element as a rotated run of ones |
| `LogicalImm.EncodingIsPeriod` | sljit/sljit_src/sljitNativeARM_64.c:701-745 | An encoding can only describe the smallest period, so none is missed |
| `Immediates.LoadImmediate` | sljit/sljit_src/sljitNativeARM_64.c:750-837 | Executing what is emitted leaves exactly the requested 64-bit value, in at most four instructions; in one if and only if some single move leaves it, but for 0x100000001; otherwise in no more than the half-words that are not all zeros, and than those that are not all ones |
| `Immediates.UnusedUnencoded` | sljit/sljit_src/sljitNativeARM_64.c:779-781 | One move would do for 0x100000001, but its encoding is the all-zero field, which is taken for no encoding |
| `Immediates.AloneSimple` | sljit/sljit_src/sljitNativeARM_64.c:757-789 | A value that one move leaves has one of the shapes that are tested for |
| `Immediates.MoveHalves` | sljit/sljit_src/sljitNativeARM_64.c:803-836 | The loops over half-words, after MOVZ or MOVN, write every half that differs and skip the others |
| `Immediates.LoadNegative` | sljit/sljit_src/sljitNativeARM_64.c:783-789 | Negative values of at most 32 bits |
| `MemOperand.EmitOpMem` | sljit/sljit_src/sljitNativeARM_64.c:1168-1240 | For every operand and access size the instructions address exactly what the operand says, and every field fits; the base register is not changed |
| `MemOperand.EmitBased` | sljit/sljit_src/sljitNativeARM_64.c:1190-1239 | Base and offset: scaled, unscaled, split at 4096 in both directions, or through a register; in one instruction if and only if an offset field holds the offset |
| `MemOperand.NearPageBelow` | sljit/sljit_src/sljitNativeARM_64.c:1222-1230 | The negative not naturally aligned case is exact because multiples of the access size have been dealt with before |
| `FrameEnter.EmitEnter` | sljit/sljit_src/sljitNativeARM_64.c:1246-1335 | The frame has the size announced; frame pointer, link register and every register the function may write are stored at their places, arguments are moved, every field fits and the stack pointer is a multiple of 16 throughout |
| `FrameEnter.EmitBody` | sljit/sljit_src/sljitNativeARM_64.c:1280-1330 | Registers go in pairs with one or two left over, as the reference layout says, for every number of integer and floating point registers |
| `FrameEnter.EmitDrop` | sljit/sljit_src/sljitNativeARM_64.c:1404-1421 | Any remaining size comes off the stack pointer exactly, through every split |
| `FrameEnter.EmitMoves` | sljit/sljit_src/sljitNativeARM_64.c:1339-1352 | Arguments end up in S0, S1, ... in order, floating point and scratch arguments skipped |
| `FrameLayout.HomesApart` | sljit/sljit_src/sljitNativeARM_64.c:1265-1330 | Saved registers have words of their own, above the local variables, which are above the frame pointer and link register |
| `FrameLayout.SavedSet` | sljit/sljit_src/sljitNativeARM_64.c:1283-1325 | Exactly the registers in use that a callee has to save are saved, apart from those kept by agreement |
| `FrameLayout.CalleeSavedNumbers` | sljit/sljit_src/sljitNativeARM_64.c:46-52 | The registers that are saved are x19 to x28 and v8 to v15 of the machine |
| `FrameRelease.EmitRelease` | sljit/sljit_src/sljitNativeARM_64.c:1451-1540 | Whatever the frame size, the stack pointer returns to its value at the call and every saved register is loaded from where it was stored |
| `FrameRelease.EmitRaise` | sljit/sljit_src/sljitNativeARM_64.c:1458-1489 | At most 512 bytes of the frame are left, for plain returns and returns to an address |
| `FrameRelease.RoundTrip` | sljit/sljit_src/sljitNativeARM_64.c:1451-1540 | Prologue, any body that leaves the frame alone, epilogue: all saved registers and the stack pointer are as at the call |
| `FrameRelease.CalleeSaved` | sljit/sljit_src/sljitNativeARM_64.c:1246-1335 | All registers that section 6.1 of the Procedure Call Standard for the Arm 64-bit Architecture asks a function to preserve are preserved |
| `ZeroInit.UnlistedUnobservable` | pwart/wagen.c:150-274 | For every body with block, loop, if, else, br, br_if, br_table and return: a run that starts with unlisted non-parameter locals holding anything behaves as if all were zero (section 4.4.7 of the WebAssembly Core Specification 1.0) |
| `ZeroInit.CodeSame` | pwart/wagen.c:136-143 | Code behaves the same whatever the locals hold that it does not read before writing |
| `ZeroInit.CodeAgrees` | pwart/wagen.c:150-263 | A local is flagged exactly when some read of it is not dominated by a write |
| `ZeroInit.ListedIffExposed` | pwart/wagen.c:264-275 | The list holds exactly the locals with such a read |
| `ZeroInit.ScanBody` | pwart/wagen.c:150-263 | The scan over the opcodes computes what the fold over the structured body says |
| `ZeroInit.PrepareFunc` | pwart/wagen.c:110-275 | The list of locals to clear |
| `ZeroInit.ForgetAbove` | pwart/wagen.c:178-198 | Leaving a block takes back exactly the marks made inside it |
| `ZeroInit.ExactLimit` | pwart/wagen.c:136-143 | Skipping the unlisted locals is sound for all bodies nested at most `depth` deep if and only if the depth stays below 0xffff and there are at most 0x8000 locals |
| `ZeroInit.DeepReadUnlisted` | pwart/wagen.c:237-243 | At depth 0xffff a first read goes unnoticed |
| `ZeroInit.WideIndexUnlisted` | pwart/wagen.c:267-271 | An index that does not fit 16 bits is listed as another one |
| `LazyStack.Generator.SaveStack` | pwart/opgen_utils.c:213-222 | One entry goes to its slot; every live value and every local keeps its value |
| `LazyStack.Generator.FindUser` | pwart/opgen_utils.c:80-111 | The lowest entry that uses the register, up to `upstack` below the top, or none if no such entry does |
| `LazyStack.Generator.GetFreeReg` | pwart/opgen_utils.c:516-579 | The register returned is used by no entry up to `upstack` below the top; if one had to be spilled, no value has changed |
| `LazyStack.Generator.LoadInto` | pwart/opgen_utils.c:606-641 | The value is in the register and the entry says so |
| `LazyStack.TransferKeeps` | pwart/opgen_utils.c:113-211 | Moving a value to a place nothing else uses changes no value |
| `LazyStack.OneUser` | pwart/opgen_utils.c:80-111 | A scratch register is used by at most one live entry |
| `LazyGen.LoadReg` | pwart/opgen_utils.c:606-641 | Afterwards the entry is in a scratch register of its own |
| `LazyGen.SettleTop` | pwart/wagen.c:331-335 | Pending flags are saved before any opcode that cannot use them |
| `LazyGen.GenLocalGet` | pwart/opgen_mem.c:12-15 | The new entry stands for the local itself |
| `LazyGen.SaveAliases` | pwart/opgen_mem.c:16-31 | Entries that stand for the local get a copy before it changes |
| `LazyGen.GenLocalStore` | pwart/opgen_mem.c:16-45 | set and tee as WebAssembly defines them |
| `LazyGen.GenBinary` | pwart/opgen_num.c:438-580 | add, sub, mul, and, or, xor, with the result in a register no operand below needs |
| `LazyGen.GenRelation` | pwart/opgen_num.c:8-106 | The comparison stays pending in the flags with the right condition |
| `LazyGen.GenEqz` | pwart/opgen_num.c:15-41 | A pending comparison is inverted, any other value compared with zero |
| `LazyGen.GenDivide` | pwart/opgen_num.c:457-540 | div and rem through the fixed registers R0 and R1, whatever was in them |
| `LazyGen.BringTo` | pwart/opgen_num.c:458-477 | One operand reaches its fixed register; whatever else was there is saved, and the other operand keeps its value |
| `LazyGen.GenSelect` | pwart/opgen_ctl.c:279-305 | The first value unless the condition is zero |
| `LazyGen.Gen` | pwart/wagen.c:319-346 | One opcode: the code emitted does to the machine what the instruction does to the program |
| `LazyGen.GenCode` | pwart/wagen.c:319-346 | For any straight-line sequence: every live stack entry and every local has the value that the WebAssembly semantics gives it |
| `LazySlots.LaidGapless` | pwart/opgen_utils.c:308-323 | On a stack without gaps, each slot at the next multiple of its size behind the one below and the first at its start, no instruction leaves a gap; all handlers promise to lay their entries so |
| `NumberLaws.OpcodeMeans` | pwart/opgen_num.c:43-106 | The instruction chosen for each comparison and each integer operation leaves the number that section 4.3.2 of the WebAssembly Core Specification gives, stated by signed readings, bits, remainders and quotients rounded toward zero |
| `NumberLaws.TrapsExactly` | pwart/opgen_num.c:458-540 | An instruction traps if and only if the operation has no result in its type |
| `NumberLaws.TrapMissed` | pwart/opgen_num.c:458-540 | What the code computes there instead |
| `Frames.FuncEnter` | pwart/opgen_utils.c:643-700 | Parameters stay where the caller put them; other locals get registers or stack places that do not overlap |
| `Frames.HostPuts` | pwart/pwart.c:154-188 | Arguments put by the host lie where a function expects its parameters |
| `Frames.HostGets` | pwart/pwart.c:190-231 | The host gets the values a function left, in order |
| `Frames.RstackPut` | pwart/pwart.c:154-166 | One value at the next multiple of its size |
| `Frames.RstackGet` | pwart/pwart.c:190-203 | The value at the next multiple of its size |
| `Frames.AllocateStack` | pwart/pwart.c:139-152 | The buffer starts at a multiple of 16, and its block can be found again |
| `Frames.OffsetsApart` | pwart/opgen_utils.c:36-47 | Values laid out one after the other do not overlap |
| `CallLayout.SaveScratchAll` | pwart/opgen_utils.c:232-245 | No value is left in a scratch register, and no value has changed |
| `CallLayout.LayOut` | pwart/opgen_utils.c:383-391 | The new offsets: four bytes up, then one after the other |
| `CallLayout.Resave` | pwart/opgen_utils.c:392-398 | Saved again from the last to the first, every argument is in its new slot; if none is run over, every value is kept |
| `CallLayout.ContiguousPlaces` | pwart/opgen_utils.c:36-47 | Arguments without gaps lie where the callee looks for its parameters |
| `Calls.PassArguments` | pwart/opgen_utils.c:359-430 | Nothing below the arguments is lost, and the callee reads the arguments as its parameters if and only if they lie without a gap, or can be moved without running over one another |
| `Calls.PassInPlace` | pwart/opgen_utils.c:417-424 | First argument at a multiple of eight: right if and only if there is no gap |
| `Calls.PassMoved` | pwart/opgen_utils.c:379-402 | Otherwise: right if and only if no argument is stored over one that has not moved yet |
| `Calls.GapNotDelivered` | pwart/opgen_utils.c:417-424 | With a gap there is a machine state for which the callee reads something else |
| `Calls.OverrunNotDelivered` | pwart/opgen_utils.c:392-398 | With an overrun two states of the program become the same for the callee |
| `Calls.ContiguousPass` | pwart/opgen_utils.c:379-424 | Arguments without gaps always meet the condition, whether they stay where they are or are moved |
| `ArgumentCode.GaplessPass` | pwart/opgen_utils.c:379-424 | On a stack without gaps the arguments can always be passed |
| `ArgumentCode.GenCall` | pwart/opgen_utils.c:359-430 | Arguments computed by straight-line code on such a stack: whatever the machine held, the callee reads the values that WebAssembly gives them, those below are kept, and the stack is without gaps again |
| `Calls.OverrunHappens` | pwart/opgen_utils.c:392-398 | A stack for which an argument is stored over one that has not moved yet |
| `CallReturn.PushResults` | pwart/opgen_utils.c:443-453 | The first result lies where the callee's frame was, the others follow |
| `CallReturn.WholeCall` | pwart/opgen_utils.c:359-453 | Across a call the arguments are delivered, every value below them survives, and the results take their place |
| `FuncReturn.EmitFuncReturn` | pwart/opgen_utils.c:478-491 | Each result is moved to the next multiple of its size from the start of the frame; with fewer values than results nothing is stored |
| `FuncReturn.ReturnsExactly` | pwart/opgen_utils.c:487-491 | For every stack and list of results: whatever the machine holds, all results arrive, if and only if none that lies in the frame is stored over by an earlier one that was not there already |
| `FuncReturn.HandBack` | pwart/opgen_utils.c:478-491 | The same of the code that is emitted |
| `FuncReturn.SingleResult` | pwart/opgen_utils.c:478-491 | A single result always is where the caller expects it |
| `FuncReturn.SwapLost` | pwart/opgen_utils.c:487-491 | Two parameters handed back in the opposite order: the condition is not met and the second result is lost |
| `WholeFunction.CompileFunction` | pwart/wagen.c:360-383 | For any straight-line function: entered with its arguments laid out and anything in its other locals, the code brings the stack to entries that stand for the results that WebAssembly gives for zeroed locals, and moves those to the start of the frame; they arrive whenever none is stored over another, and so always for a single one. It writes scratch registers, its locals and its own frame alone |
| `WholeFunction.ClearLocals` | pwart/opgen_utils.c:743-769 | The code on entry leaves zero in the listed locals and all else as it was |
| `WholeFunction.ClearedAlike` | pwart/wagen.c:136-143 | Started with only the listed locals cleared, the body runs to its end where it does with all cleared, with the same operand stack |
| `CompiledCall.CallComputes` | pwart/opgen_utils.c:359-453 | Compiled code that calls a compiled straight-line function: where the arguments are delivered, the results that WebAssembly gives take their place on the caller's stack, and everything below keeps its value |
| `CompiledCall.CalleeRespects` | pwart/opgen_utils.c:643-700 | A compiled function leaves alone what a caller relies on: with the prologue and epilogue around it, saved registers, the caller's part of the machine stack, and the frame below its own |
| `CompiledCall.RunConfined` | pwart/opgen_utils.c:643-700 | Code that writes scratch registers, its locals and the frame from its start changes no frame word below and no other register |
| `CallReturn.ResultFollows` | pwart/opgen_utils.c:370-382 | Where the result of a call without arguments lies, and when that leaves a gap |
| `CallReturn.NestedCallLoses` | pwart/opgen_utils.c:417-424 | In f(1, g()) with 32-bit types there is such a gap |
| `PassAgreement.EmitFunction` | pwart/wagen.c:360-383 | A body is accepted if and only if the generator knows its instructions and the byte before the place where it stops is 0x0b; then both passes have met the same instruction starts at the same nesting depth and have stopped at that place |
| `PassAgreement.PrepareFunc` | pwart/wagen.c:150-264 | The first pass walks as the second one does wherever the second one reports no error |
| `PassAgreement.GenCode` | pwart/wagen.c:319-346 | The second pass accepts exactly what the instruction layout of section 5.4 of the WebAssembly Core Specification, restricted to the opcodes it knows, allows |
| `PassAgreement.SkipImmediates` | pwart/wagen.c:14-106 | Immediates are skipped as the layout says |
| `PassAgreement.GenControl` | pwart/opgen_ctl.c:320-396 | Immediates of the control group, and the opcodes and block types that are refused |
| `PassAgreement.GenMem` | pwart/opgen_mem.c:485-573 | Immediates of the variable and memory groups |
| `PassAgreement.GenMisc` | pwart/opgen_misc.c:143-168 | Immediates of reference instructions and of the 0xfc group |
| `PassAgreement.ReadLeb` | pwart/util.c:70-95 | The value and the end of an unsigned LEB128 number |
| `PassEncoding.LayoutExactly` | pwart/wagen.c:14-106 | Bytes are read as one instruction if and only if they are an opcode that is generated with the immediates that the binary format gives it, numbers in any LEB128 form |
| `PassEncoding.BodyAccepted` | pwart/wagen.c:319-383 | Every body written out after the binary format, blocks, loops and conditionals nested in any way, is walked instruction by instruction at the right depths to its `end` and accepted |
| `PassAgreement.ClosedByEnd` | pwart/wagen.c:264 | A body that is closed passes the test of its last byte |
| `PassAgreement.LastByteMisleads` | pwart/wagen.c:264 | The test also passes for a body that is not closed, when its last immediate is 0x0b |
| `PassAgreement.UnclosedReachesEnd` | pwart/wagen.c:319-346 | A body that is not closed is walked to the end of the module |
| `PassAgreement.TypedSelectRefused` | pwart/wagen.c:337-340 | `select` with a type is refused wherever it stands |

## Left out

- Regex options and extensions: newline handling, non-greedy matching, the id that a match reports, allocation failure, and overflow in `decode_number`.
- Characters are numbers; that `char` may be signed in the 8-bit build is not modelled.
- RegexFind.FindMatch: says nothing about the id of the match.
- FragmentStack.Stack.Push: memory is always available; `stack_check` and `stack_destroy` are left out.
- FragmentStack.Stack.PushCopy: the model of the parser uses the sequence that the fragments stand for; `iterate` is also modelled on the fragments.
- Extended (aligned) labels, constant pools, executable-memory offsets, cache flushing and the Windows stack probe of the emitter.
- JumpBuild.Compiler.PushInst: the linked buffer fragments and their reversal are one sequence here; the lists of labels and jumps are arrays in order.
- JumpRun.RunStands: computed branches end the run; addresses in registers are final addresses, in the program as in the code.
- JumpFill.GenerateCode: the array has one word more than is allocated, so that the copy described above can be stated.
- MemOperand.EmitOpMem: the access itself is its address; what is loaded or stored is not modelled.
- FrameEnter.EmitEnter: outside Windows only; registers have the compiler's numbers, and the map to machine numbers is stated beside them.
- FrameRelease.RoundTrip: the body of the function is any change of the machine that leaves the frame alone.
- Floating point values, SIMD, shifts and rotates, memory instructions, globals, tables and 32-bit targets in the lazy operand stack.
- RegexParse.DecodeNumber: the number is not cut to the width of an int.
- LazyGen.Gen: the integer instructions of straight-line code; memory, control and floating point are left out.
- LazyGen.GenCode: straight-line code only; blocks and branches are covered by the zero-initialisation scan and the agreement of the passes.
- LazyGen.GenDivide: operands in registers, slots, locals or constants; the code addressing a value through a scratch register is not modelled.
- NumberLaws.OpcodeMeans: the machine's own instructions are given by the same definitions; that the hardware does what they say is assumed.
- LazyStack.Generator.GetFreeReg: seven scratch registers; register numbers above 15 are not modelled.
- Offsets in frames are unbounded; the code keeps them in 16 bits.
- Calls.PassArguments: ordinary calls; tail calls lay out their arguments from offset zero over the caller's parameters.
- CallReturn.WholeCall: what the callee does is any change that respects saved registers, the machine stack and the frame below its own; `CompiledCall.CallComputes` shows it for compiled straight-line functions, with prologue and epilogue taken as saving and restoring those registers.
- WholeFunction.CompileFunction: straight-line bodies with at most 0x8000 locals, each of which holds some value of its type on entry.
- Frames.FuncEnter: the extra locals that hold a memory base or table entries are left out.
- PassAgreement.GenCode: of the errors only unknown opcodes and block types are modelled; a table of 2^32 - 1 targets, which would never be read to its end, counts as an error.
- PassAgreement.ReadLeb: numbers are not cut to the width of the variable, and bytes beyond the module are zero.
- ZeroInit.UnlistedUnobservable: structured bodies with `block`, `loop`, `if`, `else`, `br`, `br_if`, `br_table` and `return`; any other instruction, calls and memory included, is some function of the operand stack and of the rest of the store, with operands as numbers, and blocks take no parameters.
- Module loading, WASI, host wrappers, namespaces and allocators: input, output and pointer plumbing.
