# A verified model of the trigger and event-building software

The modelled system is the online software of a streaming readout: front-end modules send
words without a hardware trigger, and programs on a FairMQ network frame, collect, filter and
merge them. This project models its four hardest parts.

**The logic trigger** (`Lexer`, `InfixToRpn`, `Grammar`, `Acceptance`, `Commands`, `Calculator`,
`RpnFormulas`, `LookupTable`, `UnpackTdc`, `EntryMaps`, `CoincidenceTrigger`, `TriggerMeaning`,
`MaskTrigger`, `BlockMap`, `Columns`, `LogicFilter`).
A Boolean formula over up to 31 signals is tokenized, parsed by recursive descent, printed as
postfix text, split into commands, run on a stack machine for every pattern of signals, and kept
as a lookup table. Time words paint windows of bits into a time region, and a scan reports the
times at which the table's answer turns from false to true. Each layer is proved to keep the
meaning of the one before, so the end-to-end result speaks of characters of a formula and of raw
data words: `TriggerMeaning.TriggerOnFormula` returns exactly the increasing list of times at
which the formula becomes true, and `LogicFilter.RunTrigger` does so for every heartbeat column of
a time frame.

**Event building** (`StfBuilder`, `StfProperties`, `StfMessages`, `TfBuilder`, `TfProperties`,
`TfRounds`, `EventBuilding`, `Routing`).
A builder frames a word stream that may be cut into messages anywhere; it is proved to be a
word-at-a-time machine in disguise, to lose nothing and to number its frames. A second builder
collects frames by number, sends complete collections, gives up incomplete ones and refuses late
parts. The two are put together into a distributed system in which sources, network and builders
step in any order; every time frame sent holds exactly one sub-time-frame of each source, no
number is sent twice, no frame disappears, and while the clock stays within the timeout every
complete time frame is sent.

**Splitters, lengths and buffers** (`Players`, `LengthRewrite`, `Suppression`, `EventBuffer`). Two
file players with differently written loops are proved to cut alike and to undo concatenation; suppression and
the rewriting of nested lengths are put together, and it is proved exactly when the lengths add up;
the event buffer is read back as written.

**The multi-threaded merger** (`Merger`, `MergerProgress`). Workers step freely; the merger's
round-robin polling restores the order in which inputs were dealt, and no run deadlocks.

`Bits` holds the arithmetic of 32-bit and 64-bit words (`Pow2`, `Bit`, `BitAnd`, `BitOr`, shifts
and wrap-around written out on natural numbers), `Outcomes` the option and result types.

Conventions. Methods follow the loops and field updates of the program; functions give the
meaning that a method's contract refers to; lemmas state what the program promises about that
meaning. A C++ exception is `Throw`. A `requires` stands where C++ leaves the behaviour undefined
(shifting by 32, taking the top of an empty stack, calling through a null pointer) or where the
program asserts.

Where the intended property does not hold of the code, the exact condition is stated, and an input
that fails:

- `LookupTable.ReuseIsSafeIff`, `ReadsOutside`: mask bits of an earlier formula stay in the table.
- `TriggerMeaning.WindowMeantIff`, `ShortRegionDiffers`: an unsigned subtraction wraps when half a
  mark exceeds the region.
- `LengthRewrite.HeaderLengths`, `FrameLength`, `Suppression.SuppressAndRewrite`, `OrphanExample`:
  suppressing the last data of a sub-time-frame unflags the header of the next one, whose data may
  then be sent without it.
- `TfProperties.LengthExactIff`, `OversizeExample`: the length of a time frame is summed in `int`.
- `Merger.CountsOfAnyRun`, `StaleCountExample`: `resize` keeps the counts of earlier channels.
- `EventBuffer.NamesCollideIff`: channel names are cut to 16 bits.

## Model

| member | source | states |
|---|---|---|
| Lexer.Tokenize | LogicFilter/infixtorpn.cxx:36-65 | the scanning loop yields the token list `Lex` of the line, or the error for the first foreign character |
| Lexer.ReadDigits | LogicFilter/infixtorpn.cxx:53-57 | the inner loop takes a maximal run of digits as one token |
| Lexer.SkipSpace | LogicFilter/infixtorpn.cxx:42-47 | skipping blanks changes no token and stops at the first non-blank |
| Lexer.SixBlanks | LogicFilter/infixtorpn.cxx:42-44 | exactly the six white-space characters are skipped |
| Lexer.LexSpell | LogicFilter/infixtorpn.cxx:36-65 | round trip: a token list spelled with any blanks (some between adjacent numbers) is tokenized back to itself |
| Lexer.LexIsSpelling | LogicFilter/infixtorpn.cxx:36-65 | every accepted line is a spelling of exactly the tokens returned |
| Lexer.LexRefuses | LogicFilter/infixtorpn.cxx:58-60 | a line is refused if and only if it holds a character that is neither blank, symbol nor digit |
| Lexer.LexNamesFirst | LogicFilter/infixtorpn.cxx:58-60 | the error names the first foreign character |
| InfixToRpn.TokenQueue.ParseOr | LogicFilter/infixtorpn.cxx:72-84 | popping from the shared queue yields the tree and leaves the rest that the recursive specification gives; terminates on every queue |
| InfixToRpn.TokenQueue.ParseAnd | LogicFilter/infixtorpn.cxx:86-100 | the same for the `&` level |
| InfixToRpn.TokenQueue.ParseNot | LogicFilter/infixtorpn.cxx:102-118 | the same for `!` |
| InfixToRpn.TokenQueue.ParseValue | LogicFilter/infixtorpn.cxx:120-142 | the same for numbers and parentheses, with a missing operand as an absent tree and both error cases |
| InfixToRpn.TokenQueue.PopFront | LogicFilter/infixtorpn.cxx:78-78 | the front token is returned and removed |
| InfixToRpn.InfixToAst | LogicFilter/infixtorpn.cxx:144-153 | tokenizing, parsing and refusing left-over tokens gives `Parse` of the characters |
| Grammar.ParseReads | LogicFilter/infixtorpn.cxx:72-142 | every concrete tree of the precedence grammar, read as tokens, parses to its abstract tree |
| Grammar.OrReads | LogicFilter/infixtorpn.cxx:72-84 | the parser of disjunctions reads one concrete tree in front of any continuation and goes on from there, left-associatively |
| Grammar.AndReads | LogicFilter/infixtorpn.cxx:86-100 | the same for `&` |
| Grammar.NotReads | LogicFilter/infixtorpn.cxx:102-118 | the same for `!`, parentheses and numbers |
| Grammar.TreeComplete | LogicFilter/infixtorpn.cxx:6-21 | trees of the grammar have every operand |
| Grammar.OrForm | LogicFilter/infixtorpn.cxx:72-142 | the printer with minimal parentheses gives a concrete tree of the grammar for every complete tree, denoting that tree |
| Grammar.PrintedFormulaParses | LogicFilter/infixtorpn.cxx:36-153 | printer and parser undo each other down to the characters: any complete tree, printed with minimal parentheses and any spacing, parses to itself |
| Grammar.AcceptedIsComplete | LogicFilter/infixtorpn.cxx:72-153 | an accepted token list yields a tree with every operand if and only if it is not empty and does not end in an operator |
| Grammar.ParenthesesAreComplete | LogicFilter/infixtorpn.cxx:125-133 | a missing operand never survives inside parentheses, whatever follows them |
| Grammar.ParseIffGrammar | LogicFilter/infixtorpn.cxx:72-153 | the accepted token lists with all operands, with their trees, are exactly those of the grammar |
| Acceptance.DanglingIsAccepted | LogicFilter/infixtorpn.cxx:72-153 | a token list ending in an operator is accepted if and only if one number more makes it a formula |
| Acceptance.AcceptedIff | LogicFilter/infixtorpn.cxx:72-153 | the accepted token lists are exactly the empty one, the formulas, and the formulas whose last number is missing behind an operator |
| Calculator.LogiCalc.ComPushBack | LogicFilter/LogiCalc.cxx:52-76 | a word is kept if and only if it is a signal below 32 or one of the five functions; the maximal signal is kept up to date |
| Calculator.LogiCalc.SetFormula | LogicFilter/LogiCalc.cxx:78-112 | commands and maximal signal of an infix or RPN formula; a formula that throws leaves the object unchanged |
| Calculator.LogiCalc.PushWords | LogicFilter/LogiCalc.cxx:93-111 | the find/substr loop takes exactly the maximal blank-free runs of the text, in order |
| Calculator.FindBlank | LogicFilter/LogiCalc.cxx:100-100 | the first separator at or after the offset, or none |
| Calculator.LogiCalc.Calc | LogicFilter/LogiCalc.cxx:114-163 | the stack loop returns the value of the command list on the word, false on an empty stack |
| Calculator.LogiCalc.Execute | LogicFilter/LogiCalc.cxx:119-152 | one command changes the stack as `Step` does, including binary operators with too few operands, swap and drop |
| Calculator.LogiCalc.ExecuteBinary | LogicFilter/LogiCalc.cxx:123-140 | the two top values are replaced by their conjunction, disjunction or swap; any other command leaves the stack |
| Calculator.DepthIndependent | LogicFilter/LogiCalc.cxx:114-163 | for arbitrary commands, definedness and stack depth are the same for every input word |
| Calculator.UndefinedOnlyByNot | LogicFilter/LogiCalc.cxx:141-144 | a command list is undefined if and only if some `!` meets an empty stack |
| Calculator.ExtractIsBit | LogicFilter/LogiCalc.cxx:42-50 | `ExtractBit` is the bit of the word, false from digit 32 on |
| Calculator.MaxSignalBounds | LogicFilter/LogiCalc.cxx:55-59 | the maximal signal is the least upper bound of the signals among the commands (0 if none) |
| Calculator.ValueOfLowBits | LogicFilter/LogiCalc.cxx:114-163 | arbitrary commands give the same value on v and on v modulo 2^(maximal signal + 1) |
| Calculator.PostfixComputes | LogicFilter/LogiCalc.cxx:114-163 | the commands of a complete tree push its value and leave the rest of the stack alone, whatever follows |
| Calculator.PostfixDepth | LogicFilter/LogiCalc.cxx:114-163 | the commands of a complete tree raise the depth by one and never lack operands |
| Calculator.WordsOfRpn | LogicFilter/infixtorpn.cxx:10-20 | splitting the printed text of a tree, complete or not, gives its postfix words |
| Calculator.TextRoundTrip | LogicFilter/LogiCalc.cxx:78-112 | printing to text, splitting and accepting loses no command of a complete tree with signals below 32 |
| Calculator.CompileCorrect | LogicFilter/LogiCalc.cxx:52-163 | compiling preserves meaning: the commands of a complete tree are defined and evaluate to the tree's truth value on the bits of every word |
| RpnFormulas.PrefixIsNotation | LogicFilter/LogiCalc.cxx:82-84 | behind either prefix the text is taken word by word as commands |
| RpnFormulas.AcceptedIff | LogicFilter/LogiCalc.cxx:52-76 | a word becomes a command if and only if it is a number below 32 or one of the five function words |
| RpnFormulas.SwapStep | LogicFilter/LogiCalc.cxx:134-139 | a swap exchanges the two top values |
| RpnFormulas.DropStep | LogicFilter/LogiCalc.cxx:145-151 | a drop removes the top value, and does nothing on an empty stack |
| RpnFormulas.TooFewOperands | LogicFilter/LogiCalc.cxx:123-140 | with fewer than two values a binary operator or a swap does nothing |
| RpnFormulas.SwapDropKeepsSecond | LogicFilter/LogiCalc.cxx:78-163 | the RPN text of a, b, swap, drop evaluates to b for all complete a and b |
| RpnFormulas.DropKeepsFirst | LogicFilter/LogiCalc.cxx:78-163 | the RPN text of a, b, drop, swap evaluates to a |
| RpnFormulas.DropsLeaveFalse | LogicFilter/LogiCalc.cxx:155-162 | with everything dropped the answer is false |
| LookupTable.TriggerMap.MakeTable | LogicFilter/TriggerMap.cxx:44-97 | the table has 2^n entries holding the formula's value for each pattern; the mask gains n ones and keeps its old bits; a formula that throws changes nothing |
| LookupTable.TriggerMap.FillTable | LogicFilter/TriggerMap.cxx:54-94 | every entry of the table is the calculator's value for its index |
| LookupTable.TriggerMap.SetMask | LogicFilter/TriggerMap.cxx:52-52 | the loop ORs n ones into the mask |
| LookupTable.LookUpIsValue | LogicFilter/TriggerMap.cxx:99-106 | with a fresh mask, looking up any 32-bit word, also beyond the table, stays inside the table and gives the calculator's value |
| LookupTable.LookUpIsEval | LogicFilter/TriggerMap.cxx:44-106 | the table of a complete formula with signals up to 30 answers every 32-bit word as the formula's tree evaluates |
| LookupTable.CompleteIsTabulable | LogicFilter/TriggerMap.cxx:44-52 | a complete formula with signals up to 30 meets all that `MakeTable` demands |
| LookupTable.ReuseIsSafeIff | LogicFilter/TriggerMap.cxx:52-52 | since the mask is never reset, lookups stay inside a second table for every word if and only if the earlier formula had no more signals |
| LookupTable.ReadsOutside | LogicFilter/TriggerMap.cxx:99-106 | with a larger earlier formula the pattern 2^n is looked up outside the table |
| UnpackTdc.UnpackHReads | LogicFilter/UnpackTdc.h:92-133 | every word of a TDC64H module: a leading edge is tiled by kind, channel, width and time with coarse time time/4096; a heartbeat or spill word by kind, flag, spill and heartbeat number; any other word has no field |
| UnpackTdc.UnpackLReads | LogicFilter/UnpackTdc.h:246-290 | the same for all words of TDC64L version 2, with six kinds of time words and coarse time time/4 |
| UnpackTdc.UnpackHV3Reads | LogicFilter/UnpackTdc.h:325-378 | every word of a TDC64H_V3 module: times as before; the first heartbeat word is tiled by flag, offset and heartbeat number, the second by flag, generated and transferred size; any other word has no field |
| UnpackTdc.UnpackLV3Reads | LogicFilter/UnpackTdc.h:412-465 | the same for TDC64L_V3 with its 8-bit channel and coarse time time/4 |
| UnpackTdc.CoarseTimeFits | LogicFilter/LogicFilter.cxx:243-243 | for all four decoders a leading-edge coarse time is below 2^17, the region size that is set |
| UnpackTdc.EdgeIsDecoded | LogicFilter/Trigger.cxx:237-331 | for each kind of module, read off the raw word: the decoder picked finds a leading edge on channel ch exactly when the top six bits are 0x0b and the channel bits are ch, at the time in the 17 highest time bits |
| CoincidenceTrigger.Trigger.constructor | LogicFilter/LogicFilter.cxx:239-244 | a new trigger has no signals, an empty mask and a region of the given size |
| CoincidenceTrigger.Trigger.Entry | LogicFilter/Trigger.cxx:174-192 | the entry maps stay an index, by module, of the signals in order of entry, signal n owning bit n |
| CoincidenceTrigger.Trigger.ClearEntry | LogicFilter/Trigger.cxx:194-203 | all signals are forgotten |
| CoincidenceTrigger.Trigger.MakeTable | LogicFilter/Trigger.cxx:93-97 | the trigger's table is that of the formula, and ready for every pattern when the mask was clear |
| CoincidenceTrigger.Trigger.CleanUpTimeRegion | LogicFilter/Trigger.cxx:124-128 | every time is zero |
| CoincidenceTrigger.HitTime | LogicFilter/Trigger.cxx:241-241 | the hit is the coarse time bits of the raw word plus the signal's delay, inside `int` |
| CoincidenceTrigger.Half | LogicFilter/Trigger.cxx:250-251 | half the mark length, rounded toward zero |
| CoincidenceTrigger.Trigger.PaintWindow | LogicFilter/Trigger.cxx:250-262 | despite the unsigned tests the loop sets exactly the signal's bit at the times the tests admit, and no other bit |
| CoincidenceTrigger.Trigger.MarkWord | LogicFilter/Trigger.cxx:237-356 | a word paints its window if it is a leading edge of the signal's channel, nothing otherwise |
| CoincidenceTrigger.Trigger.MarkWords | LogicFilter/Trigger.cxx:235-358 | all words of the segment for one entered signal |
| CoincidenceTrigger.Trigger.Mark | LogicFilter/Trigger.cxx:212-372 | exactly the windows of the signals of the segment's module are added to the region, nothing is erased |
| CoincidenceTrigger.Trigger.Scan | LogicFilter/Trigger.cxx:374-405 | the hits are exactly the increasing list of times at which the commands' answer turns from false to true |
| CoincidenceTrigger.Trigger.Exec | LogicFilter/Trigger.cxx:407-455 | whatever the region held before: afterwards each time holds exactly the signals lit by the segments, and the hits are the rising edges |
| EntryMaps.IndexMore | LogicFilter/Trigger.cxx:177-181 | filing one signal under its module keeps the three maps aligned and loses no earlier signal |
| EntryMaps.EntryKeeps | LogicFilter/Trigger.cxx:177-181 | count, mask and maps after one more entry are those of the signals entered, signal n owning bit n |
| EntryMaps.NumbersOf | LogicFilter/Trigger.cxx:214-221 | the slots filed under a module are exactly those of its signals |
| CoincidenceTrigger.RisingAdd | LogicFilter/Trigger.cxx:388-391 | looking at one more time appends it exactly when the answer turns true |
| CoincidenceTrigger.PaintedBits | LogicFilter/Trigger.cxx:250-262 | painting a clean region leaves at each time exactly the set of lit signals |
| TriggerMeaning.WindowIsMeant | LogicFilter/Trigger.cxx:250-254 | for every hit time in `int` the wrapped tests admit t if and only if 0 <= T < size - h and the distance from t to T is at most h |
| TriggerMeaning.ShortRegionDiffers | LogicFilter/Trigger.cxx:250-250 | with a region shorter than half a mark the subtraction wraps and time 0 is painted although it should not be |
| TriggerMeaning.WindowMeantIff | LogicFilter/Trigger.cxx:250-254 | the tests mean the window for all hits and times if and only if half a mark fits the region |
| TriggerMeaning.OnAtIsMeant | LogicFilter/Trigger.cxx:212-372 | the signals on at t are exactly those with a word, in a segment of their module, whose raw bits say leading edge on their channel at a time that delayed is within half a mark of t and before the last half mark of the region |
| TriggerMeaning.EnterSignals | LogicFilter/LogicFilter.cxx:239-266 | entering a list of signals into a new trigger numbers them in order |
| TriggerMeaning.TriggerOnText | LogicFilter/LogicFilter.cxx:237-275 | end to end for a formula in either notation: the times, in increasing order, at which its commands turn true on exactly the signals that are on, or the error of a formula that does not parse |
| TriggerMeaning.TriggerOnFormula | LogicFilter/LogicFilter.cxx:237-275 | for an infix formula with all operands and signals up to 30 these are exactly the times t >= 1 at which the formula itself turns true |
| TriggerMeaning.FormulaDecides | LogicFilter/Trigger.cxx:388-389 | looking up the painted bits decides the formula on the signals that are on |
| TriggerMeaning.HitsApart | LogicFilter/Trigger.cxx:381-392 | consecutive hits are at least 2 apart |
| TriggerMeaning.HitsUnique | LogicFilter/Trigger.cxx:381-392 | the list of hits is determined by the formula's value over time |
| TriggerMeaning.OrderIsImmaterial | LogicFilter/Trigger.cxx:407-455 | reordering, splitting, merging or repeating segments and words changes no hit |
| MaskTrigger.MaskTrigger.Entry | exam3/trigger.cxx:142-158 | the three maps, count and mask stay those of the signals in order of entry; the mask of n entries is n ones |
| MaskTrigger.MaskTrigger.Scan | exam3/trigger.cxx:269-309 | the hits are exactly the times at which all bits of the mask become set |
| MaskTrigger.ConjunctionAsksAll | exam3/trigger.cxx:291-292 | the formula `0 & 1 & ... & n-1` holds if and only if all n signals are on |
| MaskTrigger.OnesContained | exam3/trigger.cxx:291-292 | a word contains the mask of n ones if and only if its bits 0 to n-1 are set |
| MaskTrigger.MaskIsConjunction | exam3/trigger.cxx:291-292 | the mask test and the conjunction agree on every 32-bit word |
| MaskTrigger.ScansAgree | exam3/trigger.cxx:269-309 | for 1 <= n <= 31 mask-based and table-based scan give the same hits on every region |
| MaskTrigger.ConjunctionText | LogicFilter/infixtorpn.cxx:36-153 | the printed conjunction parses back to it |
| MaskTrigger.ConjunctionIsTabulable | LogicFilter/TriggerMap.cxx:44-52 | the conjunction of up to 31 signals can be tabulated |
| BlockMap.MakeBlockMap | LogicFilter/LogicFilter.cxx:535-646 | the loop over the messages yields the rows that the walk `WalkTo` describes |
| BlockMap.MinimumSize | LogicFilter/LogicFilter.cxx:929-936 | the length of a shortest row |
| BlockMap.BuildHBF | LogicFilter/LogicFilter.cxx:678-732 | for a slot in every row, all indices are valid and the list is one entry for each row whose block there is neither heartbeat nor dummy, in row order, with that row's module and words |
| BlockMap.ColumnIs | LogicFilter/LogicFilter.cxx:686-716 | a column lists exactly the rows whose block is neither heartbeat nor dummy, each once, in order |
| BlockMap.MapOfTimeFrame | LogicFilter/LogicFilter.cxx:535-646 | one row per sub-time-frame, labelled with it and referring only to messages behind its own header; the rows in order refer to every message exactly once and in order; in split mode 1 no row starts with a heartbeat or has two in a row |
| BlockMap.WalkOwns | LogicFilter/LogicFilter.cxx:562-573 | at every point of the loop row r holds messages of sub-time-frame r only |
| BlockMap.ColumnsAreFrames | LogicFilter/LogicFilter.cxx:603-643 | in split mode 1, when data is always followed by its heartbeat, columns 2k and 2k+1 of every row are the data (or a dummy) and the heartbeat of heartbeat frame k of that row |
| BlockMap.IsHartBeat | LogicFilter/LogicFilter.cxx:385-436 | not negative exactly for heartbeat words of the known kinds of modules |
| BlockMap.IsHeartbeat | LogicFilter/LogicFilter.cxx:583-594 | a message is a heartbeat if and only if the top six bits of its first word are 0x1c, the word is not the frame header's magic, and the module type is known |
| Columns.WalkIsColumns | LogicFilter/LogicFilter.cxx:546-645 | at every point of the loop the rows hand to each column exactly the messages that, told from the messages alone, belong there |
| Columns.MapColumns | LogicFilter/LogicFilter.cxx:686-716 | what a column hands to the trigger is exactly, in order, the messages whose place in their own sub-time-frame is that column and which are no heartbeats, with their header's identifiers |
| Columns.HandedSources | LogicFilter/LogicFilter.cxx:689-713 | message k is the source of an entry of the column if and only if it is data of that place and no heartbeat |
| Columns.CompleteColumns | LogicFilter/LogicFilter.cxx:929-936 | a column is in every row if and only if every sub-time-frame reaches it |
| Columns.SlotIsPlace | LogicFilter/LogicFilter.cxx:643-643 | except in split mode 1 a message's column is the number of messages between it and its header |
| Columns.SlotIsFrame | LogicFilter/LogicFilter.cxx:603-643 | in split mode 1 with periodic bodies frame k has column 2k for its data and 2k+1 for its heartbeat |
| Columns.HandedInMode1 | LogicFilter/LogicFilter.cxx:603-713 | then odd columns hand nothing over and column 2k exactly the data of frame k |
| BlockMap.MessagesAreData | LogicFilter/LogicFilter.cxx:546-645 | the positions covered are distinct, increasing and those of messages only |
| BlockMap.MapIsSound | LogicFilter/LogicFilter.cxx:678-732 | every block of the map can be read by `BuildHBF` |
| LogicFilter.RunSlot | LogicFilter/LogicFilter.cxx:952-962 | one column: the hits are exactly the times the formula turns true on that column's entries |
| LogicFilter.RunColumns | LogicFilter/LogicFilter.cxx:952-991 | the loop over the columns: one such list for exactly the columns that every row has |
| LogicFilter.RunTrigger | LogicFilter/LogicFilter.cxx:929-991 | a whole time frame, told from its messages alone: one list of hits for exactly the columns that every sub-time-frame reaches, each list the times the formula turns true on the messages of that place, heartbeats excepted |
| StfBuilder.HulStrTdcSTFBuilder.constructor | elph2018/HulStrTdcSTFBuilder.cxx:333-339 | the initial state |
| StfBuilder.HulStrTdcSTFBuilder.NewData | elph2018/HulStrTdcSTFBuilder.cxx:360-368 | a working frame with an empty header place exists; an existing one stays |
| StfBuilder.HulStrTdcSTFBuilder.FinalizeSTF | elph2018/HulStrTdcSTFBuilder.cxx:163-180 | the working frame gets its header and joins the output, the number is incremented, the count cleared |
| StfBuilder.HulStrTdcSTFBuilder.FillData | elph2018/HulStrTdcSTFBuilder.cxx:121-158 | leftovers and slice become one message, the frame may end, the last word becomes a message unless it is a spill end |
| StfBuilder.HulStrTdcSTFBuilder.ScanWord | elph2018/HulStrTdcSTFBuilder.cxx:56-107 | one round of the loop with its offset amounts to one step of the word machine |
| StfBuilder.HulStrTdcSTFBuilder.EndOfBlock | elph2018/HulStrTdcSTFBuilder.cxx:87-106 | the part of the round for heartbeat, error and spill-end words amounts to one step |
| StfBuilder.HulStrTdcSTFBuilder.BuildFrame | elph2018/HulStrTdcSTFBuilder.cxx:31-116 | offsets, slices and leftovers refine the word-at-a-time machine on every message |
| StfBuilder.HulStrTdcSTFBuilder.HandleData | elph2018/HulStrTdcSTFBuilder.cxx:186-291 | every finished frame is sent, in order, to destination id modulo the number of destinations, with its monitoring copy |
| StfBuilder.HulStrTdcSTFBuilder.SendFront | elph2018/HulStrTdcSTFBuilder.cxx:204-230 | the first finished frame is taken off and copied part by part |
| StfBuilder.RunHeaders | elph2018/HulStrTdcSTFBuilder.cxx:232-232 | every finished frame starts with its header |
| StfProperties.RunAppend | elph2018/HulStrTdcSTFBuilder.cxx:31-116 | running over a concatenation is running over the parts in turn |
| StfProperties.ServeIsRun | elph2018/HulStrTdcSTFBuilder.cxx:186-291 | handling messages one by one and sending after each gives the frames and state of the uncut stream |
| StfProperties.CutsAreImmaterial | elph2018/HulStrTdcSTFBuilder.cxx:31-180 | however a word stream is cut into messages, the frames sent and the state left are the same, in both split modes |
| StfProperties.HeartbeatStep | elph2018/HulStrTdcSTFBuilder.cxx:87-101 | what a heartbeat or error word does in each split mode, at and below the limit |
| StfProperties.SpillStep | elph2018/HulStrTdcSTFBuilder.cxx:87-106 | what a spill end does: in split mode 1 at the limit it ends two frames, otherwise one |
| StfProperties.RunKeeps | elph2018/HulStrTdcSTFBuilder.cxx:31-180 | shape of frames, numbering and counts are kept by every word |
| StfProperties.FramesOfAnyRun | elph2018/HulStrTdcSTFBuilder.cxx:163-180 | in any run frame n is numbered n, announces its total bytes and its number of messages, and holds exactly the maximal number of heartbeats, or fewer and a final spill end |
| StfProperties.HeaderTells | elph2018/HulStrTdcSTFBuilder.cxx:166-174 | the header holds the frame's number modulo 2^32, the module, the bytes of all parts and the number of parts, itself included |
| StfProperties.FrameHasMessage | elph2018/TimeFrameBuilder.cxx:35-35 | every frame has a header and at least one message, as the receiver asserts |
| StfProperties.FrameCarriesNumber | elph2018/HulStrTdcSTFBuilder.cxx:167-167 | below 2^32 frames the identifier in the header is the frame's number |
| StfProperties.StepTakes | elph2018/HulStrTdcSTFBuilder.cxx:63-106 | one word with a valid head is taken over, any other dropped |
| StfProperties.NoWordLost | elph2018/HulStrTdcSTFBuilder.cxx:31-180 | conservation: words of finished frames, working frame and leftovers together are the valid words of the stream, in order |
| StfMessages.RunGroups | elph2018/HulStrTdcSTFBuilder.cxx:82-158 | in any run the message boundaries are determined by the words: each mark is a message, all data between two marks is one message, and the leftovers are exactly the data since the last mark |
| StfMessages.BlocksAreMaximal | elph2018/HulStrTdcSTFBuilder.cxx:126-138 | no frame and no body being built has two neighbouring data blocks, and the body being built is empty or ends in a mark |
| StfMessages.MessagesAlternate | elph2018/HulStrTdcSTFBuilder.cxx:126-156 | every message is a mark or a non-empty data block with a mark behind it |
| StfMessages.DeliveredInOrder | elph2018/HulStrTdcSTFBuilder.cxx:196-288 | every frame is sent once, in order, unchanged, towards its identifier modulo the destinations, with its monitoring copy if there is a monitoring channel |
| StfProperties.MonitorSelects | elph2018/HulStrTdcSTFBuilder.cxx:210-226 | of a body the monitoring channel gets exactly the heartbeat, error and spill-end words, in order |
| StfProperties.MonitorOfFrame | elph2018/HulStrTdcSTFBuilder.cxx:205-229 | the monitoring copy of a frame is its header followed by exactly those words |
| TfBuilder.TimeFrameBuilder.Accept | elph2018/TimeFrameBuilder.cxx:34-52 | a part is buffered under its identifier with the current time, or refused if the identifier was given up |
| TfBuilder.TimeFrameBuilder.VisitOne | elph2018/TimeFrameBuilder.cxx:57-135 | a complete collection is sent on every output socket and erased, one that is too old is given up and erased, any other stays |
| TfBuilder.TimeFrameBuilder.SendToAll | elph2018/TimeFrameBuilder.cxx:97-116 | the frame is sent once on every socket, so all sockets carry the same sequence of frames |
| TfBuilder.TimeFrameBuilder.Sweep | elph2018/TimeFrameBuilder.cxx:55-137 | every buffered identifier is visited exactly once, in the container's arbitrary order, while entries are erased |
| TfBuilder.TimeFrameBuilder.ConditionalRun | elph2018/TimeFrameBuilder.cxx:27-139 | one round is a receive step and a sweep, and keeps the invariant for every clock reading |
| TfBuilder.ReceiveKeeps | elph2018/TimeFrameBuilder.cxx:41-51 | receiving keeps the invariant |
| TfBuilder.VisitKeeps | elph2018/TimeFrameBuilder.cxx:57-135 | visiting keeps the invariant and settles the identifier |
| TfBuilder.SweepStep | elph2018/TimeFrameBuilder.cxx:57-135 | erasing while iterating visits no identifier twice and misses none |
| TfBuilder.ReceiveBalances | elph2018/TimeFrameBuilder.cxx:41-51 | a received part is buffered or refused, never both |
| TfBuilder.VisitBalances | elph2018/TimeFrameBuilder.cxx:60-126 | parts leave the buffer only by being sent or timed out |
| TfProperties.VisitsKeep | elph2018/TimeFrameBuilder.cxx:55-137 | the same over any sequence of visits |
| TfProperties.RoundKeeps | elph2018/TimeFrameBuilder.cxx:27-139 | after any round every buffered identifier has between 1 and numSource - 1 entries in order of arrival and was not given up, and every part received is buffered, sent, timed out or refused, once |
| TfRounds.RoundDecides | elph2018/TimeFrameBuilder.cxx:27-139 | a round decides every buffered identifier: exactly the complete collections are sent, with exactly their parts; an identifier is given up and its parts time out if and only if it was incomplete and its first part arrived more than the timeout before its visit; the rest stays; a part is refused if and only if its identifier was given up before |
| TfRounds.VisitsDecide | elph2018/TimeFrameBuilder.cxx:55-137 | the same for any sequence of visits |
| TfRounds.CompleteFrames | elph2018/TimeFrameBuilder.cxx:60-77 | a time frame is sent if and only if it is made of a complete collection |
| TfRounds.RoundIsPunctual | elph2018/TimeFrameBuilder.cxx:119-126 | while the clock stays within the timeout nothing is given up, timed out or refused |
| TfProperties.GivenUpStaysGivenUp | elph2018/TimeFrameBuilder.cxx:41-51 | in any run, a time frame that was given up is never sent later |
| TfProperties.LengthExactIff | elph2018/TimeFrameBuilder.cxx:67-71 | the length field equals header plus all bytes if and only if each sub-time-frame is below 2^31 bytes |
| TfProperties.OversizeExample | elph2018/TimeFrameBuilder.cxx:67-71 | a sub-time-frame of 2^31 + 4 bytes makes the inner sum negative and the length field wrong |
| EventBuilding.RunInv | elph2018/HulStrTdcSTFBuilder.cxx:278-279 | in every interleaving of sources, network and builders: what is finished and routed is on its way or received |
| EventBuilding.SourceKeeps | elph2018/HulStrTdcSTFBuilder.cxx:278-279 | a word at any source keeps that |
| EventBuilding.BuilderKeeps | elph2018/TimeFrameBuilder.cxx:33-80 | a round of any builder keeps that |
| EventBuilding.FrameNumber | elph2018/HulStrTdcSTFBuilder.cxx:163-180 | frame k of a source carries identifier k |
| EventBuilding.Pigeonhole | elph2018/TimeFrameBuilder.cxx:60-60 | n distinct source numbers below n are all of them |
| EventBuilding.EachFrameOneFromEach | elph2018/TimeFrameBuilder.cxx:33-80 | in every interleaving, with or without time-outs, a time frame sent holds exactly one sub-time-frame from each source, all of its number |
| EventBuilding.NoIdSentTwice | elph2018/TimeFrameBuilder.cxx:33-80 | in every interleaving no identifier is sent twice, by one builder or by two |
| EventBuilding.EveryFrameAccounted | elph2018/TimeFrameBuilder.cxx:33-135 | a frame finished by a source is on its way, buffered, sent, timed out or refused, and in exactly one of these once |
| EventBuilding.DeliveriesAreSound | elph2018/TimeFrameBuilder.cxx:35-35 | all that is on its way satisfies the receiver's assertion and belongs to that builder |
| EventBuilding.DeliveredIsSent | elph2018/TimeFrameBuilder.cxx:55-80 | in any run, once the frames of all sources with one number have left the network while their builder's clock stays within the timeout, the time frame has been sent |
| EventBuilding.KeptIsSent | elph2018/TimeFrameBuilder.cxx:55-80 | the same for any clock if none of these frames was timed out or refused |
| EventBuilding.RunIsPunctual | elph2018/TimeFrameBuilder.cxx:119-126 | in any run a builder whose clock is within the timeout has given nothing up |
| Routing.RoutedIsSent | elph2018/HulStrTdcSTFBuilder.cxx:278-279 | what the protocol puts on the way to builder d is exactly what is sent in direction d |
| Routing.ReadsIsRun | elph2018/HulStrTdcSTFBuilder.cxx:56-107 | reading words one protocol step each ends where the run over the message ends, only adding finished frames |
| Routing.RoutedAlongIs | elph2018/HulStrTdcSTFBuilder.cxx:56-107 | what the single steps route adds up to all frames finished between the first and the last state |
| Routing.MessageIsSteps | elph2018/HulStrTdcSTFBuilder.cxx:186-291 | the protocol steps for one message put on the way to each builder exactly the frames the handler sends there |
| Players.TfbSplit | exam4/TFBFilePlayer.cxx:113-172 | the loop sends the messages of `TfbCut`, and what stays open after the last word is never sent |
| Players.StfbSplit | exam4/STFBFilePlayer.cxx:193-279 | the loop with the previous word kept sends the messages of `StfbCut` |
| Players.PlayersAgree | exam4/TFBFilePlayer.cxx:134-156 | both loops cut every body alike, in both modes |
| Players.CutKeepsAll | exam4/STFBFilePlayer.cxx:193-279 | the messages followed by the unsent tail are the body |
| Players.Mode0Cuts | exam4/STFBFilePlayer.cxx:204-229 | in mode 0 every message ends at its only delimiter and the tail has none |
| Players.Mode0Unique | exam4/STFBFilePlayer.cxx:204-229 | no other cutting has that shape |
| Players.Mode1Cuts | exam4/STFBFilePlayer.cxx:230-277 | in mode 1 a delimiter inside a message is either its first word or the second word of a two-word message opened by a heartbeat; the tail has a delimiter at most at its front |
| Players.Mode1Shaped | exam4/STFBFilePlayer.cxx:230-277 | on any body every mode-1 message is a heartbeat with the delimiter behind it, or words with a delimiter at most in front that the next delimiter cuts off |
| Players.Mode1Unique | exam4/STFBFilePlayer.cxx:230-277 | no other cutting of a body has that shape |
| Players.Mode1Inverse | exam4/STFBFilePlayer.cxx:230-277 | on bodies made of optional data blocks and heartbeat pairs, splitting undoes concatenation |
| Merger.TaskProcessorMT.InitChannels | e16/TaskProcessorMT.cxx:38-69 | empty channels and zero totals; per-channel counts keep what an earlier call left |
| Merger.TaskProcessorMT.MergerRound | e16/TaskProcessorMT.cxx:112-146 | one round polls channel output modulo n and, if something is there, takes it and counts it |
| Merger.TaskProcessorMT.WorkerReceive | e16/TaskProcessorMT.cxx:155-168 | a free worker takes the next message of its own channel |
| Merger.TaskProcessorMT.WorkerAnswer | e16/TaskProcessorMT.cxx:162-162 | a worker puts one answer for its message into its own merger channel |
| Merger.RunKeeps | e16/TaskProcessorMT.cxx:109-188 | in every interleaving output k came from channel k mod n and is that channel's (k div n)-th answer |
| Merger.TurnsIs | e16/TaskProcessorMT.cxx:113-113 | after k rounds of polling channel i had k div n turns, or one more |
| Merger.DealingKeeps | e16/TaskProcessorMT.h:9-16 | dealing round-robin puts input k into channel k mod n |
| Merger.OrderRestored | e16/TaskProcessorMT.cxx:109-188 | with round-robin dealing, in every interleaving output k is the answer to input k |
| Merger.MergerProgresses | e16/TaskProcessorMT.cxx:112-146 | when all workers have caught up and outputs are missing, the polled channel is not empty |
| MergerProgress.EverythingIsDeliverable | e16/TaskProcessorMT.cxx:109-188 | no deadlock: any run with round-robin dealing can be continued without new inputs until the outputs are the answers to all inputs, in order |
| MergerProgress.OneMoreOutput | e16/TaskProcessorMT.cxx:112-162 | while an input is missing in the output, a receive and an answer of one worker and a poll hand out one more |
| MergerProgress.InputsCounted | e16/TaskProcessorMT.cxx:161-161 | the input counter is the number of inputs less those still waiting for their worker |
| Merger.CountsOfAnyRun | e16/TaskProcessorMT.cxx:49-51 | growths of the per-channel counts differ by at most 1; the counts sum to the outputs if and only if they started at zero |
| Merger.StaleCountExample | e16/TaskProcessorMT.cxx:49-51 | after one output and a second initialisation the counts still sum to 1 |
| LengthRewrite.Rewrite | exam3/fltcoin.cxx:623-661 | every sub-time-frame header is settled by its own body, the frame length is the kept bytes in 32 bits, and nothing else changes |
| LengthRewrite.BodyLength | exam3/fltcoin.cxx:630-643 | the inner loop sums the kept messages up to the next header |
| LengthRewrite.TotalLength | exam3/fltcoin.cxx:655-660 | the sum over all kept messages |
| LengthRewrite.HeaderLengths | exam3/fltcoin.cxx:644-650 | for any flags: a header stays if and only if it was flagged and some message of its body is kept, and then its length is header plus kept messages; so "dropped iff nothing of its body is kept" holds if and only if the header was flagged or had nothing to keep |
| LengthRewrite.HeaderValues | exam3/fltcoin.cxx:630-650 | the same for any sizes, modulo 2^32: a header is also dropped when the kept bytes are a multiple of 2^32 |
| LengthRewrite.BytesAddUp | exam3/fltcoin.cxx:655-660 | all kept bytes are those of the open body, of the kept sub-time-frames and the orphans whose header is dropped |
| LengthRewrite.LengthsAddUp | exam3/fltcoin.cxx:644-650 | the sum of the rewritten lengths is the sum of header and body bytes of the kept sub-time-frames, modulo 2^32 and, below 2^32 bytes, exactly |
| LengthRewrite.FrameLength | exam3/fltcoin.cxx:655-661 | for any flags: the time frame's length is its header plus the lengths of the kept sub-time-frames if and only if no message is kept under a header that was not flagged |
| LengthRewrite.FrameLengthModulo | exam3/fltcoin.cxx:655-661 | for any flags and sizes that equation holds modulo 2^32 if and only if the orphaned bytes are a multiple of 2^32 |
| Suppression.MakeRows | exam3/fltcoin.cxx:360-422 | one row of blocks per sub-time-frame with messages |
| Suppression.Suppress | exam3/fltcoin.cxx:440-564 | exactly the flags of the blocks in columns without hits are cleared, and the flag behind each data block there |
| Suppression.AllListed | exam3/fltcoin.cxx:360-422 | every message stands in some row at its place within its sub-time-frame |
| Suppression.ClearsIsSuppressed | exam3/fltcoin.cxx:540-548 | a flag is cleared if and only if the message is in a column without hits or right behind data in such a column, headers included |
| Suppression.SuppressAndRewrite | exam3/fltcoin.cxx:360-661 | from numbers of hits to lengths: which messages are kept, the length of every kept sub-time-frame, and the time frame's length adds up if and only if no suppressed header has an unsuppressed message |
| Suppression.HeartbeatEndsKeepHeaders | exam3/fltcoin.cxx:540-548 | when every sub-time-frame ends with a heartbeat no header is orphaned |
| Suppression.OrphanExample | exam3/fltcoin.cxx:540-543 | two sub-time-frames, the first ending with data in a column without hits: the second one's data is sent without its header and the lengths do not add up |
| EventBuffer.MakeEventBuffer | exam2/make_event_buffer.cxx:9-49 | every store stays inside the buffer, the size computed first is the size written, bytes 0 to 19 hold magic, id, heartbeat number, type and the size without them, and the buffer is exactly the layout of header and channels |
| EventBuffer.PutChannel | exam2/make_event_buffer.cxx:32-40 | name, unit, byte count and samples are appended and nothing written before changes |
| EventBuffer.WordsFixBytes | exam2/make_event_buffer.cxx:21-44 | the words of the layout determine every byte of the buffer |
| EventBuffer.EventSize | exam2/make_event_buffer.cxx:16-20 | the size loop gives header plus channels |
| EventBuffer.ChannelAt | exam2/make_event_buffer.cxx:31-40 | channel i stands directly behind the channels before it |
| EventBuffer.ChannelFound | exam2/ebuf_to_pch.cxx:9-28 | at channel i's offset the buffer holds its name, unit, byte count and samples, all inside the buffer |
| EventBuffer.EvbufToPch | exam2/ebuf_to_pch.cxx:5-31 | the walk terminates, stays inside the buffer and finds exactly the channels written, in order |
| EventBuffer.RoundTrip | exam2/ebuf_to_pch.cxx:5-31 | writing and reading back gives the header's fields and the same number of channels with the same names, unit size and samples |
| EventBuffer.NamesCollideIff | exam2/make_event_buffer.cxx:34-34 | two channels have the same name if and only if their numbers agree modulo 2^16 |

## Left out

- FairMQ transport, message ownership and copying, logging, timers, options and statistics: messages are sequences, delivery is an arbitrary step, and clocks are arbitrary readings that do not go back.
- Failed sends and the early return of a device that is no longer running: only the running state with successful sends is modelled.
- Calculator.LogiCalc.SetFormula: an absent tree (the empty formula) is excluded, because the source calls `to_rpn` through a null pointer.
- Calculator.LogiCalc.ComPushBack: `atoi` on a word of digits beyond `int` is undefined; such a word counts as over range here.
- Calculator.LogiCalc.Calc: commands that negate an empty stack are excluded, because taking the top of an empty stack is undefined; which commands these are is stated exactly.
- LookupTable.TriggerMap.MakeTable: signal 31 is excluded, because the table size would be a shift by 32.
- Lexer.Tokenize: `isspace` and `isdigit` are those of the C locale on ASCII.
- CoincidenceTrigger.Trigger.Entry: entering a 33rd signal, which the source answers by an assertion failure, is a precondition; delays are bounded so that adding one to a time stays in `int`.
- CoincidenceTrigger.Trigger.Mark: a trailing part of a segment shorter than 8 bytes, which the source ignores, is not represented; the four repeated decoder branches are one branch over the decoder.
- UnpackTdc.UnpackHReads: the flag that the source leaves uninitialised for a TDC64H leading edge is -1; of the version-1 low-resolution decoder only the heartbeat test is modelled.
- MaskTrigger.MaskTrigger.Scan: the older trigger's own painting repeats the newer one for two decoders and is not modelled a second time; the scans are compared on every region.
- BlockMap.MakeBlockMap: messages are headers or non-empty word lists; reading a header from a shorter message is not modelled, and neither are the heartbeat-flag warnings.
- BlockMap.MapOfTimeFrame: time frames start with one header, followed by sub-time-frames that each have at least one message; the source drops the row of an empty one.
- StfBuilder.HulStrTdcSTFBuilder.BuildFrame: messages are whole 40-bit words; trailing bytes of a message that do not fill a word are ignored by the source and not represented.
- TfProperties.LengthExactIff: stated for totals below 2^63, and wrap-around of `int` is taken as the two's complement one.
- EventBuilding.EachFrameOneFromEach: fewer than 2^32 frames per source and one builder setting (number of sources) for all builders; numbers that have wrapped around are not distinguished by the source either.
- Merger.OrderRestored: the splitter and the input handler are user code; inputs are arrivals dealt round-robin, and each worker answers each message once.
- LengthRewrite.HeaderLengths: one time-frame header first, followed by a sub-time-frame header, and messages that are not empty; totals of 2^32 bytes and more are covered by the statements modulo 2^32.
- Suppression.Suppress: rows shorter than the last one, and data without hits as the very last message, make the source read or write past a vector and are excluded; the numbers of hits are parameters.
- EventBuffer.MakeEventBuffer: data whose total size exceeds `int` is excluded; the buffer is little-endian.
- Players.TfbSplit: the walk over the sub-time-frames of a file and a negative body length are not modelled.
- elph2018/SubTimeFrameBuilder.cxx, the `ApplyFilter` of elph2018/HulStrTdcFilter.cxx, exam2/coincidence.cxx, exam2/check_hit.cxx and the exam3 copies of the builders: no clean invariant, unused, or repetitions.
- The length that `AddFilterMessage` of LogicFilter/LogicFilter.cxx announces is not claimed to be the bytes sent.
- Expression and signal list parsing, samplers, sinks, emulators, file reading, sockets, Redis and displays.
