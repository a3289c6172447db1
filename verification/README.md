# A verified model of the chat-output pipeline and its codecs

This Dafny project models the parts of the repository where small mistakes hide in state:
the code that turns a streamed chat answer into tool calls with JSON arguments, the
template differ, the low-rank tensor class of the LoRA converter, the Base64 codec, and
three small algorithms (a CSV row, line wrapping, a process tree). For each part the loops
and objects of the source are Dafny methods and classes, proved equal to specification
functions; the theorems are about those functions, for all inputs.

Check everything with `dafny verify dfyconfig.toml`.

## What is modelled

- `QuoteNormalizer` rewrites Python literals as JSON. The loop is `Normalize`; a second pass
  changes nothing, the meaning is kept, and a cut of the input is safe for streaming exactly
  when `SafeCut` says so. The comment in the source that prefix matching keeps partial
  output monotonic is true of words that do turn out to be literals; `StreamingCanRetract`
  is the other case. `QuoteStrings` says exactly when the strings that come out are JSON
  strings: escape pairs that only Python knows are passed through.
- `JsonText` and `Trim` hold what the pipeline writes and measures: dumped strings, their
  reader, the brace counter, and the three trimmers. `JsonReader` reads whole JSON values,
  and `JsonBalance` shows that the brace counter is back at 0 behind any of them.
- `ToolCallMapper` is the mapper as a class with the source's fields. The `current_tool`
  reference is one of: none, the pending call, the last result. `ToolCallTraces` proves what
  holds of whole traces, `ToolCallTexts` what becomes of an id and of arguments given whole,
  `ToolCallReading` that the arguments of a finished call are read back as JSON, and
  `TaggedStreaming` what is emitted of half a call and when it is a prefix of the final
  arguments.
- `GemmaPrinter` and `MinimaxPrinter` print parse trees that are still growing; printed text
  is not taken back. The relation `Extends` follows the engine and the two grammars: a
  rule or tag is flagged as partial only when its parser asks for more input
  (peg-parser.cpp:752-806), so names of Gemma keys (parsers/gemma4.cpp:233), text up to a
  delimiter (peg-parser.cpp:691-737) and repeated elements (peg-parser.cpp:390-482) also
  grow where they are not flagged, and an element that was only attempted may vanish, from
  the text of the array or object around it, too.
  MiniMax names are atomic (chat-peg-parser.h:100-102); `GrowingNamesRetract` shows that
  this is needed. Values may change their kind between the alternatives of a schema, a risk
  the grammar notes (parsers/minimax-m3.cpp:126-127). A verbatim value without text can
  become anything and takes no text back. For other changes `MinimaxKinds` (of the value
  being read) and `MinimaxAlternatives` (of values that were complete) have the exact
  conditions on whole calls; `ChangedKindRetracts` and `ReadAgainRetracts` are instances
  where they fail.
- `GemmaReading` and `MinimaxReading` take the text of a finished tree back to the value the
  tree stands for. `GemmaUnderway` and `MinimaxUnderway` say how much is printed before a tree
  is finished: all of it, up to the quotes, colons and brackets owed on its last path. For
  MiniMax the trees are built there as the grammar builds them, from the call that is given.
- `Permute` builds the parser for every order through a memo keyed by a 32-bit mask. Parsing
  has three outcomes (failure, match, more input needed), as in the streaming engine.
- `Segments`, `DiffSplit`, `DiffTheorems` and `DiffEnds` are the marker lexer and the two-ended
  differ.
  The scan can use one side up from both ends in the same step; a later fix-up then counts
  one segment twice. `ReconstructsExactly` is the exact condition on the two segment lists.
  `DiffEnds` shows that nothing in common is left at the ends of the two parts.
- `LoraTensor`, `LoraViews`, `LoraIndices`, `LoraShapes` and `LoraCat` are the factored
  tensors. A tensor is a shape and a function from indices to real numbers; `Dense` is the
  product of the factors. Some views do not always agree with the product, and each has its exact
  condition: tuples with a leading slice or with a single row or column (the place the
  source marks with a TODO), ellipses, slices of a leading dimension that `A` shares,
  `reshape` at rank 0, and concatenating stacks that share a factor. `LoraIndices` says
  which indices of the product are refused, `LoraShapes` which shapes and permutations; the
  other operations have their own acceptance conditions, named `...Accepts`.
- `Base64` and `Base64Laws` are the codec over 8-bit values, with the accumulator and the
  in-place decoder over an array.
- `LineWrap`, `CsvRow`, `ProcessRows` and `ProcessTree` are the small algorithms with their
  loops.

Characters are code points, and the character classes are those of the C locale. Integers
are unbounded except in the Base64 bytes and the permutation masks.

## Model

| member | source | states |
|---|---|---|
| `QuoteNormalizer.Normalize` | llama-cpp-turboquant/common/chat-peg-parser.cpp:84-186 | the loop over the quote flags, the escape pairs and the literal table yields the text that the theorems below are about |
| `QuoteNormalizer.ReadOne` | llama-cpp-turboquant/common/chat-peg-parser.cpp:97-182 | the branches of the loop body, one character, escape pair or literal at a time, are the steps of the specification |
| `QuoteNormalizer.MatchLiteral` | llama-cpp-turboquant/common/chat-peg-parser.cpp:160-178 | the first table entry that begins with the word is the only one that can, and the same number of characters of its JSON spelling is written |
| `QuoteNormalizer.ScanWord` | llama-cpp-turboquant/common/chat-peg-parser.cpp:163-167 | the maximal run of word characters from a position |
| `QuoteNormalizer.Idempotent` | llama-cpp-turboquant/common/chat-peg-parser.cpp:84-186 | a second pass changes nothing, for every input: unterminated strings, a trailing backslash and half-read words included |
| `QuoteNormalizer.MeaningPreserved` | llama-cpp-turboquant/common/chat-peg-parser.cpp:93-182 | a reader of double-quoted strings that takes both escaped quotes sees in the output the strings, escapes, words and marks that a Python reader sees in the input, in the same order, with only True, False, None and their prefixes renamed |
| `QuoteNormalizer.WordNormalized` | llama-cpp-turboquant/common/chat-peg-parser.cpp:157-178 | an unquoted word of letters, digits and underscores that True, False or None begins with becomes as many characters of true, false or null; any other word stays as it is |
| `QuoteNormalizer.NamesNormalized` | llama-cpp-turboquant/common/chat-peg-parser.cpp:159-162 | each of the three names, cut anywhere, becomes the same cut of its JSON spelling |
| `QuoteStrings.JsonMeaningPreserved` | llama-cpp-turboquant/common/chat-peg-parser.cpp:97-156 | a strict JSON reader, to which an escaped single quote is no character, sees the same if and only if no double-quoted string of the input escapes a single quote |
| `QuoteStrings.OutputStringsAreJson` | llama-cpp-turboquant/common/chat-peg-parser.cpp:97-156 | for every input: the strings of the output, cut short or not, obey section 7 of RFC 8259 if and only if those of the input hold no escape pair that JSON lacks and no control character |
| `QuoteStrings.EscapedApostropheIsNoJson` | llama-cpp-turboquant/common/chat-peg-parser.cpp:121-127 | a concrete input whose output JSON refuses |
| `QuoteNormalizer.StreamingMonotone` | llama-cpp-turboquant/common/chat-peg-parser.cpp:96-183 | for every input and every cut: the output for the prefix is a prefix of the whole output if and only if the cut is safe (not between the two characters of an escaped single quote in a single-quoted string, not in a word that only so far looks like a literal) |
| `QuoteNormalizer.StreamingCanRetract` | llama-cpp-turboquant/common/chat-peg-parser.cpp:157-178 | a concrete unsafe cut: after `T` the output is `t`, after `Tx` it is `Tx` |
| `QuoteNormalizer.NormalizedNonEmpty` | llama-cpp-turboquant/common/chat-peg-parser.cpp:84-186 | non-empty text never becomes empty |
| `JsonText.EscapeInnerIsEscape` | llama-cpp-turboquant/common/chat-peg-parser.cpp:71-77 | cutting the quotes off the dumped string leaves exactly the character-wise escape |
| `JsonText.PlainIsDumped` | llama-cpp-turboquant/common/chat-peg-parser.cpp:71-77 | text without quotes, backslashes and control characters is dumped as it is |
| `JsonText.ReadStringInvertsEscape` | llama-cpp-turboquant/common/chat-peg-parser.cpp:71-77 | reading an escaped string up to its quote gives back the string and the text after it, for every string (section 7 of RFC 8259) |
| `JsonText.PairIsRead` | llama-cpp-turboquant/common/peg-parser.cpp:632-647 | the engine takes an escape of any four digits, so a verbatim value may hold both halves of a surrogate pair; the reader of the printed text takes them back to the character (section 7 of RFC 8259) |
| `JsonText.EscapeMonotone` | llama-cpp-turboquant/common/chat-peg-parser.cpp:71-77 | escaping keeps prefixes, so escaped text can be streamed |
| `JsonText.JsonBraceDepth` | llama-cpp-turboquant/common/chat-peg-parser.cpp:42-68 | the loop and its continue branches compute the final depth of the scanner automaton |
| `JsonText.ScanEscaped` | llama-cpp-turboquant/common/chat-peg-parser.cpp:42-77 | escaped content never ends the string it stands in and never moves the depth |
| `JsonText.DumpClosed` | llama-cpp-turboquant/common/chat-peg-parser.cpp:42-77 | a dumped string leaves the brace counter as it found it, whatever braces, quotes or backslashes it holds |
| `JsonText.ScanShift` | llama-cpp-turboquant/common/chat-peg-parser.cpp:42-68 | the counter started deeper ends deeper by the same amount |
| `JsonText.BracesAround` | llama-cpp-turboquant/common/chat-peg-parser.cpp:42-68 | braces around balanced text are balanced; an opening one alone leaves depth 1 |
| `JsonBalance.JsonIsClosed` | llama-cpp-turboquant/common/chat-peg-parser.cpp:42-68 | whatever text is JSON leaves the counter outside a string at depth 0: strings with any escapes, scalars, nested arrays and objects |
| `Trim.TrimTrailingSpace` | llama-cpp-turboquant/common/chat-peg-parser.cpp:12-22 | the loop with its optional limit removes the blanks that the specification removes |
| `Trim.TrimLeadingSpace` | llama-cpp-turboquant/common/chat-peg-parser.cpp:24-34 | the same at the front |
| `Trim.TrailingUnlimited` | llama-cpp-turboquant/common/chat-peg-parser.cpp:12-22 | without a limit exactly the trailing blanks go |
| `Trim.TrailingLimited` | llama-cpp-turboquant/common/chat-peg-parser.cpp:12-22 | with a limit at most that many blanks go from the end, and fewer only when no more are there |
| `Trim.LeadingLimited` | llama-cpp-turboquant/common/chat-peg-parser.cpp:24-34 | the same at the front |
| `Trim.KeyTrimmed` | llama-cpp-turboquant/common/chat-peg-parser.cpp:36-38 | a key loses one blank in front, if it has any, and every blank behind |
| `ToolCallMapper.NextWellFormed` | llama-cpp-turboquant/common/chat-peg-parser.cpp:315-457 | every event keeps the current call valid: a pending call exists if and only if it is the current one, and the last result is current only where there is one |
| `ToolCallMapper.CheckBlank` | llama-cpp-turboquant/common/chat-peg-parser.cpp:301-308 | the scan that decides whether reasoning is only blanks |
| `ToolCallMapper.ChatPegMapper.constructor` | llama-cpp-turboquant/common/chat-peg-parser.cpp:284-313 | a mapper starts in the initial state |
| `ToolCallMapper.ChatPegMapper.SetCurrent` | llama-cpp-turboquant/common/chat-peg-parser.cpp:342-356 | writing to the current call changes the pending call or the last result and nothing else |
| `ToolCallMapper.ChatPegMapper.SetArgs` | llama-cpp-turboquant/common/chat-peg-parser.cpp:276-278 | writing through the argument target changes a named call or, before the name, the buffer |
| `ToolCallMapper.ChatPegMapper.OnToolId` | llama-cpp-turboquant/common/chat-peg-parser.cpp:350-356 | the whole new state after an id event |
| `ToolCallMapper.ChatPegMapper.OnToolName` | llama-cpp-turboquant/common/chat-peg-parser.cpp:358-373 | the whole new state after a name event: buffered text moves into the call, a pending call becomes a result |
| `ToolCallMapper.ChatPegMapper.OnToolArgs` | llama-cpp-turboquant/common/chat-peg-parser.cpp:375-382 | the whole new state after JSON arguments |
| `ToolCallMapper.ChatPegMapper.AddKey` | llama-cpp-turboquant/common/chat-peg-parser.cpp:388-401 | the argument text with the separator, the dumped trimmed key and a colon added |
| `ToolCallMapper.ChatPegMapper.OnArgName` | llama-cpp-turboquant/common/chat-peg-parser.cpp:388-401 | the whole new state after an argument name |
| `ToolCallMapper.ChatPegMapper.OnArgValue` | llama-cpp-turboquant/common/chat-peg-parser.cpp:403-424 | the whole new state after a string or bare value, including the pending closing quote |
| `ToolCallMapper.ChatPegMapper.OnArgClose` | llama-cpp-turboquant/common/chat-peg-parser.cpp:426-431 | the whole new state after an argument ends |
| `ToolCallMapper.AppendBraces` | llama-cpp-turboquant/common/chat-peg-parser.cpp:444-447 | the loop that appends one brace for each that is left open |
| `ToolCallMapper.ChatPegMapper.OnToolClose` | llama-cpp-turboquant/common/chat-peg-parser.cpp:433-456 | the whole new state after a tool ends: buffer flushed, quote closed, one brace for every open one, unnamed calls dropped |
| `ToolCallMapper.ChatPegMapper.Map` | llama-cpp-turboquant/common/chat-peg-parser.cpp:315-457 | one event in place is one step of the state machine, and the invariant is kept |
| `ToolCallMapper.ChatPegMapper.FromAst` | llama-cpp-turboquant/common/chat-peg-parser.cpp:284-313 | a whole visit is a run of the state machine followed by the final flush; from a state whose pending call is unnamed, as all reachable ones are, it leaves a valid one |
| `ToolCallMapper.TextsAreKept` | llama-cpp-turboquant/common/chat-peg-parser.cpp:284-340 | over any trace the content is the concatenated text of the content nodes, and the reasoning that of the reasoning nodes, or empty if and only if it holds only spaces, line breaks and tabs |
| `ToolCallTraces.RunFacts` | llama-cpp-turboquant/common/chat-peg-parser.cpp:315-457 | from any valid state over any trace: a pending call stays unnamed and current, finished calls never change again, and the number of new calls is the number of opens that meet a name before the next open or close |
| `ToolCallTraces.RunNames` | llama-cpp-turboquant/common/chat-peg-parser.cpp:358-373 | over any trace, every name in the results was given by some name event |
| `ToolCallTraces.AtMostOneCallPerOpen` | llama-cpp-turboquant/common/chat-peg-parser.cpp:342-373 | each open yields at most one call |
| `ToolCallTraces.FlushNeverFires` | llama-cpp-turboquant/common/chat-peg-parser.cpp:284-298 | over every trace from the start, the final flush has nothing to emit |
| `ToolCallTraces.ToolTraceRun` | llama-cpp-turboquant/common/chat-peg-parser.cpp:315-457 | the complete state after a tool with its name at any place among its other events |
| `ToolCallTraces.NamePlaceIndependent` | llama-cpp-turboquant/common/chat-peg-parser.cpp:358-424 | giving the name later leaves the same state as giving it first if and only if no bare value was written before any key, or whole JSON arguments replace the text anyway |
| `ToolCallTraces.NameAfterValueDiffers` | llama-cpp-turboquant/common/chat-peg-parser.cpp:358-366 | a concrete trace where the place of the name changes the call |
| `ToolCallTraces.TaggedCallExact` | llama-cpp-turboquant/common/chat-peg-parser.cpp:342-457 | for any tagged arguments and any place of the name, exactly one call is added; its arguments are `{`, the members joined by commas, and the missing braces; just one brace when the bare values are balanced |
| `ToolCallTexts.IdOfCall` | llama-cpp-turboquant/common/chat-peg-parser.cpp:350-356 | the last id node gives the call its id: its text without trailing blanks and, where it stands in quotes, without these |
| `ToolCallTexts.BracesClosed` | llama-cpp-turboquant/common/chat-peg-parser.cpp:444-447 | only closing braces are added, one for each brace left open, and the counter is back at 0 if and only if the text does not stop inside a string |
| `ToolCallTexts.WholeArgumentsExact` | llama-cpp-turboquant/common/chat-peg-parser.cpp:375-382 | arguments given whole: the text of an object, up to trailing blanks, with its missing braces, so JSON stays as it is; `{}` where the text is no object; wherever the name stands |
| `ToolCallReading.ArgumentsReadBack` | llama-cpp-turboquant/common/chat-peg-parser.cpp:342-457 | the arguments of the finished call are JSON text from which a reader takes all members back, strings as given and bare values as the JSON they become, if each bare value becomes JSON; wherever the name stands |
| `ToolCallReading.StringArgumentsReadBack` | llama-cpp-turboquant/common/chat-peg-parser.cpp:342-457 | string arguments are read back from the finished call exactly as given, whatever quotes, backslashes or braces they hold |
| `TaggedStreaming.EmittedArgumentsAreKept` | llama-cpp-turboquant/common/chat-peg-parser.cpp:342-457 | for any tagged arguments, any place of the name before the cut and any cut, between nodes or inside a value: the call emitted so far has its final name, and its arguments are a prefix of the final ones if and only if no bare value is cut where its normalization is not stable |
| `TaggedStreaming.EmittedSoFar` | llama-cpp-turboquant/common/chat-peg-parser.cpp:342-431 | what has been emitted for part of a call is everything read of it: the whole members, the key of the next one as soon as its name is read, and its value character by character |
| `TaggedStreaming.NothingBeforeName` | llama-cpp-turboquant/common/chat-peg-parser.cpp:342-373 | before its name has been read, nothing is emitted for a call |
| `QuoteNormalizer.PrefixNoLonger` | llama-cpp-turboquant/common/chat-peg-parser.cpp:84-186 | the output for a prefix of the input is never longer than the whole output |
| `GemmaPrinter.PrintedTextIsKept` | llama-cpp-turboquant/common/chat-peg-parser.cpp:969-1062 | the text printed for a tree is a prefix of the text of every tree it may grow into; partial nodes grow along the last child, key names and string contents also where they are not flagged as partial, and a node without text may become anything |
| `GemmaPrinter.KeyNameGrows` | llama-cpp-turboquant/common/parsers/gemma4.cpp:233-233 | a cut inside a key name, where the name is not flagged, is covered |
| `GemmaPrinter.ExtendsTransitive` | llama-cpp-turboquant/common/chat-peg-parser.cpp:969-1062 | growing step by step is growing, so the promise covers whole streams |
| `GemmaPrinter.CompletePrintsClosed` | llama-cpp-turboquant/common/chat-peg-parser.cpp:969-1062 | the text of a complete tree leaves the brace counter outside a string at depth 0 |
| `GemmaPrinter.ChildlessStringStaysOpen` | llama-cpp-turboquant/common/chat-peg-parser.cpp:984-993 | a finished string node without its content child prints an unclosed string, so the condition on string nodes is needed |
| `GemmaReading.PrintedTextReadsBack` | llama-cpp-turboquant/common/chat-peg-parser.cpp:969-1062 | a JSON reader takes the text of a finished tree back to the nested value the tree stands for, with nothing left over |
| `GemmaReading.ReadBack` | llama-cpp-turboquant/common/chat-peg-parser.cpp:969-1062 | the same in front of any text that may follow a value |
| `GemmaUnderway.PrintingStopsShort` | llama-cpp-turboquant/common/chat-peg-parser.cpp:969-1062 | what is printed for a value cut off anywhere along its last path is what its ended tree prints, up to exactly the quotes, colons, brackets and missing rests owed on that path |
| `GemmaUnderway.PrintedSoFarReadsBack` | llama-cpp-turboquant/common/chat-peg-parser.cpp:969-1062 | so with these a JSON reader takes the text printed so far back to every value read so far |
| `MinimaxPrinter.NameStaysFound` | llama-cpp-turboquant/common/peg-parser.cpp:139-154 | the depth-limited search finds the same name in every tree the searched one may grow into |
| `MinimaxPrinter.CollectedExtend` | llama-cpp-turboquant/common/chat-peg-parser.cpp:1103-1115 | the entries collected from a grown tree are a growth of the entries collected before |
| `MinimaxPrinter.ValueStaysFound` | llama-cpp-turboquant/common/chat-peg-parser.cpp:1117-1128 | the value of an entry, once found, stays the value and only grows |
| `MinimaxPrinter.PrintedArgumentsAreKept` | llama-cpp-turboquant/common/chat-peg-parser.cpp:1132-1203 | the arguments printed for a call are a prefix of those of every call it may grow into; values, objects and arrays grow also where they are not flagged as partial, the text of an object or array may shrink by an attempt at another element, a verbatim value without text may become a value of any kind, and an element that was only attempted may become anything or vanish |
| `MinimaxPrinter.AttemptVanishes` | llama-cpp-turboquant/common/parsers/minimax-m3.cpp:141-149 | a cut inside a closing tag, where an array holds an attempt at another item and later has a shorter text, is covered |
| `MinimaxPrinter.ExtendsTransitive` | llama-cpp-turboquant/common/chat-peg-parser.cpp:1132-1203 | growing step by step is growing, so the promise covers whole streams |
| `MinimaxKinds.ArgumentsKeptExactly` | llama-cpp-turboquant/common/chat-peg-parser.cpp:1132-1203 | the risk that the grammar takes between the alternatives of a schema (parsers/minimax-m3.cpp:119-132), for whole calls: with growing trees whose values may change their kind, printed arguments stay a prefix if and only if the value that changes, if one does, was printed as a text that what is printed from there on starts with |
| `MinimaxKinds.ChangedValueKept` | llama-cpp-turboquant/common/chat-peg-parser.cpp:1183-1203 | a change among objects, arrays and strings always takes text back; one from or to verbatim text keeps it if and only if the texts agree |
| `MinimaxKinds.CollectedBecome` | llama-cpp-turboquant/common/chat-peg-parser.cpp:1103-1115 | the entries collected from a container grow with it when values below them change their kind |
| `MinimaxAlternatives.RereadArgumentsKeptExactly` | llama-cpp-turboquant/common/chat-peg-parser.cpp:1132-1203 | the same for completed members that another alternative reads again, whatever follows them before and after: printed arguments stay a prefix if and only if what was printed from the first value with another kind on starts what is printed from there on |
| `MinimaxAlternatives.CollectedReread` | llama-cpp-turboquant/common/chat-peg-parser.cpp:1103-1115 | the entries collected from a container that is read again agree up to the first entry that differs |
| `MinimaxAlternatives.ReadAgainRetracts` | llama-cpp-turboquant/common/parsers/minimax-m3.cpp:119-132 | a concrete pair of trees: a member read as a string is read as a number by another alternative, and text is taken back |
| `MinimaxPrinter.ChangedKindRetracts` | llama-cpp-turboquant/common/parsers/minimax-m3.cpp:119-132 | a concrete pair of trees: an object that has begun turns out to be a number, and text is taken back |
| `MinimaxReading.CompleteCallReadsBack` | llama-cpp-turboquant/common/chat-peg-parser.cpp:1132-1203 | a JSON reader takes the arguments of a complete call back to its named members, with nothing left over, if and only if every named member has a value, at every depth; otherwise it reads nothing |
| `MinimaxReading.CompleteCallPrintsClosed` | llama-cpp-turboquant/common/chat-peg-parser.cpp:1142-1203 | such arguments leave the brace counter outside a string at depth 0 |
| `MinimaxReading.MissingValueIsNoJson` | llama-cpp-turboquant/common/chat-peg-parser.cpp:1132-1140 | a concrete call with a named member without a value |
| `MinimaxUnderway.GivenIsPrinted` | llama-cpp-turboquant/common/parsers/minimax-m3.cpp:94-178 | the tree that the grammar builds for a call, tags and wrapper nodes included, prints JSON for exactly the members that were given, at every depth |
| `MinimaxUnderway.PrintingStopsShort` | llama-cpp-turboquant/common/chat-peg-parser.cpp:1132-1203 | what is printed of an open value is what it prints once everything on its last path has ended, up to exactly the quotes and brackets owed there |
| `MinimaxUnderway.PrintedSoFarReadsBack` | llama-cpp-turboquant/common/chat-peg-parser.cpp:1142-1203 | so with these a JSON reader takes the text of an open call back to everything given so far |
| `MinimaxPrinter.GrowingNamesRetract` | llama-cpp-turboquant/common/chat-peg-parser.cpp:1132-1140 | a concrete pair of trees: were names not matched at once, printed text would be taken back |
| `Permute.SequenceOfParses` | llama-cpp-turboquant/common/peg-parser.cpp:1091-1103 | flattening nested sequences does not change what a sequence recognises |
| `Permute.RuleMemo.constructor` | llama-cpp-turboquant/common/chat-peg-parser.cpp:249-250 | the memo starts empty |
| `Permute.RuleMemo.RemainingOf` | llama-cpp-turboquant/common/chat-peg-parser.cpp:252-271 | the recursion through the memo returns the parser of the recursion without it, keeps every entry right and terminates on the remaining bits |
| `Permute.BuildPermute` | llama-cpp-turboquant/common/chat-peg-parser.cpp:239-274 | the built parser is the unmemoised one, the plain sequence outside two to six parsers |
| `Permute.PlainRecognises` | llama-cpp-turboquant/common/chat-peg-parser.cpp:262-270 | for every mask the parser decides as the first order of the masked parsers that does not fail |
| `Permute.PermuteRecognisesOrders` | llama-cpp-turboquant/common/chat-peg-parser.cpp:239-274 | for two to six parsers: failure if and only if every order fails; otherwise the result is that of the first order that does not fail |
| `Permute.OtherSizesKeepOrder` | llama-cpp-turboquant/common/chat-peg-parser.cpp:241-247 | for other sizes only the given order is tried |
| `Segments.SegmentizeMarkers` | llama-cpp-turboquant/common/chat-auto-parser-helpers.cpp:266-296 | the scan with its border, flag and opener yields the segment list that the theorems below are about |
| `Segments.SpellSegs` | llama-cpp-turboquant/common/chat-auto-parser-helpers.cpp:266-296 | the segments spell the text |
| `Segments.SegsCanonical` | llama-cpp-turboquant/common/chat-auto-parser-helpers.cpp:266-296 | the segments are a canonical list: markers end at their first closer, plain texts hold no opener and are followed by one, an unclosed opener is last |
| `Segments.SegsInvertsSpell` | llama-cpp-turboquant/common/chat-auto-parser-helpers.cpp:266-296 | segmenting what a canonical list spells gives the list back |
| `Segments.CanonicalNonEmpty` | llama-cpp-turboquant/common/chat-auto-parser-helpers.cpp:266-296 | no segment is empty |
| `Segments.AngleMarker` | llama-cpp-turboquant/common/chat-auto-parser-helpers.cpp:270-271 | a marker reaches from `<` to the next `>`, square brackets between them included |
| `Segments.SquareMarker` | llama-cpp-turboquant/common/chat-auto-parser-helpers.cpp:270-271 | a marker reaches from `[` to the next `]`, angle brackets between them included |
| `Segments.TextThen` | llama-cpp-turboquant/common/chat-auto-parser-helpers.cpp:276-283 | text reaches up to the next `<` or `[` |
| `Segments.UnclosedRest` | llama-cpp-turboquant/common/chat-auto-parser-helpers.cpp:292-294 | what is opened and never closed is text to the end |
| `DiffSplit.CommonPrefixLen` | llama-cpp-turboquant/common/chat-auto-parser-helpers.cpp:66-73 | the counting loop |
| `DiffSplit.PrefixAgrees` | llama-cpp-turboquant/common/chat-auto-parser-helpers.cpp:66-73 | the counted prefix agrees in both texts and cannot be longer |
| `DiffSplit.CommonSuffixLen` | llama-cpp-turboquant/common/chat-auto-parser-helpers.cpp:75-82 | the counting loop from the back |
| `DiffSplit.SuffixAgrees` | llama-cpp-turboquant/common/chat-auto-parser-helpers.cpp:75-82 | the counted suffix agrees in both texts and cannot be longer |
| `DiffSplit.ScanSegments` | llama-cpp-turboquant/common/chat-auto-parser-helpers.cpp:99-136 | the two-ended loop with its flags ends in the state of the specified scan |
| `DiffSplit.FinishSplit` | llama-cpp-turboquant/common/chat-auto-parser-helpers.cpp:164-180 | the remainders of both sides and which of their ends are text |
| `DiffSplit.CutCommonEnds` | llama-cpp-turboquant/common/chat-auto-parser-helpers.cpp:172-180 | the character-level split of the remainders |
| `DiffSplit.CalculateDiffSplit` | llama-cpp-turboquant/common/chat-auto-parser-helpers.cpp:84-204 | the whole computation yields the diff that the theorems below are about |
| `DiffTheorems.SplitReconstructs` | llama-cpp-turboquant/common/chat-auto-parser-helpers.cpp:84-204 | for all inputs: prefix + part + suffix gives back both inputs if and only if no segment is counted twice (one list is its two halves at the two ends of the other and its middle segment stands next to the gap), or the prefix representation hides it |
| `DiffTheorems.DistinctSegmentsReconstruct` | llama-cpp-turboquant/common/chat-auto-parser-helpers.cpp:84-204 | inputs that repeat no segment are always reconstructed |
| `DiffTheorems.RepeatedMarkerIsLost` | llama-cpp-turboquant/common/chat-auto-parser-helpers.cpp:119-162 | `<a><b>` against `<a><b><b>` is not reconstructed |
| `DiffTheorems.ScanStutters` | llama-cpp-turboquant/common/chat-auto-parser-helpers.cpp:111-136 | the scan uses a side up exactly when that side is its two halves at the two ends of the other |
| `DiffTheorems.SelfSplit` | llama-cpp-turboquant/common/chat-auto-parser-helpers.cpp:84-204 | a text against itself is all prefix |
| `DiffTheorems.StopsAtDifference` | llama-cpp-turboquant/common/chat-auto-parser-helpers.cpp:111-162 | what is left in play starts and ends with differing segments, or is one text segment on both sides |
| `DiffEnds.NothingInCommon` | llama-cpp-turboquant/common/chat-auto-parser-helpers.cpp:84-180 | when both parts have something, both inputs are reconstructed and nothing more could be cut off: at the front and at the back the parts differ in a character, or in a segment where one input has a marker |
| `DiffEnds.PlainSplit` | llama-cpp-turboquant/common/chat-auto-parser-helpers.cpp:172-201 | for two texts without markers: a left text that begins the right one is all prefix; otherwise the suffix is the longest common one and the prefix the longest common one of what stands in front of it |
| `DiffEnds.SharedLeftIsPrefix` | llama-cpp-turboquant/common/chat-auto-parser-helpers.cpp:182-201 | a left input with nothing left over that begins the right one is all prefix, and the right part is the rest of the right input or nothing |
| `DiffEnds.MarkerAtBothEnds` | llama-cpp-turboquant/common/chat-auto-parser-helpers.cpp:148-157 | a marker at both ends of the left input counts as suffix when it is all of the right one |
| `LoraTensor.MulScalarDense` | llama-cpp-turboquant/convert_lora_to_gguf.py:214-219 | scaling the factored form scales the product |
| `LoraTensor.MulDense` | llama-cpp-turboquant/convert_lora_to_gguf.py:214-219 | multiplying by a tensor whose last size is 1, broadcasting included, is multiplying the product |
| `LoraTensor.MulAccepts` | llama-cpp-turboquant/convert_lora_to_gguf.py:214-219 | multiplication is accepted if and only if the multiplier ends in a size of 1, has no more dimensions, and its sizes, counted from the last, are equal or 1 |
| `LoraTensor.TimesAt` | llama-cpp-turboquant/convert_lora_to_gguf.py:214-219 | a multiplier without dimensions is a number, and one of the same shape multiplies entry by entry |
| `LoraTensor.SelectDense` | llama-cpp-turboquant/convert_lora_to_gguf.py:58-114 | taking rows, columns and matching leading indices commutes with the product, for any number of leading dimensions |
| `LoraViews.SplitDense` | llama-cpp-turboquant/convert_lora_to_gguf.py:193-209 | each part of a split, in any dimension, negative ones counted from behind, is the factored form of the same part of the product, and the parts cover it |
| `LoraViews.SplitAccepts` | llama-cpp-turboquant/convert_lora_to_gguf.py:193-209 | a split by any list of sizes is accepted if and only if these add up to the size of the dimension |
| `LoraViews.NarrowAt` | llama-cpp-turboquant/convert_lora_to_gguf.py:193-209 | a part of a tensor along one dimension has the entries from its start on |
| `LoraViews.FarSplits` | llama-cpp-turboquant/convert_lora_to_gguf.py:193-209 | a dimension below minus their number, which the product does not have, is not refused: the sign is corrected once and then again by the split of the factors; it acts as a leading dimension or the rows, or cuts the rank and is accepted if and only if every part has all of it |
| `LoraViews.FarEvenSplits` | llama-cpp-turboquant/convert_lora_to_gguf.py:193-209 | the same with one size for all, by which each factor is split before the parts are paired: where the rank is cut, the split is refused if the size is smaller than the rank, and else yields one part, the first rows or columns, and drops the others |
| `LoraViews.EvenSplitSucceeds` | llama-cpp-turboquant/convert_lora_to_gguf.py:193-209 | splitting by one size refuses no compatible tensor; all parts but the last have the size |
| `LoraViews.GetLeadDense` | llama-cpp-turboquant/convert_lora_to_gguf.py:67-74 | an index or slice of the leading dimension agrees with the product if and only if it does not empty a dimension that `A` shares while it keeps something of `B`; always when both factors are stacked |
| `LoraViews.SliceTakes` | llama-cpp-turboquant/convert_lora_to_gguf.py:70-78 | a slice takes every step-th index from its start on in front of its stop, both counted from behind when negative; a step below 1 is refused |
| `LoraViews.IndexTakes` | llama-cpp-turboquant/convert_lora_to_gguf.py:65-67 | a single index counts from behind when negative and must lie within the dimension |
| `LoraViews.SharedSliceDiffers` | llama-cpp-turboquant/convert_lora_to_gguf.py:72-74 | a concrete slice of a shared factor that gives no factored tensor |
| `LoraViews.GetRowsDense` | llama-cpp-turboquant/convert_lora_to_gguf.py:72-76 | slicing the rows of a plain factored tensor agrees with the product |
| `LoraViews.GetTupleDense` | llama-cpp-turboquant/convert_lora_to_gguf.py:77-112 | a tuple index agrees with the product if and only if it keeps rows and columns as dimensions and each leading slice is full or falls on a size that `A` shares |
| `LoraViews.RowsAndColumnsStay` | llama-cpp-turboquant/convert_lora_to_gguf.py:98-112 | a tuple that takes a single row or column never agrees |
| `LoraViews.LeadingSliceDiffers` | llama-cpp-turboquant/convert_lora_to_gguf.py:98-112 | a concrete leading slice of stacked factors that does not agree |
| `LoraIndices.GetOneAccepts` | llama-cpp-turboquant/convert_lora_to_gguf.py:67-76 | an index or slice is accepted if and only if the product takes it and it is no integer for a row of a plain tensor, nor one other than 0 and -1 where `A` is shared |
| `LoraIndices.ProductTakes` | llama-cpp-turboquant/convert_lora_to_gguf.py:67-76 | which single indices the product takes |
| `LoraIndices.GetTupleAccepts` | llama-cpp-turboquant/convert_lora_to_gguf.py:95-112 | a tuple that the product takes is accepted if and only if it keeps rows and columns, or takes one of each while the last kept leading size of `A` is the rank |
| `LoraIndices.EllipsisMeans` | llama-cpp-turboquant/convert_lora_to_gguf.py:77-96 | an ellipsis selects what it should, along every dimension, if and only if it ends the tuple behind other entries, or the others are at most half of the dimensions and moving those behind it from where they are put to where they belong changes no selection |
| `LoraIndices.FarShift` | llama-cpp-turboquant/convert_lora_to_gguf.py:81-96 | if those entries are moved by at least their number, each must select the whole dimension at both places |
| `LoraIndices.GetEllipsisDense` | llama-cpp-turboquant/convert_lora_to_gguf.py:77-112 | where it does, the tuple agrees with what the product gives for the meant entries if and only if the expanded tuple is faithful |
| `LoraIndices.EllipsisTakesRows` | llama-cpp-turboquant/convert_lora_to_gguf.py:81-96 | an ellipsis and one more entry take rows of stacked tensors where columns are meant |
| `LoraShapes.PermuteDense` | llama-cpp-turboquant/convert_lora_to_gguf.py:171-182 | whatever `permute` accepts is the permuted product |
| `LoraShapes.PermutedAt` | llama-cpp-turboquant/convert_lora_to_gguf.py:171-175 | a dimension of the permuted tensor is the dimension of the tensor that the list names there, entries included |
| `LoraShapes.DimsAsWritten` | llama-cpp-turboquant/convert_lora_to_gguf.py:173-173 | the list names dimensions from the front, or from behind when negative |
| `LoraShapes.TransposeDense` | llama-cpp-turboquant/convert_lora_to_gguf.py:184-188 | whatever `transpose` accepts swaps the two dimensions of the product |
| `LoraShapes.ReshapeDense` | llama-cpp-turboquant/convert_lora_to_gguf.py:139-163 | `reshape`, -1 filled in, agrees with the product if and only if the rank is positive or the number of entries stays |
| `LoraShapes.FlattenedRows` | llama-cpp-turboquant/convert_lora_to_gguf.py:159-163 | entries keep their row-major order: the rows of a flattened matrix follow each other |
| `LoraShapes.ReshapeAccepts` | llama-cpp-turboquant/convert_lora_to_gguf.py:139-163 | of the shapes the product takes, exactly those are accepted that keep the columns as the last of at least two dimensions, if `A` is shared or has no entries, and if there is no rank, or there are columns, or the rows are as many as before |
| `LoraShapes.PermuteAccepts` | llama-cpp-turboquant/convert_lora_to_gguf.py:171-182 | of the permutations the product takes, any is accepted of two dimensions, and of more exactly those that keep the columns last, if `A` is shared |
| `LoraShapes.TransposeAccepts` | llama-cpp-turboquant/convert_lora_to_gguf.py:184-188 | which dimensions may change places, of those the product has |
| `LoraShapes.RankZeroReshapes` | llama-cpp-turboquant/convert_lora_to_gguf.py:139-163 | a tensor of rank 0 with one row reshapes to two rows although its product cannot |
| `LoraCat.CatPlainDense` | llama-cpp-turboquant/convert_lora_to_gguf.py:246-260 | concatenating rows over an equal `A` is concatenating the products |
| `LoraCat.CatPlainAccepts` | llama-cpp-turboquant/convert_lora_to_gguf.py:256-260 | accepted if and only if there are parts and all have the same `A` |
| `LoraCat.CatRows` | llama-cpp-turboquant/convert_lora_to_gguf.py:246-260 | the rows of each part follow those of the parts before it |
| `LoraCat.CatStackedDense` | llama-cpp-turboquant/convert_lora_to_gguf.py:251-255 | concatenating stacked tensors is concatenating the products when no `A` is shared or the sizes of `A` total 1; it is not when those sizes total neither 1 nor as much as those of `B`; without leading sizes of 0, if and only if no `A` is shared or there is a single tensor |
| `LoraCat.CatStackedAccepts` | llama-cpp-turboquant/convert_lora_to_gguf.py:251-255 | accepted if and only if there are parts and their factors agree in all sizes but the first |
| `LoraCat.SharedCatDiffers` | llama-cpp-turboquant/convert_lora_to_gguf.py:251-255 | two stacks that each share one `A` concatenate to factors that have no product |
| `LoraCat.EmptyStackDecides` | llama-cpp-turboquant/convert_lora_to_gguf.py:251-255 | with a leading size of 0 the shapes do not decide: the same shapes agree if and only if the entries of the factors are equal |
| `LoraCat.StackDense` | llama-cpp-turboquant/convert_lora_to_gguf.py:237-245 | stacking factors is stacking the products |
| `LoraCat.StackAccepts` | llama-cpp-turboquant/convert_lora_to_gguf.py:237-245 | accepted if and only if there are parts and all have factors of the same shapes |
| `LoraCat.StackRows` | llama-cpp-turboquant/convert_lora_to_gguf.py:237-245 | the first index of a stack says which tensor is meant |
| `Base64.Encode` | llama-cpp-turboquant/common/base64.hpp:80-144 | the loop over one, two or three bytes at a time yields the encoding that the laws are about |
| `Base64.Decode` | llama-cpp-turboquant/common/base64.hpp:200-244 | the bit-accumulator loop and the padding check yield the decoding that the laws are about, or the error |
| `Base64.CheckPadding` | llama-cpp-turboquant/common/base64.hpp:231-241 | only padding may follow the first padding character, unless decoding loosely |
| `Base64.DigitsInPlace` | llama-cpp-turboquant/common/base64.hpp:208-229 | the digit loop over its own buffer: the write position stays behind, and what is unread is untouched |
| `Base64.DecodeInPlace` | llama-cpp-turboquant/common/base64.hpp:294-313 | in-place decoding fails exactly when decoding fails, and leaves exactly the decoded bytes at the front of the buffer |
| `Base64.ValueOfDigit` | llama-cpp-turboquant/common/base64.hpp:344-389 | every alphabet character has its own value, also under detection, which then settles at most on that alphabet |
| `Base64.DigitOfValue` | llama-cpp-turboquant/common/base64.hpp:344-389 | a character with a value is the alphabet character of that value |
| `Base64.DigitsAreTables` | llama-cpp-turboquant/common/base64.hpp:84-87 | every 6-bit value is written as the character at its place in the table of section 4 of RFC 4648, or of section 5 |
| `Base64.PaddedTwice` | llama-cpp-turboquant/common/base64.hpp:80-144 | one byte: two characters and two `=` |
| `Base64.PaddedOnce` | llama-cpp-turboquant/common/base64.hpp:80-144 | two bytes: three characters and one `=` |
| `Base64.NotPadded` | llama-cpp-turboquant/common/base64.hpp:80-144 | three bytes: four characters |
| `Base64Laws.RoundTrip` | llama-cpp-turboquant/common/base64.hpp:80-244 | decoding an encoding gives back the bytes, for both alphabets and for detection, strict or loose |
| `Base64Laws.EncodedIsCanonical` | llama-cpp-turboquant/common/base64.hpp:80-144 | encodings are canonical: groups of four, padding in the last one only, no spare bits set (sections 3.2 and 3.5 of RFC 4648) |
| `Base64Laws.EncodeInvertsDecode` | llama-cpp-turboquant/common/base64.hpp:80-244 | a text decodes and re-encodes to itself if and only if it is canonical |
| `Base64Laws.DetectionAgrees` | llama-cpp-turboquant/common/base64.hpp:344-389 | detection gives what the standard alphabet gives where that succeeds, otherwise what the URL alphabet gives, from any state of the accumulator |
| `Base64Laws.AcceptedWhen` | llama-cpp-turboquant/common/base64.hpp:200-244 | decoding succeeds if and only if the characters before the padding are of the alphabet and, unless loose, only padding follows |
| `Base64Laws.DecodedBits` | llama-cpp-turboquant/common/base64.hpp:208-229 | the decoded bits are the digits' bits in order; only an incomplete last byte is dropped (section 4 of RFC 4648) |
| `Base64Laws.DecodedSize` | llama-cpp-turboquant/common/base64.hpp:324-327 | three bytes for four digits, rounded down, never more than the reserved room |
| `Base64Laws.EncodedSize` | llama-cpp-turboquant/common/base64.hpp:338-341 | the encoding is as long as the size formula says |
| `LineWrap.GetLine` | llama-cpp-turboquant/common/arg.cpp:178-180 | one line and the place after its newline |
| `LineWrap.NextWord` | llama-cpp-turboquant/common/arg.cpp:165-167 | one whitespace-separated word and the place after it |
| `LineWrap.AddLine` | llama-cpp-turboquant/common/arg.cpp:161-177 | the lambda appends the line as it is or broken |
| `LineWrap.PackWords` | llama-cpp-turboquant/common/arg.cpp:165-175 | the greedy loop over the words of a line packs them as the theorems below are about |
| `LineWrap.BreakIntoLines` | llama-cpp-turboquant/common/arg.cpp:157-182 | the whole function |
| `LineWrap.LinesSpellText` | llama-cpp-turboquant/common/arg.cpp:178-180 | the lines are the text, no empty line after a final newline |
| `LineWrap.WordsAreKept` | llama-cpp-turboquant/common/arg.cpp:157-182 | the words of the output lines are the words of the input, in order |
| `LineWrap.EveryLineFits` | llama-cpp-turboquant/common/arg.cpp:161-177 | every output line is within the limit or a single word |
| `LineWrap.FewestLines` | llama-cpp-turboquant/common/arg.cpp:164-176 | a re-wrapped line is an order-keeping split of its words into allowed lines, and no such split has fewer lines |
| `LineWrap.StaysAhead` | llama-cpp-turboquant/common/arg.cpp:167-175 | greedy stays ahead of every other split |
| `LineWrap.LinesAreFull` | llama-cpp-turboquant/common/arg.cpp:167-175 | a re-wrapped line is full: the first word of the next one would not fit |
| `LineWrap.ShortLineStays` | llama-cpp-turboquant/common/arg.cpp:161-163 | wherever it stands in the text, a line within the limit comes out as it is, blanks at its ends included |
| `CsvRow.ParseRow` | llama-cpp-turboquant/common/arg.cpp:1364-1406 | the loop over the quote flag yields the fields that the theorems below are about |
| `CsvRow.RoundTrip` | llama-cpp-turboquant/common/arg.cpp:1364-1406 | any non-empty list of fields, each quoted with doubled quotes or bare where allowed, is read back exactly (section 2 of RFC 4180) |
| `CsvRow.BareExactly` | llama-cpp-turboquant/common/arg.cpp:1364-1406 | a text written as it is reads back as one field equal to itself if and only if it holds no comma and does not start with a quote |
| `CsvRow.NothingInvented` | llama-cpp-turboquant/common/arg.cpp:1364-1406 | the fields hold no more characters than the row |
| `CsvRow.LooseQuotes` | llama-cpp-turboquant/common/arg.cpp:1364-1406 | a quote that is never closed keeps all that follows in its field, and text behind a closing quote still belongs to the field |
| `ProcessTree.GrowOwned` | evals/localcode_evals/performance.py:86-91 | the loop terminates, whatever cycles and duplicates the rows hold, with exactly the ids reachable from the root |
| `ProcessTree.TreeRss` | evals/localcode_evals/performance.py:77-93 | from the text of the listing: 1024 times the resident sizes of the reachable rows, or nothing when no listed process is reachable |
| `ProcessTree.SumOwned` | evals/localcode_evals/performance.py:86-93 | the same from the rows |
| `ProcessRows.ParseRows` | evals/localcode_evals/performance.py:79-85 | the loop over the lines yields the rows that the laws are about |
| `ProcessRows.RowsAround` | evals/localcode_evals/performance.py:79-85 | the rows of two texts with a line end between them are those of both, so a malformed line costs itself and nothing else |
| `ProcessRows.ListingIsRead` | evals/localcode_evals/performance.py:79-85 | a listing of any rows, negative numbers included, is read back exactly, whatever spaces and tabs stand in front of, between and behind its numbers |
| `ProcessRows.ReadDecimal` | evals/localcode_evals/performance.py:82-82 | every whole number is read back from its decimal form |
| `ProcessRows.NumberHasDigits` | evals/localcode_evals/performance.py:82-82 | only digits, with single underscores between them and one sign in front, are a number |
| `ProcessTree.ClosedHoldsReachable` | evals/localcode_evals/performance.py:86-91 | a set that holds the root and the children of its members holds every reachable id |

## Left out

- The PEG engine, the grammar builders, the JSON library and torch: only the stated
  meanings are used (three-valued ordered choice and sequence, dumping of strings, shapes
  and entries of tensors).
- Parse-tree arenas: nodes hold their children, the visit of a parse tree is given as the
  sequence of visited nodes, and a node has one tag.
- Invalid UTF-8: `sanitized_text()` is the text itself, and dumping never fails.
- The visitors that find the name and argument nodes of Gemma and MiniMax calls and push
  the calls; the printers they call are modelled.
- The hooks `until_common_prefix` and `after_common_suffix` and the analyzers built on the
  differ: template heuristics.
- Log output, the rule names of `permute` beyond their mask, and the engine's recursion
  limit.
- GetTupleDense: leaves out indices that are tensors and slices with a step that is not
  positive, which torch refuses. Tuples with one ellipsis are in `EllipsisMeans` and
  `GetEllipsisDense`; several ellipses in one tuple are not modelled, torch takes one.
- CatStackedDense: where a leading size is 0, an `A` is shared and the sizes of `A` still
  total as much as those of `B`, nothing is stated for all inputs: the entries decide, as
  `EmptyStackDecides` shows.
- Dtype conversion and rounding of tensors: entries are real numbers.
- TreeRss: digits, blanks and line ends are those of ASCII, and the interpreter's limit on
  the number of digits is not modelled.
- The parsers that build the trees: which trees grow into which is a relation, not derived
  from the grammars.
- RereadArgumentsKeptExactly: the values that differ are of different kinds, print some
  text, and stand in members of the same name, as both readings are of the same input.
- GemmaUnderway.PrintedSoFarReadsBack: a scalar cut off is completed by the rest of its word
  or by one more digit, and a value not begun counts as null.
- ArgumentsKeptExactly: a value that changes its kind holds no name in the levels where the
  name of its member is looked for, and becomes verbatim only by taking some text; both
  follow from the grammar, which puts names first and lets an alternative take over only at
  a character the former one refuses.
- Base64 sizes as machine integers: the two size formulas are over unbounded numbers.
- The alphabet parameter that detection changes is threaded through the specification as a
  value; the loops keep it in a variable.
- The rest of the argument parser, the servers, the conversion scripts and the evaluation
  tooling.
