# Verified model of the JSON tokenizer, the counters and the samplers

This project models the logic at the core of a set of monitoring plugins, in Dafny, and proves what
that logic is relied on for. `dafny verify dfyconfig.toml` checks all of it. Nothing was executed.

- **Tokenizing JSON.** `jsmn_parse` reads a text once and fills a flat array of tokens. It has no stack:
  the open containers are the tokens without an end, found again by scanning backwards.
  `JsmnMachine.dfy` states one turn of its loop and whole runs as functions; `Jsmn.dfy` is the parser
  itself, a class whose methods update `pos`, `toknext`, `toksuper` and the token array in place, proved
  to compute those functions. `JsmnLexing.dfy` has strings and primitives, `JsmnInvariants.dfy` what
  every state keeps, `JsmnVerdict.dfy` when a run succeeds, `RfcTerminals.dfy` the whitespace and the strings of
  RFC 8259 by their characters, `JsonGrammar.dfy` its texts with their trees, and `JsonRoundTrip.dfy` the tokens of every such text. The rules under
  `JSMN_PARENT_LINKS` are modelled beside the compiled backward scans, and `JsmnVariants.dfy` compares the
  two on every text.
- **Using the tokens.** `JsonHelpers.dfy` counts and fills in two passes, and dumps the array as a tree
  by its `size` fields. `Container.dfy` folds the tokens into counters, one per image, and `Answers.dfy` says what
  that counts in the tree of a JSON answer.
- **Counters.** `Collection.dfy` is the chained hash table with its array of keys; `Processes.dfy` the
  list of users, which ends in a node that points to itself. `Runs.dfy` has the sums of increments that
  both are about, `Words.dfy` the integer types of C.
- **CPU masks.** `CpuTopology.dfy` parses masks, `CpuSet.dfy` has the sets of CPUs and the bit-parallel count.
- **Files.** `Files.dfy` counts the entries of a directory tree by class.
- **Samples.** `CpuSampling.dfy` is the sampling loop that carries idle time over as a debt.
- **Thresholds.** `Thresholds.dfy` parses and checks alert ranges, `Perfdata.dfy` computes the limits
  published beside them.

A text is a `string` with one character for each byte. Integer widths are written out where the
sources depend on them: wrap-around in the hash, in the counts and in the samples, casts to `int`,
shifts of 64-bit words. A `double` is an exact real.

What the proofs show that the sources do not say:

- A text can tokenise and yet not be safe to dump: in `{[1]}` an array stands where a label belongs
  (`JsonHelpers.DumpNeedsLabels`). On any text that tokenises, the dump stays within the tokens if and
  only if there are fewer misplaced labels (objects or arrays with children in the place of a label)
  than top-level tokens and unspent sizes together (`JsonHelpers.DumpOfAnyText`). Unspent are the sizes of
  strings and primitives that are no labels, and what such a token has beyond one as a label. All
  three can be counted from the tokens before the dump, in one pass that stays within them. With one
  top-level token and nothing unspent it comes to: no misplaced label at all.
- The backward scans and the parent links return the same, from the same cursor and with the same types
  and spans of all tokens, on every text and with every capacity, but for one case: the scan stops
  at a closing bracket with no token open, and the links, at the same place, end in a closed token of the
  same type while a colon has left a superior (`JsmnVariants.VariantsAgreeIff`). `{}:}` is such
  a text (`JsonRoundTrip.VariantsNeedJson`). Where the scan succeeds, the links do (`JsmnVariants.LinksFollowSuccess`).
- `docker_json_parser_search` does not test the NULL of `json_tokenise`, and reads past the tokens exactly
  when there are at least two and the last one is the name searched for (`Container.Search`), as on the
  answer `["Image"]` (`Answers.SearchOverreads`).
- Images are counted by their short names, but the one asked for is looked up as it is given: a name with
  a slash, such as `prom/prometheus:v2.39.0`, is always reported with 0 containers, and a name is found
  under itself exactly if it has no slash, or if there are none of it (`Container.RunningContainers`,
  `Container.AskedByName`). In the answer `{"Image":"a/b"}` asking for `a/b` finds nothing
  (`Answers.SlashedImage`).
- The containers counted are the keys and the string values "Image" of the answer, at any depth
  (`Answers.AnswerTotal`); the image of each is whatever comes next in the text, a key or a value
  (`Answers.AnswerCounted`).
- `cpumask_parse` steps back beyond its text exactly for a mask without prefix that starts with a comma
  and would be accepted behind it, such as `,f` (`CpuTopology.ReadingExact`, `CpuTopology.LeadingCommas`).
  A comma at the end is accepted.
- A loop with `proc_list_node_foreach` never gets to the last user (`Processes.ListedFallsShort`).
- `hidden` counts hidden regular files and, in a recursive run that is not limited to regular files, hidden
  directories. No other hidden entry is counted in it (`Files.TallyIsCensus`).
- Idle time that was reported and the debt account for every reading if and only if each step is one of
  these: without a debt, down by at most 2^31, or up by a change whose low 32 bits are below
  2^31; with a debt, to at most 2^31 below the highest reading so far or less than 2^31 above it
  (`CpuSampling.NothingLostIff`). Then
  the debt is how far the reading is below the highest (`CpuSampling.IdleIsPeak`). A change of 2^31 is
  lost, and one of 2^32 is not (`CpuSampling.TooLongASleep`). Modulo 2^32 nothing is ever lost
  (`CpuSampling.IdleModulo`).
- While nothing is lost, the sum of the change and the debt overflows an `int`, which C leaves undefined,
  exactly when the counter makes up for a debt by 2^31 or more in one step (`CpuSampling.OverflowExact`).
- A second `@` in front of a range is not a mark, so the mark is a complement exactly for texts
  without a mark of their own (`Thresholds.AtComplements`).
- A limit converted to bytes is the exact amount rounded down once only if less than one byte was lost
  in the kilobytes; in the larger units it always is (`Perfdata.ConvertedIsFloor`).

## Model

The main results come first; the operations and the steps behind them follow by module.

| member | source | states |
|---|---|---|
| `JsonRoundTrip.TextRoundTrip` | include/jsmn.h:295-515 | for every JSON text of RFC 8259, with any of its four whitespace characters anywhere it allows them: the tokens are the preorder listing of its tree, with types, exact spans and sizes, in both variants |
| `JsonRoundTrip.VariantsAgree` | include/jsmn.h:350-449 | parent links and backward scans give the same result, and with enough tokens the same state, on every JSON text |
| `JsmnVariants.VariantsAgreeIff` | include/jsmn.h:343-451 | for every text and capacity: same result, cursor, types and spans under both rules, if and only if the scan does not stop at a closing bracket with no token open that the links take for one of a closed token; in that case the links go on |
| `JsmnVariants.LinksFollowSuccess` | include/jsmn.h:343-451 | where the backward scan succeeds, on any text, the links return the same count with the same types and spans |
| `JsonRoundTrip.VariantsNeedJson` | include/jsmn.h:366-372 | such a bracket: the links accept `{}:}`, the scan does not |
| `JsmnVerdict.FillSucceedsIff` | include/jsmn.h:295-515 | for every text and capacity: the fill pass succeeds if and only if the count does, fits, and the brackets outside strings and primitives are properly nested |
| `JsmnVerdict.FillAfterCount` | lib/json_helpers.c:55-64 | with room for the count, the fill pass returns that count, or JSMN_ERROR_INVAL for mismatched brackets, or JSMN_ERROR_PART for unclosed ones, and never JSMN_ERROR_NOMEM |
| `JsmnVerdict.RunIsStackRun` | include/jsmn.h:295-515 | on every text and from every state, the result is that of a parser with an explicit stack |
| `JsmnVerdict.Resume` | include/jsmn.h:295-515 | a run that ended in JSMN_ERROR_NOMEM, resumed with more room, ends in the state and with the result of one run with that room from the start |
| `JsmnInvariants.FillInvariant` | include/jsmn.h:295-515 | after every fill pass, on any text: starts increase, spans lie within the text and are nested or disjoint, open tokens are containers, each size counts the tokens made below; success leaves no token open; the sizes add up to less than the number of tokens |
| `JsmnLexing.StringScanExact` | include/jsmn.h:210-290 | a string closes at `k` if and only if a quote stands there and what comes before is a string body: every backslash belongs to one of the eight simple escapes or to `\u` and four hexadecimal digits |
| `JsmnVerdict.CountStepExact` | include/jsmn.h:304-500 | one turn of the counting pass on any text, by the characters alone: what is counted, how far the cursor moves, and when it is -2 (a bad escape or an unprintable character) or -3 (the text ends in a string) |
| `Jsmn.Parser.Parse` | include/jsmn.h:295-515 | the parser in place, given an array or none, computes a whole fill run or count run of the machine: result, cursor, superior and tokens |
| `JsonHelpers.DumpOfText` | lib/json_helpers.c:47-146 | for every JSON text, counting, filling and dumping from the root visit every token |
| `JsonHelpers.DumpOfAnyText` | lib/json_helpers.c:71-133 | on any text that tokenises, JSON or not: the dump stays within the tokens if and only if the misplaced labels are fewer than the top-level tokens and the unspent sizes together |
| `JsonHelpers.DumpNeedsLabels` | lib/json_helpers.c:88-113 | `{[1]}` counts and fills three tokens, and its dump reads past them; it has one misplaced label, one top-level token and no unspent size |
| `Container.SearchCounts` | lib/container.c:92-104 | after a search a value is in the table if and only if a string token of the name, at index 1 or above, has a successor whose text converts to it, and then its count is the increment times the number of those (modulo 2^64) |
| `Container.RunningContainers` | lib/container.c:271-331 | from the JSON answer to the report: one entry for each image, none twice and none left out, each with the number of "Image" tokens whose successor has that short name, and the total is the number of all with a successor; or the number for the name asked for, as it was given, which is 0 for a name with a slash |
| `Container.AskedByName` | lib/container.c:313-318 | the image asked for is found under its own name if and only if the name has no slash, or there is none of it |
| `Answers.AnswerCounted` | lib/container.c:80-108 | on every JSON answer, for every name: the tokens counted for it are, in number, the keys and string values "Image" of the tree whose next key or value in preorder has that short name |
| `Answers.ReportOfAnswer` | lib/container.c:271-331 | so the report gives, on every JSON answer that is not read past, the containers of each image of the tree, or of the one asked for, and their total |
| `Collection.PutAllCounts` | lib/collection.c:83-121 | after any run of puts a key is absent if never put, else has the sum of its increments (modulo 2^64); `elements` is the number of puts (modulo 2^32) |
| `Collection.PutAllKeys` | lib/collection.c:101-110 | the keys array holds the keys that were put, each once, in the order of their first put |
| `Collection.HashTable.Put` | lib/collection.c:83-121 | the table in memory changes as its value does; chains stay acyclic, in their buckets, without duplicates |
| `CpuTopology.CpumaskParse` | lib/cputopology.c:148-190 | with or without 0x, the set has exactly the one bits of the denoted number that fit, and the result is how many there are |
| `CpuTopology.MaskRoundTrip` | lib/cputopology.c:148-190 | writing any set as a mask and parsing it gives the set back, word for word |
| `CpuSet.CountS` | lib/cputopology.c:50-80 | for any number of words, the loop returns the number of CPUs in the set |
| `CpuSet.CountS32` | lib/cputopology.c:50-80 | for any number of 32-bit words, the loop returns the number of CPUs in the set |
| `Processes.ProcsList.Add` | lib/processes.c:121-168 | the search ends; the list in memory changes as its value does, and stays free of cycles but for the one node at its end that points to itself |
| `Processes.ProcessesCounted` | lib/processes.c:172-270 | short of 2^63: the head counts the processes, or with the threads option sums their threads, which is the sum over the nodes; each node does so for its user, and no user is missing |
| `Processes.ListedFallsShort` | plugins/check_nbprocs.c:129-148 | the entries printed fall short of the total by exactly what the last user has, which without the threads option is at least one |
| `Files.Counters.Filecount` | lib/files.c:106-252 | a run over a whole tree adds the counts of what it visits; it fails exactly for an unreadable directory, and stops exactly for an entry without status |
| `Files.TallyIsCensus` | lib/files.c:106-252 | those counts are a census of the entries that a run comes to: for each counter, exactly which names, types, ages, sizes and options count in it |
| `Files.OrderIndependent` | lib/files.c:106-252 | counters and failure do not depend on the order in which the entries come, at any level of the tree |
| `Files.TotalIdentity` | lib/files.c:193-244 | total is directories, regular files and symlinks, special files unless regular files only, unknown ones unless ignored |
| `CpuSampling.NothingLostIff` | plugins/check_cpu.c:376-405 | over any run: every reading is accounted for by what was reported and the debt, if and only if each step keeps within the bounds above, which are on the readings alone |
| `CpuSampling.IdleIsPeak` | plugins/check_cpu.c:376-405 | over any run that loses nothing: what was reported is how far the highest reading is above the first, and the debt how far the last is below the highest |
| `CpuSampling.IdleModulo` | plugins/check_cpu.c:376-405 | over any run at all: the first reading, what was reported since and the debt make up the last reading modulo 2^32 |
| `CpuSampling.AfterAddsUpIff` | plugins/check_cpu.c:362-409 | on every run: the five parts add up to the ratio, which is not zero, if and only if they sum below 2^64 |
| `CpuSampling.AfterAddsUp` | plugins/check_cpu.c:362-409 | they do if only the idle counter runs backwards and nothing is lost |
| `CpuSampling.CheckCpu` | plugins/check_cpu.c:353-436 | the status is that of some CPU, or OK, and no CPU has a worse one, where a CPU is measured by its readings: 100 times the change of user and nice time (or of iowait) by the sum of the five changes |
| `Thresholds.AtComplements` | lib/thresholds.c:123-127 | for every range: the mark turns every alert into its opposite if and only if no second mark follows |
| `Perfdata.EndAlert` | plugins/check_memory.c:277-291 | for `t%`, an alert if and only if the monitored kilobytes exceed the published limit |
| `Perfdata.StartAlert` | plugins/check_memory.c:277-291 | for `t%:`, an alert below the limit, none above it, and on the limit exactly if it was rounded |
| `Perfdata.ConvertedLimit` | lib/perfdata.c:75-86 | the converted limit of a percentage is its exact share in bytes, kB, MB or GB, rounded down once, if and only if the unit is not the byte or less than a byte was lost |
| `JsmnLexing.HexEscapeScan` | include/jsmn.h:263-281 | behind `\u` exactly four hexadecimal digits pass, and only the end of the text may cut them short |
| `JsmnLexing.StringScanInvalidExact` | include/jsmn.h:250-286 | JSMN_ERROR_INVAL if and only if, after a string body, there is an escape that no more text could complete |
| `JsmnLexing.PrimitiveScanExact` | include/jsmn.h:146-206 | a primitive ends at `k` if and only if a separator or the end stands there and only printable, non-separating characters come before |
| `Jsmn.Parser.AllocToken` | include/jsmn.h:113-129 | hands out the next token blank, or fails and changes nothing |
| `Jsmn.Parser.ParsePrimitive` | include/jsmn.h:146-206 | one more token with exactly the scanned span and the cursor on its last character; on any error cursor and tokens are as before |
| `Jsmn.Parser.ParseString` | include/jsmn.h:210-290 | one more token with exactly the interior; on any error the cursor is back on the opening quote and the tokens are as before |
| `Jsmn.Parser.OpenBracket` | include/jsmn.h:312-342 | the whole new state of an opening bracket, or JSMN_ERROR_NOMEM and no change |
| `Jsmn.Parser.ScanBack` | include/jsmn.h:390-407 | the loop over the token array finds the last open one |
| `Jsmn.Parser.CloseBracket` | include/jsmn.h:343-408 | closes the last open token and makes the one before it the superior, or fails and changes nothing |
| `Jsmn.Parser.Comma` | include/jsmn.h:429-451 | the superior becomes the last open container, if it was a key |
| `JsmnMachine.CommaSuperExact` | include/jsmn.h:429-451 | that is the object or array without an end that comes last, and where there is none the superior stays |
| `Jsmn.Parser.Turn` | include/jsmn.h:304-500 | one turn of the loop refines one step of the machine |
| `Jsmn.Parser.Fill` | include/jsmn.h:295-515 | the loop over the text, with an array, refines a whole run of the machine |
| `Jsmn.Parser.CountTokens` | include/jsmn.h:295-515 | the same without an array: the counting pass |
| `JsmnInvariants.StepKeeps` | include/jsmn.h:304-500 | every turn, on any text, keeps: starts increase, spans lie within the text and are nested or disjoint, open tokens are containers, each size is the number of tokens made below |
| `JsmnInvariants.RunKeeps` | include/jsmn.h:295-515 | so does every run, from any such state, whatever its result |
| `JsmnInvariants.RunCode` | include/jsmn.h:502-514 | a result that is not negative is the number of tokens, all closed, with the whole text read |
| `JsmnVerdict.ScanFindsTop` | include/jsmn.h:378-407 | the backward scan finds the top of the stack of open containers, and nothing exactly when it is empty |
| `JsmnVerdict.FillFollowsCount` | lib/json_helpers.c:47-69 | turn by turn the fill pass moves the cursor as the count pass does; its only other errors are memory and closing brackets |
| `JsmnVerdict.BalancedIffNested` | include/jsmn.h:343-408 | the check of brackets on a stack passes exactly what is generated by properly nested, type-matched groups |
| `JsmnVariants.StepsAgree` | include/jsmn.h:304-500 | one turn of each: in step to the same cursor and spans, or to the same end, or apart at such a bracket |
| `JsonRoundTrip.ValueRun` | include/jsmn.h:295-515 | in the middle of any run, the text of a value adds exactly its preorder listing and one to the size of its superior |
| `JsonHelpers.TokenStreq` | lib/json_helpers.c:31-39 | 0 exactly for a string token with that text |
| `JsonHelpers.Tokenise` | lib/json_helpers.c:47-69 | the count fails, or the assertion does (exactly when the brackets are not nested), or the buffer holds exactly the counted tokens of the fill pass |
| `JsonHelpers.Dump` | lib/json_helpers.c:71-133 | visits the tokens from its start to its end once each, in order |
| `JsonHelpers.DumpValue` | lib/json_helpers.c:71-133 | wherever the listing of a value stands in an array, the dump returns the number of its tokens |
| `JsonHelpers.ValueSettled` | lib/json_helpers.c:71-133 | the account of a dump from any token: it visits what the sizes pay for, one more for each misplaced label and less by the unspent sizes, or the array ends first |
| `Collection.HashOf` | lib/collection.c:33-42 | the wrapping loop computes the polynomial in 31, modulo 2^32 and then 101 |
| `Collection.HashIsPowerSum` | lib/collection.c:33-42 | which is the sum of the characters, signed, each times 31 to the number of characters behind it |
| `Collection.CountsAddUp` | lib/collection.c:83-121 | with increments of one the counts add up to the number of puts |
| `Collection.HashTable.constructor` | lib/collection.c:46-60 | an empty table whose chains are well formed |
| `Collection.HashTable.Walk` | lib/collection.c:62-77 | following a chain ends, and finds the node of the key exactly if the chain has it |
| `Collection.HashTable.Lookup` | lib/collection.c:62-77 | the node that holds the key's count, or NULL exactly if the key was never put |
| `Container.ShortNameExact` | lib/container.c:61-72 | what follows the last slash, or the whole name |
| `Container.PutsCountHits` | lib/container.c:92-104 | for each value, the sum of its increments is the increment times the number of turns that put it |
| `Container.Search` | lib/container.c:80-108 | the table refines that run of puts; the read behind the tokens happens exactly when there are at least two and the last one matches |
| `Answers.AnswerSeen` | lib/container.c:92-104 | on every JSON answer, the tokens that the search sees are the nodes of the tree in preorder, with their texts |
| `Answers.AnswerTotal` | lib/container.c:80-108 | on every JSON answer that is not read past, all of the tokens counted are, in number, the keys and string values "Image" (none for that string alone) |
| `Answers.SearchOverreads` | lib/container.c:92-99 | the answer `["Image"]` tokenises, and the search reads past its tokens |
| `Answers.SlashedImage` | lib/container.c:313-318 | the answer `{"Image":"a/b"}` has one container, under "b" and none under "a/b" |
| `CpuTopology.MaskBitMeaning` | lib/cputopology.c:148-190 | digits taken four bits at a time from the right give the bits of the number that the mask denotes |
| `CpuTopology.ReadingExact` | lib/cputopology.c:165-175 | accepted if and only if every character is a digit, or a comma behind one; out of the text exactly for a leading comma |
| `CpuTopology.PrefixedMask` | lib/cputopology.c:160-162 | what is read of a text that starts with `0x` is the rest; a mask accepted by itself is accepted behind `0x`, and stands for the same set |
| `CpuTopology.SetDigit` | lib/cputopology.c:176-183 | the four tests add exactly the CPUs of the digit that fit |
| `CpuTopology.MaskTextNumber` | lib/cputopology.c:168-170 | a set written as a mask, in groups of eight digits, denotes the number with those bits |
| `CpuTopology.CharToValExact` | lib/cputopology.c:132-144 | the value is the place of the digit, in either case, among the sixteen |
| `CpuTopology.LeadingCommas` | lib/cputopology.c:165-175 | `,f` is read from in front of its text, and `,zz` is refused |
| `CpuSet.ZeroS` | include/cputopology.h:39-45 | no CPU is in the set |
| `CpuSet.SetS` | include/cputopology.h:47-52 | adds that CPU and no other, and nothing if it is out of range |
| `CpuSet.Ladder64Counts` | lib/cputopology.c:65-71 | the six bit-parallel steps return the number of one bits, for each 64-bit word |
| `CpuSet.Ladder32Counts` | lib/cputopology.c:72-78 | the five bit-parallel steps count the one bits of each 32-bit word |
| `CpuSet.WordCount` | lib/cputopology.c:58-79 | one more word adds its members, and a zero word none |
| `Processes.AddAllUsers` | lib/processes.c:121-168 | after any run of additions the users come once each, in first-seen order, and none is missing |
| `Processes.AddAllSums` | lib/processes.c:136-148 | each node holds the sum of its user's increments (modulo 2^64) |
| `Processes.AddAllTotal` | lib/processes.c:137-149 | the head holds the sum of all increments, and the sum over the nodes (modulo 2^64) |
| `Processes.RunCounted` | lib/processes.c:121-168 | after any run of additions that sum to less than 2^63, the head holds the sum, which is the sum over the nodes, and each node that of its user |
| `Processes.ProcsList.constructor` | lib/processes.c:109-119 | an empty list: the head points to itself |
| `Processes.ProcsList.Listed` | include/processes.h:54-57 | what the macro visits: all the users but the last |
| `Processes.GetAll` | lib/processes.c:172-270 | the list is the run of one addition for each process, and short of 2^63 counts as above |
| `Files.FiltersSplit` | lib/files.c:72-104 | a positive limit passes what is older, or larger, than it; a negative one what is younger, or smaller; 0 everything |
| `Files.TallyMeaning` | lib/files.c:106-252 | the counters are the numbers of visited entries of each class |
| `Files.StopsForLost` | lib/files.c:152-154 | a run stops if and only if one of the entries that it comes to has no status |
| `Files.TallyConcat` | lib/files.c:181-183 | counting is additive |
| `Files.PermutedIsShuffled` | lib/files.c:133-139 | any permutation of a directory's entries is one of the reorderings below |
| `Files.Counters.CountFile` | lib/files.c:193-244 | the switch on the type of an entry |
| `Files.Counters.CountEntry` | lib/files.c:140-245 | one turn of the loop, which stops the run exactly at an entry without status |
| `CpuSampling.Turn` | plugins/check_cpu.c:382-409 | the body of the loop computes the next shares |
| `CpuSampling.TooLongASleep` | plugins/check_cpu.c:401-405 | a single change of 2^31 is lost, and one of 2^32 is not |
| `CpuSampling.FirstAddsUp` | plugins/check_cpu.c:362-374 | the first sample has the counters themselves for its parts, which add up |
| `CpuSampling.NextAddsUp` | plugins/check_cpu.c:382-409 | the parts of a later sample are the changes of the counters, and add up with the idle time reported |
| `CpuSampling.PercentsAddUp` | plugins/check_cpu.c:424-428 | then the five percentages add up to 100 |
| `CpuSampling.UsageOrderly` | plugins/check_cpu.c:382-432 | with orderly counters and a lossless idle run, the percentage is the exact quotient of the changes, the idle one being how far the highest reading has moved |
| `CpuSampling.Collect` | plugins/check_cpu.c:360-428 | with two buffers taking turns, each CPU ends up with what its own readings lead to |
| `CpuSampling.StepExact` | plugins/check_cpu.c:396-405 | one step: exactly when nothing is lost, and what is then reported and left as a debt |
| `CpuSampling.OverflowExact` | plugins/check_cpu.c:397-400 | while nothing is lost, the signed sum overflows if and only if a debt is made up for by 2^31 or more |
| `Thresholds.CheckRange` | lib/thresholds.c:37-74 | an alert exactly if being inside the range is what the range alerts on |
| `Thresholds.GetStatus` | lib/thresholds.c:76-90 | critical goes before warning |
| `Thresholds.ParseRangeString` | lib/thresholds.c:106-158 | the range built in place is the one that the text stands for, or NULL if start and end are out of order |
| `Thresholds.EndAlone` | lib/thresholds.c:106-158 | `end` alerts below 0 and above the end |
| `Thresholds.StartAlone` | lib/thresholds.c:106-158 | `start:` alerts below the start |
| `Thresholds.FromMinusInfinity` | lib/thresholds.c:106-158 | `~:end` alerts above the end |
| `Thresholds.StartAndEnd` | lib/thresholds.c:106-158 | `start:end` alerts outside, and is refused if out of order |
| `Perfdata.LimitIsFloor` | lib/perfdata.c:68-70 | a limit is the amount rounded down, and the two conversions of a percentage round its share down once |
| `Perfdata.NothingPublished` | lib/perfdata.c:39-53 | a range with `@`, or from minus infinity, has no limit |
| `Perfdata.BoundPublished` | lib/perfdata.c:54-66 | `start:end` and `end` publish the end, and `start:` the start |
| `Perfdata.ConvertedIsFloor` | include/units.h:26-30 | converting rounded kilobytes rounds the exact amount down once, if and only if the unit is not the byte or less than a byte was lost |

## Left out

- Network, sockets, `/proc`, sysfs, the clock and directory reading: JSON answers, samples, process statuses and directory trees are inputs. A failing `readdir` is not part of the model.
- Option parsing, usage texts, and the text that is printed; `json_dump` is modelled by the tokens it visits and their order.
- Memory release, failing allocations and NULL arguments.
- The code under JSMN_STRICT, which is not compiled.
- `json_search` and `json_token_tostr`, and other small accessors.
- Texts of 2^31 bytes or more: positions are unbounded here.
- `fnmatch`, `strtod`, `getpwuid` and the regular expressions are not part of this model: matching a name is a parameter, and so is the number that a text starts with.
- `JsonHelpers.Dump`: a text without tokens has no root to start on, and there `json_dump_pretty` reads a token that does not exist.
- `Jsmn.Parser.Fill`: only the compiled backward scans are modelled in place; the parent links are steps of the machine.
- `JsmnVariants.VariantsAgreeIff`: is about results, cursors, types and spans; the sizes under the two rules are compared on JSON texts, in `JsonRoundTrip.VariantsAgree`.
- `Collection.HashTable.Put`: the number of keys does not wrap at 2^32, and `char` is signed, as on the usual targets.
- `CpuTopology.CpumaskParse`: the position in the mask does not overflow, and the size of a set is a multiple of its words.
- `CpuSet.SetS`: the positions in a word are a separate type, so shifting out of the word cannot be written.
- `Processes.ProcsList.Add`: user names and resource limits are not stored.
- `Files.Counters.Filecount`: counters, times and sizes are unbounded.
- `CpuSampling.Turn`: a sum of `int`s that overflows is undefined in C; here it wraps (`CpuSampling.OverflowExact` says when). The seven arrays are one array of records.
- `Thresholds.ParseRangeString`: `set_thresholds`, which calls it twice, and `thresholds_expressed_as_percentages` are left out.
- `Perfdata.EndAlert`: rounding of `double` is left out, and so is a product that does not fit an `unsigned long long`, which C leaves undefined.
- Fetching the memory usage of containers, the vmstat table, CPU frequencies, and reference counting: they would add only easy members.
