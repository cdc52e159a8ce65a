# The cores of ihttp, proved

ihttp is an intercepting HTTP proxy with a console. This project models the parts of it whose claims no single
branch settles, and proves them for every input, every run or every interleaving:

- **The query language** (`filter_*.dfy`): lexer, Pratt parser, printer, validator and evaluator, and the three together. The parser is the
  stratified grammar, no more and no less; a tree survives printing exactly when its keys and values are plain; a
  validated query means plain boolean logic; the case of an operator word means nothing.
- **WebSocket framing and relay** (`ws_frame`, `ws_relay`, `ws_pump`): the header codec of section 5.2 of RFC 6455,
  unmasking in place (5.3), bounded reassembly (5.4), and the pump that forwards bytes untouched while it reads a copy.
- **Recording those messages** (`ws_recorder`): offers that never wait, a bounded queue, a batching writer.
- **The leaf certificate cache** (`leaf_cache`): a map and a use list under a lock, minting outside it.
- **The request log** (`ordered`, `log_scan`, `log_top`, `log_bucket`, `log_store`): paged scans, the bounded ranking,
  deletion and retention, and bodies kept in files beside the records, through a crash of the process at any step.
- **Automation** (`pool_run`, `pool_lifecycle`): feeder, workers, cancellation and final status of one run; and starts,
  saves, runs and deletions of one job as they overlap.
- **Holding an exchange for the console** (`intercept`): one hold, many answerers.
- **gRPC and protobuf read without a schema** (`proto_wire`, `grpc_frames`, `base64_chunks`).

What the source changes step by step is a class or a method with loops, proved against a function of its inputs or of
the old state; what is promised of it is then proved of that function. Goroutines are machines of interleaved steps. A
run of a machine is a list of steps, last one outermost, and its theorems are by induction over that list. bbolt is an
ordered map with atomic write transactions and snapshot reads.

Things borrowed from elsewhere are parameters, about which nothing more is assumed than a `requires` says: regular
expressions, case mapping and folding, number parsing, what is printable, gunzip, what an edit makes of a request, and
the clock. Choices of the environment (a store that fails, a client that gives up) are arbitrary values.

## Where the code and what is said of it differ

The code is followed. Each of these has the exact condition under which it happens, and an input where it does:

- `Expr.String` is said to print what parses to the same tree. It does exactly for plain keys and values; the quoting
  escapes and the lexer knows no escapes (`FilterRoundTrip.PrintThenParse`, `BackslashDoesNotComeBack`).
- A validated query can still fail: exactly when reading it, left to right and no further than it must, meets a
  comparison whose operator is not defined for its list or header key while there is a text to meet. Where there is
  none, such a comparison counts as false (`FilterEval.WhenAQueryFaults`, `FilterQuery.WhenACompiledQueryFaults`,
  `ValidatedCanFault`, `SettledBeforeItFaults`).
- When the relay does not understand a header, that header's own bytes never reach the peer. With room for all of it
  at the peer, the streams that happens to are exactly those that hold, behind frames all in order, a header refused as
  no header (`WsPump.Relay.LosesAHeaderExactly`, `Transparent`, `WsPump.HeaderIsLost`).
- A list page can come back empty and say more remain, when a whole batch of entries that do not match stands in the
  way; asking again from the last id seen asks the same question (`LogScan.PagesChain`, `LogScan.ChainCollects`,
  `AMatchIsNeverReached`).
- An entry rewritten with a big body over a body already in its file reads, until its record is in, as the old record
  with the new body. A write is seen so if and only if, on some side, the old record keeps its body in a file, the new
  one is at the threshold or over, and that one change makes the entry neither old nor new
  (`LogStore.TornExactly`, `LogStore.Store.Put`, `WriteCanTear`).
- A run cancelled by then is recorded as stopped though every result is stored; the record of a job saved over while its
  run starts comes down from the save and has a total of none; a job deleted while its record is being rewritten comes
  back (`PoolRun.AllStoredExactly`, `StoppedThoughAllStored`; `TotalIsRight`, `SavedOverLosesTotal`; `DeletedComesBack`,
  `DeletedIsBack`).
- A deletion waits for the run it sees, so that nothing lands after it. A start or a save that had already read the
  record is not seen (`PoolLifecycle.DeletionIsFinal`, `StartOverlapsDeletion`, `SaveOverlapsDeletion`).
- Switching interception off releases what is waiting then. An exchange that had passed its check but was not yet
  listed waits on (`Intercept.ReleaseCanMiss`, `ReleaseMissesALateHold`). The claim of a forward keeps out other
  forwards, not a drop or a release (`Intercept.EditCanBeOvertaken`, `ReleaseOvertakesAnEdit`).
- Base64 pieces back to back decode to their contents exactly when each is padded or needs no padding
  (`Base64Chunks.BackToBack`, `UnpaddedRunsOn`).

Messages are deleted by a key prefix, which would also take those of an id that goes on from the deleted one with a
colon (`LogBucket.PrefixFinds`). That is no fault of the code: every id is a UUIDv7 (internal/core/ids/ids.go:14-17),
which holds no colon, and then every entry that stays keeps all its messages (`LogBucket.TrimmedTakesMessages`).

## Model

| member | source | states |
|---|---|---|
| `FilterLexer.Scan` | internal/core/filter/lexer.go:30-103 | one turn of the lexer's loop reads what stands at the cursor, and takes exactly those characters |
| `FilterLexer.Lex` | internal/core/filter/lexer.go:30-103 | the whole input as tokens with one EOF at the end, or the error of the first piece that cannot be read |
| `FilterWords.WordsAreRead` | internal/core/filter/lexer.go:68-97 | by letters: a word that spells one of the six operator words, each letter in either case, is read as that operator, and any other word of letters, digits, dots, hyphens and underscores as the string it is, whatever ends it |
| `FilterWords.WordIsRead` | internal/core/filter/lexer.go:68-103 | such a word alone is that one token and the EOF |
| `FilterWords.SymbolsAreRead` | internal/core/filter/lexer.go:105-135 | each symbol is read as its operator, two characters that go together as one |
| `FilterWords.BangAloneIsRefused` | internal/core/filter/lexer.go:105-135 | an exclamation mark that nothing completes is refused |
| `FilterWords.CaseIsNotRead` | internal/core/filter/lexer.go:81-97 | two inputs that differ, piece by piece, in the case of operator words alone have the same tokens |
| `FilterParser.Parser.Advance` | internal/core/filter/parser.go:68-82 | moves one token on, and never past the single EOF |
| `FilterParser.Parser.ParseExpr` | internal/core/filter/parser.go:84-123 | the Pratt loop at a floor reads exactly what that level of the stratified grammar reads, same tree, same rest, same error, and takes a token |
| `FilterParser.Parser.ParsePrefix` | internal/core/filter/parser.go:125-159 | a prefix is the grammar's NOT, parenthesis or term |
| `FilterParser.Parser.ParseTerm` | internal/core/filter/parser.go:161-200 | a term takes an operator and what that operator needs |
| `FilterParser.Parser.ParseList` | internal/core/filter/parser.go:202-229 | the strings up to the closing parenthesis, or which of the four list errors |
| `FilterParser.Parse` | internal/core/filter/parser.go:41-66 | compiling answers a tree exactly when the input's tokens derive that tree |
| `FilterWords.CaseDoesNotMatter` | internal/core/filter/lexer.go:81-97 | and compile to the same tree, or are refused alike |
| `FilterWords.AnyCaseWillDo` | internal/core/filter/lexer.go:81-97 | an operator word after a space, outside quotes, may be written in any case without changing what is compiled |
| `FilterWords.WordsAreJoined` | internal/core/filter/parser.go:84-123 | two words with an and or an or between them, in any case, compile to the two joined by it |
| `FilterGrammar.QueryIsGrammar` | internal/core/filter/parser.go:41-229 | for every token list and tree: accepted as that tree if and only if `or := and (OR and)*`, `and := not (AND? not)*`, `not := NOT not, '(' or ')', term` derives all of it as that tree |
| `FilterGrammar.DerivationIsUnique` | internal/core/filter/parser.go:84-123 | no token list derives two trees |
| `FilterRoundTrip.PrintThenParse` | internal/core/filter/ast.go:44-95 | for every tree: it parses back from its own text if and only if its nodes are well formed, its values need no escaping and its keys are lower-case unreserved bare words |
| `FilterRoundTrip.ParsedThenPrinted` | internal/core/filter/ast.go:44-95 | of a tree that came out of the parser only the spelling of its keys and values is left to ask about |
| `FilterRoundTrip.ParsedIsWellFormed` | internal/core/filter/parser.go:41-229 | what the parser answers carries in every node what its operator uses and nothing else, keys lower-cased |
| `FilterRoundTrip.PrintedIsRead` | internal/core/filter/ast.go:44-95 | what is printed lexes to the tree's own tokens, whatever text follows |
| `FilterRoundTrip.BackslashDoesNotComeBack` | internal/core/filter/ast.go:70-84 | a regular expression with a backslash does not survive printing |
| `FilterQuote.QuoteReadsBack` | internal/core/filter/ast.go:70-95 | whatever the text, what is printed between the quotes is a string literal of it, read by a reader of its own: no two texts are printed alike |
| `FilterSubject.VocabularyIsFixed` | internal/core/filter/httpsubject.go:147-467 | whatever parts of it are missing, every exchange knows the same keys, through the same accessors, and what is known answers `exists` |
| `FilterSubject.NoResponseIsNothing` | internal/core/filter/httpsubject.go:134-143 | without a response every key of one still answers, and answers that there is nothing |
| `FilterSubject.DynamicOfRequest` | internal/core/filter/httpsubject.go:484-536 | for every name: a header, cookie, form or query key reads the one set its prefix names, under that name, and is there exactly when the set has it |
| `FilterSubject.DynamicOfResponse` | internal/core/filter/httpsubject.go:484-536 | the same of a response's headers, trailers and cookies, with nothing where there is no response |
| `FilterSubject.PartsAreRead` | internal/core/filter/httpsubject.go:147-332 | every key of the request, its URL, a tunnel and a WebSocket reads that part, or nothing without it |
| `FilterSubject.ResponseIsRead` | internal/core/filter/httpsubject.go:147-344 | every key of a response and of its timing reads that part, or nothing without it |
| `FilterSubject.TagsAreRead` | internal/core/filter/httpsubject.go:397-468 | the two keys of a list read the tags and are there when it holds any |
| `FilterSubject.HeadersAreRead` | internal/core/filter/httpsubject.go:397-458 | each key of a header set reads its own side's |
| `FilterSubject.TextIs` | internal/core/filter/httpsubject.go:470-482 | a bare word is looked for in the method, URL, bodies, note, tags, header lines and status, and nowhere else |
| `FilterEval.MatchHeaders` | internal/core/filter/eval.go:252-279 | over all header lines: `=` and `=~` ask for one that fits, `!=` and `!~` deny it, and any other operator fails on the first line |
| `FilterEval.MatchValues` | internal/core/filter/eval.go:188-211 | the same over a list, with contains and `in`, each as a statement about some element |
| `FilterEval.MatchCompare` | internal/core/filter/eval.go:120-168 | a comparison answers its plain logical meaning, or which of the two faults |
| `FilterEval.FieldsAreOrdered` | internal/core/filter/eval.go:213-236 | over a field the four orderings go by numbers when both texts are numbers and otherwise by the dictionary, told by the first place the texts part |
| `FilterEval.FieldsAreEqual` | internal/core/filter/eval.go:170-247 | equality on a field ignores case for the keys listed and for no others, and `!=` denies it |
| `FilterEval.TagsAreMatched` | internal/core/filter/eval.go:183-211 | over the tags `=`, `!=`, contains and `in` each ask about some tag, or deny it, in any case |
| `FilterEval.HeadersAreMatched` | internal/core/filter/eval.go:249-279 | over a header set `=` and `=~` ask about some line, and contains is not defined |
| `FilterEval.ContainsIsBetween` | internal/core/filter/eval.go:144-145 | a text contains another where that stands between two pieces of it |
| `FilterEval.Match` | internal/core/filter/eval.go:43-80 | the answer is the left-to-right one, a fault of a part that is reached included |
| `FilterEval.KeyWalk.Walk` | internal/core/filter/ast.go:141-166 | adds the keys of a tree to those seen, each once |
| `FilterEval.Keys` | internal/core/filter/ast.go:141-166 | exactly the keys the tree names, each once |
| `FilterEval.Validate` | internal/core/filter/eval.go:110-118 | passes if and only if every key is known, and otherwise names one that is not |
| `FilterEval.ValidatedNeverUnknown` | internal/core/filter/eval.go:86-118 | a query checked against any exchange never reports an unknown field on any other |
| `FilterEval.ValidatedIsPlainLogic` | internal/core/filter/eval.go:43-168 | with defined operators too, matching never faults and equals strict boolean evaluation, `!=` being not `=`, `!~` not `=~`, `in` an OR of `=` |
| `FilterEval.WhenAComparisonFaults` | internal/core/filter/eval.go:188-279 | a validated comparison faults if and only if its operator is undefined for the key and there is a text to meet |
| `FilterEval.WhenAQueryFaults` | internal/core/filter/eval.go:43-168 | for every validated query: it faults if and only if reading it meets an undefined comparison that has a text, and otherwise is plain logic with undefined comparisons false |
| `FilterEval.SettledBeforeItFaults` | internal/core/filter/eval.go:48-62 | `req.tag = prod OR req.tag > 3` is yes on an exchange with that tag, though its right half alone faults |
| `FilterEval.ValidatedCanFault` | internal/core/filter/eval.go:188-211 | `req.tag > 3` passes any check, fails on an exchange with a tag and is quietly false on one without |
| `FilterQuery.CompiledIsPlainLogic` | internal/core/filter/eval.go:36-118 | from text to answer: a query that compiles, validates and uses defined operators is strict boolean logic over any exchange |
| `FilterQuery.WhenACompiledQueryFaults` | internal/core/filter/eval.go:36-118 | the same of whatever compiles and names known keys |
| `WsFrame.ReadHeader` | internal/core/wsframe/wsframe.go:88-153 | reads what the stream's head says by section 5.2, takes exactly those bytes, and tells an ended, a cut and a refused header apart |
| `WsFrame.EncodeHeader` | internal/core/wsframe/wsframe.go:157-195 | writes the shortest length form |
| `WsFrame.ReadUndoesEncode` | internal/core/wsframe/wsframe.go:88-195 | for every legal header and payload: reading the encoding gives the header back and leaves the payload unread |
| `WsFrame.EncodeIsShortest` | internal/core/wsframe/wsframe.go:88-195 | of all byte strings read as one header, the encoding is the unique shortest |
| `WsFrame.WhatIsUnderstood` | internal/core/wsframe/wsframe.go:88-153 | with bytes enough for any header: one is read if and only if its opcode is known, its length fits 63 bits and, of a control frame, it is final and at most 125 long; any other is a protocol error |
| `WsFrame.FlagsByWeight` | internal/core/wsframe/wsframe.go:88-110 | the flags and the opcode by their weights in the first byte, most significant first |
| `WsFrame.FramesOfTheStandard` | internal/core/wsframe/wsframe.go:88-153 | the short frames section 5.7 shows read as it says |
| `WsFrame.LongFramesOfTheStandard` | internal/core/wsframe/wsframe.go:88-153 | and the two with longer lengths |
| `WsFrame.Unmask` | internal/core/wsframe/wsframe.go:200-209 | the array, unmasked in place at an offset: each byte the exclusive or of itself and its mask byte |
| `Bytes.XorIsBitwise` | internal/core/wsframe/wsframe.go:206-208 | for all bytes and every bit: a bit of the exclusive or is set if and only if the two bits differ |
| `Bytes.XorIsTheOnly` | internal/core/wsframe/wsframe.go:206-208 | and no other byte has those bits |
| `WsFrame.MaskedWithNothing` | internal/core/wsframe/wsframe.go:200-209 | a zero mask changes nothing, and a payload that repeats its mask comes out zero |
| `WsFrame.MaskedHello` | internal/core/wsframe/wsframe.go:200-209 | the masked text of section 5.7 reads Hello |
| `WsFrame.MaskedTwice` | internal/core/wsframe/wsframe.go:200-209 | masking twice is nothing |
| `WsFrame.MaskedInPieces` | internal/core/wsframe/wsframe.go:197-209 | a payload may be unmasked piece by piece, each at its own offset |
| `WsFrame.Assembler.Begin` | internal/core/wsframe/wsframe.go:287-304 | refuses exactly a continuation of nothing and a new message inside an open one, and then changes nothing |
| `WsFrame.Assembler.Append` | internal/core/wsframe/wsframe.go:308-322 | the payload kept stays the first bytes, up to the limit, of all fragments so far, and the size their whole length |
| `WsFrame.Assembler.Finish` | internal/core/wsframe/wsframe.go:325-331 | the message begun, of whatever was appended, truncated if and only if that exceeds the limit, counted, and the assembler ready again |
| `WsRelay.ReportedAreReassembled` | internal/proxy/wsrelay.go:121-185 | for every accepted run of frames: the data messages reported are its messages, in order, and every data frame is in exactly one of them or still open |
| `WsRelay.MessagesAreReported` | internal/proxy/wsrelay.go:146-185 | a message is reported under its first frame's opcode and compression, with the size of its payloads end to end, their first bytes up to the limit, and whether that was all |
| `WsRelay.ControlsAreReported` | internal/proxy/wsrelay.go:146-185 | a control frame is reported whole; a close gives its code, most significant byte first, and reason, or 1005 with no room for a code |
| `WsRelay.ControlFramesDoNotMatter` | internal/proxy/wsrelay.go:146-185 | taking the interleaved control frames out changes no data message |
| `WsPump.PrefixWriter.Write` | internal/proxy/wsrelay.go:210-221 | keeps the first bytes up to the limit of everything written |
| `WsPump.CopyPayload` | internal/proxy/wsrelay.go:137-145 | the payload goes through unchanged and its prefix is kept, or which side fell short |
| `WsPump.ForwardFrame` | internal/proxy/wsrelay.go:121-155 | a whole frame is forwarded as it was, though the kept copy is unmasked in place |
| `WsPump.Relay.NoteClose` | internal/proxy/wsrelay.go:187-196 | the first close word stands, whichever direction heard it |
| `WsPump.Relay.Emit` | internal/proxy/wsrelay.go:198-207 | a message is told under a number above all before it, whatever numbers the other direction takes |
| `WsPump.Relay.Turn` | internal/proxy/wsrelay.go:121-185 | one turn forwards and reports one frame, or ends in one of four ways |
| `WsPump.Relay.Pump` | internal/proxy/wsrelay.go:121-185 | while the other direction goes on, the frames that stand on the stream go by as an accepted run, unchanged and reported in full under rising numbers, up to where the direction ends |
| `WsPump.Relay.Transparent` | internal/proxy/wsrelay.go:121-185 | what reached the peer is a prefix of what was read, all of it after a refused fragment; a header not understood loses its own bytes |
| `WsPump.Relay.LosesAHeaderExactly` | internal/proxy/wsrelay.go:127-136 | over the input: a direction ends not understanding a header if and only if, behind some frames in order, the stream holds a header refused as none |
| `WsPump.HeaderIsLost` | internal/proxy/wsrelay.go:127-136 | of an unknown opcode and a byte behind it only the byte reaches the peer |
| `WsRecorder.Recorder.WSMessage` | internal/domain/reqlog/websocket.go:80-119 | an offer is taken if and only if the connection is under its cap and the queue has room, and is counted dropped otherwise |
| `WsRecorder.Recorder.TakeBatch` | internal/domain/reqlog/websocket.go:212-235 | a batch of 1 to 256 messages off the queue's head, in order, while offers go on, cut short only by an empty queue |
| `WsRecorder.Recorder.PutBatch` | internal/domain/reqlog/websocket.go:237-246 | the batch is written, and counted only if the store took it |
| `WsRecorder.Recorder.Drain` | internal/domain/reqlog/websocket.go:187-255 | whatever is offered meanwhile: at the end every accepted message is in exactly one batch, in the order they were accepted, the count is that of the batches that stored, and the store was asked to show all but fewer than 20 of it |
| `WsRecorder.Recorder.WSClosed` | internal/domain/reqlog/websocket.go:123-145 | the figures reported account for every offer: stored, failed with its batch, or dropped |
| `WsRecorder.NothingIsLost` | internal/domain/reqlog/websocket.go:80-173 | offered is accepted plus dropped, and written is stored plus failed |
| `LeafCache.Authority.Cached` | internal/core/certgen/certgen.go:187-205 | answers the leaf that stands for the host with more than the margin left, and makes it the newest; without one it answers none and changes nothing |
| `LeafCache.Authority.Store` | internal/core/certgen/certgen.go:166-185 | the leaf comes first, stands alone for its host, and the least recently used one over the limit goes, from the map and the list alike |
| `LeafCache.Authority.Commit` | internal/core/certgen/certgen.go:150-160 | answers the leaf that stands for the host with more than the margin left, and otherwise the one just minted; what is answered comes first and alone for its host |
| `LeafCache.UseKeepsRecent` | internal/core/certgen/certgen.go:166-205 | using a leaf keeps the list the last distinct hosts used |
| `LeafCache.EveryInterleaving` | internal/core/certgen/certgen.go:132-205 | in every interleaving of lookups, mintings and commits: the list is the last 1000 distinct hosts touched, newest first, and each caller gets a leaf for its host, clear of the margin or just minted |
| `LeafCache.FirstToStoreWins` | internal/core/certgen/certgen.go:141-160 | over traces: a call that comes to commit a minted leaf is served the one that stands for its host with more than the margin left, which stays, alone |
| `LeafCache.OtherwiseItsOwnWins` | internal/core/certgen/certgen.go:141-163 | and where none does, the leaf it minted, which then stands |
| `LeafCache.LookupServesWhatStands` | internal/core/certgen/certgen.go:134-136 | a lookup is served the leaf that so stands, and misses exactly without one |
| `LeafCache.RacersShareALeaf` | internal/core/certgen/certgen.go:139-163 | two calls that both miss and both mint are both served what the first of them stored |
| `LogScan.Walk` | internal/domain/reqlog/store.go:190-260 | the cursor's walk is the walk down the sorted keys before the given one |
| `LogScan.List` | internal/domain/reqlog/service.go:90-127 | a page of the list is such a walk that counts matches and gives up after a batch without one |
| `LogScan.ClampLimit` | internal/domain/reqlog/service.go:364-367 | as asked where that is in range, the default for none, else the nearest bound |
| `LogScan.PagesChain` | internal/domain/reqlog/service.go:86-127 | a page is the matches of a stretch from the start; none are left when it says so; the matches beyond it are those before its last id; it stalls if and only if the first 5000 keys hold no match |
| `LogScan.ChainCollects` | internal/domain/reqlog/service.go:86-127 | page after page collects every match once and in order, unless it stalls, and then only what lies beyond the stall is missing |
| `LogScan.ChangingChainCollects` | internal/domain/reqlog/service.go:86-127 | each page reading the log as it then stands: keys strictly descend, each matched in some page's log, and one that is there and matches throughout is collected once or still to come |
| `LogScan.AMatchIsNeverReached` | internal/domain/reqlog/service.go:86-127 | a log of more than 5000 entries, of which only the oldest matches: the first page is empty, says more remain, and leads nowhere |
| `LogScan.ReadPage` | internal/domain/reqlog/store.go:288-348 | the next keys after the last one visited, ascending, and every one unless the page is full |
| `LogScan.Each` | internal/domain/reqlog/store.go:262-348 | across transactions that may each see another log: keys strictly ascend, each entry is one some transaction held, and every key held throughout is visited once |
| `LogTop.BinarySearch` | internal/domain/reqlog/service.go:190-194 | in falling scores, the first place this one is not beaten |
| `LogTop.Consider` | internal/domain/reqlog/service.go:178-205 | one entry put where the search says and the list cut is the full sort's best with that entry in it |
| `LogTop.Top` | internal/domain/reqlog/service.go:147-214 | exactly the first entries of the full sort, or the bad ranking, or the first entry that could not be matched |
| `LogTop.SortedIsRanked` | internal/domain/reqlog/service.go:147-214 | the full sort holds every candidate once, by score and then later visit |
| `LogTop.RankingIsUnique` | internal/domain/reqlog/service.go:147-214 | what is ranked settles the order |
| `LogTop.TopIsBest` | internal/domain/reqlog/service.go:147-214 | as many as fit, in order, and nothing left out is better than anything kept |
| `LogTop.WhatIsRanked` | internal/domain/reqlog/service.go:163-188 | what is ranked: the matching entries that have a reply and a figure that is not negative, by body size or by duration, as asked |
| `LogBucket.PrefixKeys` | internal/domain/reqlog/store.go:455-462 | seeking a prefix and reading on while it lasts finds exactly the keys that have it |
| `LogBucket.PrefixFinds` | internal/domain/reqlog/store.go:47-54 | for all ids: a prefix finds its own messages and exactly those of ids that go on from it with a colon |
| `LogBucket.PrefixFindsOwn` | internal/domain/reqlog/store.go:47-54 | an id without a colon is found by its own prefix alone |
| `LogBucket.PrefixNeedsColonFreeIds` | internal/domain/reqlog/store.go:47-54 | one with a colon can be found by another |
| `LogBucket.MessageKeysAreOrdered` | internal/domain/reqlog/store.go:47-50 | an entry's messages lie in the order of their numbers, each under its own key, up to eight digits |
| `LogBucket.NineDigitsComeFirst` | internal/domain/reqlog/store.go:47-50 | the first number of nine digits lies before the last of eight |
| `LogBucket.EntryBuckets.DeleteEntry` | internal/domain/reqlog/store.go:443-472 | the entry and its messages leave all three buckets, the references it held are answered, and a missing one changes nothing |
| `LogBucket.RemovedTakesMessages` | internal/domain/reqlog/store.go:443-472 | a deletion takes all of the entry's messages, and of another entry all or none: all if and only if the deleted id and a colon head its own |
| `LogBucket.DeleteAll` | internal/domain/reqlog/store.go:372-399 | the entries that are there go, the others are passed over, and all their references are answered |
| `LogBucket.DeletedAllLeaves` | internal/domain/reqlog/store.go:372-399 | every other entry is left as it was, and every message no deleted entry owns |
| `LogBucket.DeletedTakesMessages` | internal/domain/reqlog/store.go:372-399 | the same of many deletions |
| `LogBucket.Victims` | internal/domain/reqlog/store.go:728-756 | the oldest unsaved entries, as many as asked for or as there are |
| `LogBucket.TrimBuckets` | internal/domain/reqlog/store.go:698-780 | leaves max(cap, saved) entries, no saved one dropped, every dropped one older than every unsaved survivor, and only the dropped ones' messages gone from both buckets |
| `LogBucket.TrimmedTakesMessages` | internal/domain/reqlog/store.go:698-780 | every entry a trim leaves keeps all its messages, if and only if no dropped id and a colon head its own |
| `LogBucket.TrimCounts` | internal/domain/reqlog/store.go:698-780 | deleting the oldest unsaved excess is such a trim |
| `LogStore.NamesAreDistinct` | internal/core/blobstore/blobstore.go:184-226 | no two bodies share a file name, and no half-written file has a body's |
| `LogStore.SafeRefsStayInside` | internal/core/blobstore/blobstore.go:184-226 | a reference that is accepted names one file in one directory: one separator, and no part that steps elsewhere |
| `LogStore.PlainRefsAreSafe` | internal/core/blobstore/blobstore.go:208-226 | ids of letters, digits and hyphens are accepted |
| `LogStore.Store.PutBody` | internal/core/blobstore/blobstore.go:54-84 | the file is written whole and moved into place; on a fault or a crash the old one stands |
| `LogStore.Store.OffloadOne` | internal/domain/reqlog/blobs.go:55-79 | a body at the threshold or over goes to its file and leaves the record, a smaller one stays in it |
| `LogStore.Store.Offload` | internal/domain/reqlog/blobs.go:29-51 | the record left reads back as the whole entry |
| `LogStore.Store.Put` | internal/domain/reqlog/store.go:58-85 | sets one entry of the map, messages and other entries as they were; a crash at any step leaves no dangling reference, no other entry changed, and this one as one of the stages of the write; it is torn on the way if and only if the write tears it, and not at all otherwise |
| `LogStore.Store.Update` | internal/domain/reqlog/store.go:99-147 | sets one entry to what the change makes of it, under the same promise; a missing one is not found, one whose body is gone is an error, and nothing moves |
| `LogStore.Store.Get` | internal/domain/reqlog/store.go:150-184 | reads the map, bodies put back, or says that a body is gone, which is so of no sound state |
| `LogStore.Store.Walk` | internal/domain/reqlog/store.go:190-260 | the walk down the map of whole entries |
| `LogStore.Store.Each` | internal/domain/reqlog/store.go:265-348 | every entry of the map once, whole, in ascending order, until one is refused |
| `LogStore.SoundReadsWhole` | internal/domain/reqlog/blobs.go:81-105 | in a sound state every entry reads as a whole one, and no body is gone |
| `LogStore.Store.DeleteBodies` | internal/core/blobstore/blobstore.go:106-119 | the file of every reference that names one goes, every other file stands with its content, and no record reads differently |
| `LogStore.Store.Delete` | internal/domain/reqlog/store.go:352-368 | takes one entry out of the map; once done the body files its record named are gone and every other file stands as it was; no other project touched; a crash at any step leaves the database as it was or as committed, the entry as it was or missing; if it fails nothing has moved |
| `LogStore.Store.DeleteMany` | internal/domain/reqlog/store.go:372-399 | takes many out, skipping the ones gone, with the files their records named and no other, under the same promise |
| `LogStore.Store.Trim` | internal/domain/reqlog/store.go:698-780 | the trim of the buckets, with the files the dropped records named and no other, under the same promise |
| `LogStore.Store.Clear` | internal/domain/reqlog/store.go:646-674 | empties one project and then its files, under the same promise |
| `LogStore.Store.DeleteGroup` | internal/core/blobstore/blobstore.go:123-129 | every file of the group goes, and no record reads differently |
| `LogStore.Store.LiveRefs` | internal/domain/reqlog/blobs.go:152-186 | exactly the references of every record in every project |
| `LogStore.Store.SweepBodies` | internal/domain/reqlog/blobs.go:147-195 | leaves exactly the files records point at, removes no other, and the map reads as before |
| `LogStore.ApartIsSafe` | internal/domain/reqlog/store.go:58-85 | changes kept to one scope, with every record in it still whole, are safe to crash in |
| `LogStore.TornExactly` | internal/domain/reqlog/blobs.go:55-79 | of the stages of a write, spelled out from the state before, the entry and the threshold, one reads as neither old nor new if and only if a side tears |
| `LogStore.WriteCanTear` | internal/domain/reqlog/blobs.go:55-79 | at any threshold: a record with its body in a file, rewritten with another big body and another field, reads in between as the old one with the new body |
| `LogStore.StageIsApart` | internal/domain/reqlog/blobs.go:29-79 | each stage touches the entry written and nothing else, and is safe to crash in |
| `LogStore.OrphanMayGo` | internal/core/blobstore/blobstore.go:106-119 | a file no record points at may go, and nothing reads differently |
| `PoolRun.ClampConcurrency` | internal/domain/automation/service.go:1023-1029 | as asked from 1 to 50, 50 above, and 10 where nothing sensible is asked |
| `PoolRun.MatchesStop` | internal/domain/automation/service.go:952-974 | without an error, all conditions hold or any does, as asked, and no conditions never trip |
| `PoolRun.EveryInterleaving` | internal/domain/automation/service.go:422-501 | what every step of feeder, workers, cancellation, failing stores, deletions and saves keeps |
| `PoolRun.EachIndexOnce` | internal/domain/automation/service.go:441-486 | in every interleaving each payload is unfed, in flight, stored, failed, skipped or discarded, exactly one of these, and no result is stored twice |
| `PoolRun.DoneMeansStored` | internal/domain/automation/service.go:488-500 | a record that says done: every payload's result was stored, once, and it counts them all |
| `PoolRun.TotalIsRight` | internal/domain/automation/service.go:779-800 | a record's total is the run's if and only if it does not come down from a save, or there was nothing to do |
| `PoolRun.VerdictIsRight` | internal/domain/automation/service.go:488-500 | error if and only if a result was lost, else stopped if and only if cancelled by then, else done; cancelled only if someone asked or a result without an error tripped; and a final record carries the verdict and the full count |
| `PoolRun.AllStoredExactly` | internal/domain/automation/service.go:475-500 | once decided, all results are stored if and only if all were fed and none lost, skipped or thrown away; such a run is stopped if it was cancelled by then, and done if not |
| `PoolRun.FatesAreRight` | internal/domain/automation/service.go:435-468 | over the steps taken: an index is thrown away if and only if its request answered with an error and the run was cancelled when that was judged, skipped if and only if it was cancelled when the index came up, stored or lost as its put went |
| `PoolRun.AnswersComeBack` | internal/domain/automation/service.go:439-454 | what is judged of an index is the answer its own request had, and a result trips only when that had no error |
| `PoolRun.TripCancels` | internal/domain/automation/service.go:472-477 | a run that stored a result that tripped is cancelled by the time its end is decided, and never done |
| `PoolRun.ResultsAreSinceCleared` | internal/domain/automation/service.go:456-468 | the results on record are exactly those put since a save or a removal last took them |
| `PoolRun.RecordsSayRight` | internal/domain/automation/service.go:779-800 | a record that says running counts a multiple of 20 results; one that says draft comes from a save |
| `PoolRun.EveryTwentiethIsReported` | internal/domain/automation/service.go:470-482 | every twentieth result counted is written into the record by the worker that counted it, and no other |
| `PoolRun.TemplateStands` | internal/domain/automation/service.go:779-800 | a run changes nothing else of its job, unless it was saved over |
| `PoolRun.QuietOnceGone` | internal/domain/automation/service.go:422-424 | off the register a run writes nothing more, and after done is closed does nothing |
| `PoolRun.EveryStepCounts` | internal/domain/automation/service.go:432-487 | every step of a run brings its end nearer, whatever others do |
| `PoolRun.NeverStuck` | internal/domain/automation/service.go:432-487 | until its channel is closed a run can always take a step |
| `PoolRun.DeletedComesBack` | internal/domain/automation/service.go:776-810 | a record deleted under the run comes back if and only if someone had read it and was yet to write |
| `PoolRun.DeletedIsBack` | internal/domain/automation/service.go:776-810 | a job deleted while its run records how it ended is back, done |
| `PoolRun.StoppedThoughAllStored` | internal/domain/automation/service.go:475-500 | a run whose last result trips a condition is stopped with nothing left to do |
| `PoolRun.SavedOverLosesTotal` | internal/domain/automation/service.go:779-800 | a job saved over as its run starts ends done out of none |
| `PoolLifecycle.EveryInterleaving` | internal/domain/automation/service.go:194-394 | what every step of overlapping starts, saves, runs and deletions keeps |
| `PoolLifecycle.OneRunAtATime` | internal/domain/automation/service.go:340-364 | two runs of a job are never both able to write, and a run that was waited for is over |
| `PoolLifecycle.RunsBeginClean` | internal/domain/automation/service.go:340-390 | however calls overlap, a run begins with no result of an earlier one |
| `PoolLifecycle.SavesKeepOutOfRuns` | internal/domain/automation/service.go:229-255 | a save that looks while a run may write does nothing |
| `PoolLifecycle.SavesStartOver` | internal/domain/automation/service.go:229-255 | one that got past leaves a record and no results |
| `PoolLifecycle.DeletionIsFinal` | internal/domain/automation/service.go:703-760 | what is deleted stays deleted if and only if, just then, no run was going and no start or save had read the record |
| `PoolLifecycle.RecordComesBack` | internal/domain/automation/service.go:703-810 | a record that is gone comes back if and only if a start, a save or a run has read it and has yet to write |
| `PoolLifecycle.StartOverlapsDeletion` | internal/domain/automation/service.go:703-760 | a deletion that found no run can have its job back |
| `PoolLifecycle.SaveOverlapsDeletion` | internal/domain/automation/service.go:229-255 | so can one that a save overlaps, with no run or start about |
| `Intercept.EveryInterleaving` | internal/domain/intercept/service.go:95-167 | what every step of the hold and its answerers keeps |
| `Intercept.OneAnswerIsHeard` | internal/domain/intercept/service.go:341-457 | at most one answerer succeeds, and the hold goes on with its value: the item unless it was edited, a refusal for a drop |
| `Intercept.WhatWasEditedGoesOn` | internal/domain/intercept/service.go:350-372 | over the steps taken: when an edited forward succeeds, the hold goes on with the very message its edit made, and it made no other |
| `Intercept.HeardWhenAlone` | internal/domain/intercept/service.go:341-457 | whoever asks while the hold waits and goes on alone is heard with what it has to say, a forward needing the claim |
| `Intercept.AnsweredBySomeone` | internal/domain/intercept/service.go:148-166 | an answered hold has its sender, and how a hold ended does not change |
| `Intercept.FailedEditGivesBack` | internal/domain/intercept/service.go:341-360 | two forwards never edit the item at once, and a failed edit leaves it to be claimed again |
| `Intercept.SecondForwardIsTurnedAway` | internal/domain/intercept/service.go:346-348 | while one forward has the item another that finds it is told it is not there |
| `Intercept.NoOneIsBlocked` | internal/domain/intercept/service.go:366-457 | an answerer can go on, or the hold has ended and can say so at once; once it has said so everyone can |
| `Intercept.GivingUpTurnsAllAway` | internal/domain/intercept/service.go:148-166 | a client may give up whenever its exchange waits; then whoever was about to answer is told it is gone, and whoever asks once it is off the list finds nothing |
| `Intercept.EveryStepCounts` | internal/domain/intercept/service.go:341-457 | an answerer's steps bring it to its end, and no one else's take it back |
| `Intercept.ReleaseFreesWhatItFinds` | internal/domain/intercept/service.go:433-457 | a release that found the exchange does not finish before its hold has ended |
| `Intercept.ReleasesComeWhenOff` | internal/domain/intercept/service.go:69-86 | no exchange is released while intercepting is on |
| `Intercept.ReleaseCanMiss` | internal/domain/intercept/service.go:69-86 | a release asked for can finish with the exchange still held if and only if its hold is yet to be listed |
| `Intercept.ReleaseMissesALateHold` | internal/domain/intercept/service.go:69-86 | one that looked just before finds nothing, and the exchange waits on with intercepting off |
| `Intercept.ReleaseOvertakesAnEdit` | internal/domain/intercept/service.go:341-360 | a release may hand the item on while a forward is still reading it |
| `Intercept.EditCanBeOvertaken` | internal/domain/intercept/service.go:341-360 | an edit under way can find its exchange answered by another if and only if the client has not given up |
| `ProtoWire.Uvarint` | internal/core/grpcmsg/grpcmsg.go:304-307 | the number at the head of the bytes, or cut, or over 64 bits, by the ten-byte rule |
| `ProtoWire.VarintReadsBack` | internal/core/grpcmsg/grpcmsg.go:304-307 | a written number reads back, and nothing past it is taken |
| `ProtoWire.EncodeVarintIsShortest` | internal/core/grpcmsg/grpcmsg.go:304-307 | of the spellings that are read, the written one is a shortest |
| `ProtoWire.Decode` | internal/core/grpcmsg/grpcmsg.go:299-372 | the fields up to the end or the first fault, with what their bytes were guessed to be |
| `ProtoWire.WireTypesAre` | internal/core/grpcmsg/grpcmsg.go:322-369 | what follows a tag goes by its low three bits: a number, eight or four bytes, bytes with a length; any other is a fault |
| `ProtoWire.TagsAre` | internal/core/grpcmsg/grpcmsg.go:303-320 | a tag of one byte is the field's number and those bits, and number 0 is a fault |
| `ProtoWire.DecodeUndoesEncode` | internal/core/grpcmsg/grpcmsg.go:299-372 | for every list of legal fields: the same numbers, wire types and values come back, in order, with no fault |
| `ProtoWire.FieldsTile` | internal/core/grpcmsg/grpcmsg.go:299-372 | the fields were read from stretches that follow one another from the first byte, each of which reads as that field alone; bytes are left over if and only if there is a fault |
| `ProtoWire.RawsAreLegal` | internal/core/grpcmsg/grpcmsg.go:314-320 | every field read has a number from 1 to 2^29-1 and a value that fits its wire type |
| `ProtoWire.NestingIsBounded` | internal/core/grpcmsg/grpcmsg.go:346-350 | guesses never go deeper than 8 |
| `ProtoWire.DepthOnlyGuesses` | internal/core/grpcmsg/grpcmsg.go:299-372 | the depth changes guesses only, never the fields or a fault |
| `ProtoWire.NestedIsAMessage` | internal/core/grpcmsg/grpcmsg.go:346-350 | nested fields are shown if and only if the bytes alone read to their end as a message, below the limit, and they are that message's |
| `GrpcFrames.ShownExactly` | internal/core/grpcmsg/grpcmsg.go:182-218 | a frame has nothing against it if and only if its compression was undone and, unless a trailer, it reads as fields to its end, which are then the ones shown |
| `GrpcFrames.WhatIsSaidAgainst` | internal/core/grpcmsg/grpcmsg.go:192-206 | each thing said against a compressed frame has its one cause, its encoding |
| `GrpcFrames.CompressedIsShown` | internal/core/grpcmsg/grpcmsg.go:192-218 | a message sent compressed is shown with the fields it was made of |
| `GrpcFrames.TrailersAreOfTheWeb` | internal/core/grpcmsg/grpcmsg.go:182-214 | the trailer flag makes one exactly outside gRPC itself, where it changes nothing |
| `GrpcFrames.Split` | internal/core/grpcmsg/grpcmsg.go:161-225 | the frames of a body, decoded from text first where it is text, and the framing error with those before it |
| `GrpcFrames.PrefixesAre` | internal/core/grpcmsg/grpcmsg.go:172-190 | a frame's prefix is a byte of flags and four of length, most significant first; a length past the end is an overrun |
| `GrpcFrames.SplitUndoesWrite` | internal/core/grpcmsg/grpcmsg.go:172-225 | the first 200 frames written come back, flags and bytes, without an error |
| `GrpcFrames.WriteUndoesSplit` | internal/core/grpcmsg/grpcmsg.go:172-225 | frames read and written again are the body from its first byte; what is left is nothing, past the limit, or the bad framing reported |
| `GrpcFrames.PlainFramesShowTheirFields` | internal/core/grpcmsg/grpcmsg.go:161-225 | messages encoded, framed and sent, as text too, are shown with the fields they were made of |
| `Base64Chunks.FindChunkEnd` | internal/core/grpcmsg/grpcmsg.go:235-243 | the first run of padding is found, to its end |
| `Base64Chunks.DecodeChunks` | internal/core/grpcmsg/grpcmsg.go:229-254 | the chunks between runs of padding, decoded one by one and joined, or none if one cannot be |
| `Base64Chunks.QuantumByBits` | internal/core/grpcmsg/grpcmsg.go:247-252 | section 4 of RFC 4648 bit by bit: six bits a letter, most significant first, eight a byte, and the bits past the last byte of a padded quantum say nothing |
| `Base64Chunks.AlphabetIs` | internal/core/grpcmsg/grpcmsg.go:247-252 | the letters are that section's, in its order, and nothing else is one |
| `Base64Chunks.LineEndsAreNothing` | internal/core/grpcmsg/grpcmsg.go:247-252 | a line end inside a piece makes no difference |
| `Base64Chunks.SpacesAroundAreNothing` | internal/core/grpcmsg/grpcmsg.go:229-232 | nor does white space around the body |
| `Base64Chunks.BackToBack` | internal/core/grpcmsg/grpcmsg.go:227-254 | for every list of byte strings encoded back to back, padded or not: it decodes to their concatenation if and only if each is padded or a multiple of three long |
| `Base64Chunks.UnpaddedRunsOn` | internal/core/grpcmsg/grpcmsg.go:227-254 | two unpadded single bytes decode as three, and one of them not at all |
| `Base64Chunks.ChunksWeigh` | internal/core/grpcmsg/grpcmsg.go:229-254 | a text that decodes holds exactly what its letters and padding weigh |

## Left out

- Network, TLS, certificate signing, dialling, CONNECT, the console's server and pages: input and output around these cores.
- Positions and wording of query errors, and the compiling of regular expressions: an error is its kind. A nil query is not modelled.
- FilterSubject.PartsAreRead: what a part of an exchange reads as is a function of the key, not spelled out; which part each key reads, and what it answers when that part is missing, is.
- Unicode: lower-casing, folding and printability are parameters, a character is one code unit. White space trimmed around a base64 body is the ASCII kind.
- WsPump.Relay.Pump: one direction at a time; of the other only that it takes numbers and may hear the close first. Messages carry no time; the buffered writer is one that flushes when full, and the plain copy after a refusal is one write.
- LeafCache.Authority.Commit: port stripping, signing and the order of eviction within one call's lock are as the source has them, but minting is an arbitrary leaf for the host with an arbitrary expiry.
- LogScan.Each: transactions are a list of snapshots, the last one standing; putting bodies back outside the read transaction is not modelled.
- LogStore.Store.Put: a crash is one of the process. A body file is not synced before the record commits, so a power cut is out. Overlapping operations are out, as are records that do not decode, an expired context, and writing an entry that still carries references. Entries captured inside an Update callback share what is offloaded afterwards; nothing is claimed of them.
- LogStore.Store.Update: a change keeps the entry under its own id and project, and leaves its bodies whole.
- LogStore.Store.DeleteBodies: a file the disk will not remove is not modelled; the source passes over it too.
- LogStore.Store.SweepBodies: without a sweep orphans may remain of a write that failed or a deletion cut short; only dangling references are excluded. Project export and import write records past the store.
- LogStore.Store.Clear: a put that overlaps it can lose its body, since the files go after the commit.
- PoolRun.EveryInterleaving: reading and writing a record are single steps, and so are saving over and deleting a job; what a request sends and receives is only whether it failed and whether it tripped a condition.
- PoolRun.EveryStepCounts: a request that never returns is bounded by a timeout in the source; here a step simply comes.
- PoolLifecycle.EveryInterleaving: records that a project import writes are not modelled. A run is only whether it may write; PoolRun says what it writes. Clear is a deletion per running job and one transaction, and is not modelled apart.
- PoolRun.MatchesStop: the conditions come evaluated; comparing a status, header or body is not modelled.
- WsRecorder.Recorder.Drain: the store's write is one step that succeeds or fails, and the entry's other figures are not modelled.
- Intercept.EveryInterleaving: one hold; a release of many goes through them one after the other. What an edit makes of a message is an arbitrary value, and that value goes on. Requests and responses follow one protocol, in which editing a response never fails.
- LogTop.Top: the matcher's answers are given per entry, and a summary is the entry.
- ProtoWire.Decode: values are kept as numbers and bytes; how they are rendered as text is left out, and so is decoding with a schema.
- GrpcFrames.Split: gunzip is a parameter, and the lines of a trailer frame are not read.
- Small helpers that would only add easy members: header lists, tags, versions, host globs, template filling, form and cookie access, payload expansion, statuses, message listing.
