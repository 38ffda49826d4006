# A verified model of the OB search engine and its libraries

The server answers fuzzy keyword queries. It builds its dictionary with the cppjieba segmenter, finds
candidate words with an inverted index and an edit distance, caches answers per worker thread, and
hands work between threads through queues and an event counter. This project models those parts, and
the algorithms of the bundled limonp and Google Test code next to them, and proves what they promise.

`dafny verify dfyconfig.toml` checks everything. There is about one module per source file:

| file | what it models |
|---|---|
| Unicode.dfy | cppjieba's UTF-8 decoder, rune offsets, slicing words out of a sentence |
| StringUtil.dfy | limonp's UTF-8 decoder and encoder, the round trip, the agreement of the two decoders |
| Trie.dfy | the dictionary trie on the heap: insertion, exact lookup, the word graph of a text |
| MPSegment.dfy | the maximum-weight path over the word graph |
| HMMSegment.dfy | the Viterbi decoder and the tokens of ASCII text |
| PreFilter.dfy, MixSegment.dfy, QuerySegment.dfy, KeywordExtractor.dfy | the segmentation pipeline around the two |
| EditDistance.dfy, SearchModule.dfy, ReferenceCreator.dfy | edit distance, fuzzy search, the index and its text file |
| Cache.dfy | the recency list with its map, and the merge of replicas |
| TaskQue.dfy, TaskQueSignals.dfy, EventLoop.dfy | the server's task queue, what its edge signals lose, and the reactor's hand-off |
| BoundedQueue.dfy, BoundedBlockingQueue.dfy, ThreadPool.dfy, ThreadPoolLiveness.dfy, ThreadPoolQueue.dfy | limonp's ring buffer, blocking queue and thread pool |
| Md5.dfy | the streaming digest of RFC 1321 |
| SimpleRegex.dfy | Google Test's own regular expressions |
| Options.dfy, Facts.dfy | the optional value and two facts used throughout |

How to read it:

- Code that updates state is modelled by methods and classes with the same loops and fields, each
  proved against a specification function or predicate; the lemmas are about the specification.
- Weights are exact reals. Both segmenters start every maximum from the constant `MIN_DOUBLE` and improve
  on a strict gain only, so optimality is stated for the floored score, the greater of the floor and
  step plus rest, for every model and input; the two lemmas `PlainOptimum` say when that is the plain sum, and
  `TotalMeaning` and `PlainScoreMeaning` what the plain sum is.
- Bytes are integers below 256, and shifts and masks on them are written as divisions and remainders.
  Word-sized integers wrap explicitly where the result depends on it: in the digest, in the offsets of
  runes, and in the integers of the index file.
- Threads are state machines whose steps are critical sections. A run is any sequence of enabled steps,
  with any number of threads; a signal wakes a waiter if there is one, and spurious wake-ups are steps of
  their own. The classes `TaskQue`, `EventLoop` and `ThreadPoolQueue.ThreadPool` give the sections as methods
  on the real fields, the last one on the ring buffer. Each method is proved to do, from every reachable state,
  what the matching step of its machine does.
- The order in which a hash map is walked, and the search that a cache fronts, are parameters.

Where the code differs from what it or its documentation says, the model follows the code:

- The encoder keeps only two of the three payload bits of a four-byte sequence, so the round trip holds
  exactly for code points below 0x100000 (`StringUtil.RoundTrip`).
- Separators are not dropped by the sentence splitter; they come out as ranges of their own
  (`PreFilter.Next`), which is why words spell the whole sentence.
- The index finds every word within the cut-off exactly when no short word without a common byte is
  that near (`SearchModule.LosslessIff`).
- The index file round trips exactly for clean indexes (`ReferenceCreator.RoundTrip`).
- `Cache::InsertCache` keeps list and map together exactly when the key is new, so one turn of a worker does
  exactly when the cache knew the query or lacks the key the search returns for it (`Cache.Cache.Serve`). A
  mixed-case query comes back lower-cased and breaks this when asked twice (`Cache.AskMixedCase`). A merge clears
  update mode for the calling cache only; `Cache.AskTwice` shows what the replicas left in it then do.
- The task queue signals on edges only. All threads never sleep while there is work or room
  (`TaskQue.NeverAllAsleep`), but one that already waits can be passed over: with capacity at least 2 and two
  producers a push can wait on an empty queue (`TaskQueSignals.StrandedPush`), and with two consumers one of them
  can sleep although the queue is not empty (`TaskQueSignals.StrandedElement`). `PushesServedIff` and
  `PopsServedIff` say exactly when this cannot happen. limonp's queue signals every time and does not have this
  defect.
- `RE::FullMatch` is documented to match entire strings. A pattern that ends in an escaped dollar sign gets
  no closing anchor, so it accepts trailing characters; `SimpleRegex.WhenFullMatchIsEntire` says exactly for
  which patterns the documentation holds.

## Model

| member | source | states |
|---|---|---|
| MPSegment.CalcDP | include/cppjieba/MPSegment.hpp:80-108 | the reverse pass keeps the graph and leaves in every column the best edge value above the floor, with the word of the first edge that attains it |
| MPSegment.SolveColumn | include/cppjieba/MPSegment.hpp:86-106 | one column: only that entry changes, and it becomes the floored maximum over its edges, improved only on a strict gain |
| MPSegment.CutByDag | include/cppjieba/MPSegment.hpp:109-127 | the appended ranges step through the whole graph, each as long as the word chosen for the column where it starts, or one rune |
| MPSegment.ChosenStep | include/cppjieba/MPSegment.hpp:115-125 | the chosen step is a legal piece inside the text, also when nothing beat the floor, and its value is the weight of the column |
| MPSegment.WalkAttains | include/cppjieba/MPSegment.hpp:80-127 | the segmentation read off the graph has exactly the floored score stored in column 0 |
| MPSegment.NoneBetter | include/cppjieba/MPSegment.hpp:80-127 | no segmentation into dictionary words and single runes scores more than the column it starts at |
| MPSegment.WalkIsOptimal | include/cppjieba/MPSegment.hpp:80-127 | the walk is a best segmentation and its score is the weight of column 0 |
| MPSegment.WalkIsFirst | include/cppjieba/MPSegment.hpp:102-105 | edges are tried by increasing length and improve on a strict gain only, so among equally good segmentations above the floor the walk is the one with the shorter piece where they first differ |
| MPSegment.CutGraph | include/cppjieba/MPSegment.hpp:64-65 | the pass and the walk together append a best segmentation, and every best one scores the weight of column 0 |
| MPSegment.CutRange | include/cppjieba/MPSegment.hpp:55-66 | for every dictionary and rune range: the appended ranges are a segmentation of maximal floored score, and of several such above the floor the one with the shorter piece where they first differ |
| MPSegment.FloorUnreached | include/cppjieba/MPSegment.hpp:87-105 | when the weights are bounded so that no sum reaches the floor, the floored score is the plain sum |
| MPSegment.PlainOptimum | include/cppjieba/MPSegment.hpp:87-105 | under that bound the result has the greatest plain sum of weights |
| MPSegment.TotalMeaning | include/cppjieba/MPSegment.hpp:89-101 | the plain sum is the dictionary weights of the pieces that are stored plus the least weight times the number of pieces that are not |
| MPSegment.PlainOptimumInPractice | include/cppjieba/MPSegment.hpp:87-105 | with fewer than 2^32 runes and no weight below -10^90 the result has the greatest such sum of all segmentations |
| MPSegment.FloorValue | include/cppjieba/DictTrie.hpp:22 | the floor is -3.14 times ten to the hundredth |
| HMMSegment.Viterbi | include/cppjieba/HMMSegment.hpp:130-182 | for every model and non-empty range: the states attain the greatest floored score of all state sequences that end in E or S, and of several such above the floor they are the smallest from the last rune backwards |
| HMMSegment.FillCell | include/cppjieba/HMMSegment.hpp:153-164 | one table cell becomes the floored best over all predecessors, with a back-pointer to the first that attains it, or the default E when none beats the floor; other finished cells stay |
| HMMSegment.TryPredecessor | include/cppjieba/HMMSegment.hpp:158-163 | one predecessor is taken over exactly on a strict gain, and only this cell changes |
| HMMSegment.ReadBack | include/cppjieba/HMMSegment.hpp:168-181 | choosing the better final state and following the back-pointers yields an optimal sequence |
| HMMSegment.FollowBack | include/cppjieba/HMMSegment.hpp:177-181 | every state of the sequence is the back-pointer of the next one, the last is the state given |
| HMMSegment.PathWithinTable | include/cppjieba/HMMSegment.hpp:151-166 | no state sequence scores more than the cell it ends in |
| HMMSegment.WalkAttains | include/cppjieba/HMMSegment.hpp:177-181 | the sequence read back scores exactly the cell it ends in, default back-pointers included |
| HMMSegment.WalkIsOptimal | include/cppjieba/HMMSegment.hpp:168-181 | hence it is optimal among the sequences that end a word |
| HMMSegment.TiesAreBroken | include/cppjieba/HMMSegment.hpp:157-175 | predecessors and final states are tried in order and replaced on a strict gain only, so among equally good sequences above the floor the one read back has the smaller state where they differ last |
| HMMSegment.PlainIff | include/cppjieba/HMMSegment.hpp:154-163 | the floored score of a sequence is its plain sum if and only if no running sum after the first falls below the floor |
| HMMSegment.PlainOptimum | include/cppjieba/HMMSegment.hpp:154-163 | an optimal sequence that stays above the floor has the greatest plain sum of all sequences that end a word |
| HMMSegment.PlainScoreMeaning | include/cppjieba/HMMSegment.hpp:143-162 | the plain sum of a sequence is the start weight of its first state, the transition weight from each state to the next, and for every rune the emission weight of its state, or -3.14e+100 where the table has none |
| HMMSegment.BoundedAbove | include/cppjieba/HMMSegment.hpp:154-163 | every sequence stays above it when the weights the text can meet are bounded so that no sum reaches the floor |
| HMMSegment.AboveInPractice | include/cppjieba/HMMSegment.hpp:154-163 | with fewer than 2^31 runes and no weight below -10^90 the score of every sequence is exactly that sum |
| HMMSegment.InternalCut | include/cppjieba/HMMSegment.hpp:114-128 | the appended words tile the range and end exactly at the states E and S of an optimal sequence |
| HMMSegment.SequentialLetterRule | include/cppjieba/HMMSegment.hpp:79-95 | the longest run of letters and digits if the first rune is a letter, else nothing |
| HMMSegment.NumbersRule | include/cppjieba/HMMSegment.hpp:97-113 | the longest run of digits and dots if the first rune is a digit, else nothing |
| HMMSegment.ClassesByCode | include/cppjieba/HMMSegment.hpp:81-107 | letters, digits, numbers and ASCII by character code |
| HMMSegment.TokenEnd | include/cppjieba/HMMSegment.hpp:55-65 | the one-pass block picks the letter token, else the number token, else one rune |
| HMMSegment.Cut | include/cppjieba/HMMSegment.hpp:46-76 | the range is cut into ASCII tokens and the optimal words of every longest run of other runes |
| HMMSegment.PiecesTile | include/cppjieba/HMMSegment.hpp:46-76 | those words cover the range exactly once, in order |
| HMMSegment.PiecesDoNotMix | include/cppjieba/HMMSegment.hpp:50-71 | no word mixes ASCII with other runes |
| MixSegment.CutRange | include/cppjieba/MixSegment.hpp:46-86 | without the model the best dictionary segmentation; with it, every longest run of left-over single runes is re-cut by the model and every other word kept in place |
| MixSegment.WordCutIsBest | include/cppjieba/Trie.hpp:13 | the dictionary words of a range score at least as much as any way to cut it into single runes and stored words of up to 512 runes |
| MixSegment.Merge | include/cppjieba/MixSegment.hpp:58-85 | the merging loop turns all dictionary words into such parts |
| MixSegment.MergeOne | include/cppjieba/MixSegment.hpp:59-84 | one turn: a multi-rune or user word stays, a left-over starts a run that is re-cut whole |
| MixSegment.LeftOverEnd | include/cppjieba/MixSegment.hpp:66-69 | where the longest run of left-over single runes stops |
| MixSegment.HmmWords | include/cppjieba/MixSegment.hpp:74 | the words of the model for exactly the runes of the run |
| MixSegment.MixTiles | include/cppjieba/MixSegment.hpp:58-85 | the parts tile what the dictionary words tile |
| MixSegment.WordsSurvive | include/cppjieba/MixSegment.hpp:60-63 | every word that is not a left-over single rune is in the result unchanged |
| MixSegment.RunsAreReCut | include/cppjieba/MixSegment.hpp:66-81 | every longest run of left-over single runes appears in the result as the words the model gives for exactly its runes |
| MixSegment.PartsTile | include/cppjieba/MixSegment.hpp:46-86 | whatever the model and the flag, the parts of a range tile the range |
| MixSegment.Cut | include/cppjieba/MixSegment.hpp:32-44 | if the sentence decodes, the words are the slices of its bytes at the results of the range cut on every range between separators, in order, and they concatenate to the sentence; each stands at its byte offset, with as many runes in it and before it as it says; otherwise there are no words |
| MixSegment.CutRanges | include/cppjieba/MixSegment.hpp:33-40 | the loop appends for each range of the splitter exactly what the range cut gives |
| MixSegment.SentenceTiles | include/cppjieba/MixSegment.hpp:37-40 | the ranges of all words together tile the runes of the sentence |
| MixSegment.WordsOfSentenceSurvive | include/cppjieba/MixSegment.hpp:60-63 | in the words of a sentence every word of a best dictionary segmentation of its ranges appears with its bytes and place, unless the model is on and it is a single rune the user did not name |
| KeywordExtractor.WordsLegal | include/cppjieba/KeywordExtractor.hpp:58-76 | the size check passes if and only if the sentence decodes, whatever the dictionary and model |
| PreFilter.PreFilter.constructor | include/cppjieba/PreFilter.hpp:17-24 | the runes of the sentence with offsets that tile its bytes, or none if it does not decode |
| PreFilter.PreFilter.Next | include/cppjieba/PreFilter.hpp:30-45 | the next range is non-empty, starts where the last ended, and is one separator or a longest run without separators |
| QuerySegment.CutRange | include/cppjieba/QuerySegment.hpp:48-73 | of what is appended, the words not inside a later one are a default segmentation of the range, and all of it is one block for each of these words: stored pairs of runes inside it if it is longer than two, stored triples if it is longer than three, each once and from left to right, then the word |
| QuerySegment.EmitSubWords | include/cppjieba/QuerySegment.hpp:54-72 | the outer loop appends the expansion of all words in order |
| QuerySegment.EmitWord | include/cppjieba/QuerySegment.hpp:55-71 | appends one such block: bigrams, then trigrams, then the word itself, once |
| QuerySegment.EmitGrams | include/cppjieba/QuerySegment.hpp:55-70 | either inner loop: the dictionary n-grams of the word, if it is longer than n |
| QuerySegment.GramsMeaning | include/cppjieba/QuerySegment.hpp:56-61 | an n-gram is emitted if and only if it lies inside the word, has n runes and is stored in the dictionary |
| QuerySegment.SubWordsMeaning | include/cppjieba/QuerySegment.hpp:55-71 | what stands in front of a word are exactly the stored ranges of two and of three runes inside it, under the length guards, without repetition and each kind in order |
| QuerySegment.ExpandIsBlocks | include/cppjieba/QuerySegment.hpp:54-72 | all words together are these blocks, one for each word of the default segmentation in order |
| QuerySegment.ExpandKeepsWords | include/cppjieba/QuerySegment.hpp:54-72 | the words not inside a later one are exactly the default segmentation, in order |
| WordTrie.Trie.Empty | include/cppjieba/Trie.hpp:53-54 | a trie of one node stands for the empty dictionary |
| WordTrie.Trie.InsertNode | include/cppjieba/Trie.hpp:120-143 | the dictionary gains the key, last write wins, an empty key is ignored; the tree stays closed under prefixes |
| WordTrie.Trie.LinkNode | include/cppjieba/Trie.hpp:133-136 | a new node is linked at exactly the extended path and changes no entry |
| WordTrie.Trie.CreateTrie | include/cppjieba/Trie.hpp:146-155 | all insertions in order, none if either list is empty |
| WordTrie.InsertAllMeaning | include/cppjieba/Trie.hpp:146-155 | a word is found if and only if it is a non-empty key, and then with the value of its last occurrence |
| WordTrie.CreateDictTrie | include/cppjieba/DictTrie.hpp:173-183 | the dictionary trie maps every word to an entry that names that word |
| WordTrie.Trie.Find | include/cppjieba/Trie.hpp:61-79 | exact lookup in the dictionary the trie stands for |
| WordTrie.Trie.FindDag | include/cppjieba/Trie.hpp:81-118 | the word graph equals naive lookup of all substrings, start by start |
| WordTrie.Trie.FindColumn | include/cppjieba/Trie.hpp:93-116 | one start: the single-rune entry, then all stored words within the length limit in increasing end position, in spite of the early exits |
| WordTrie.Trie.DeadEnd | include/cppjieba/Trie.hpp:105-111 | where the walk stops no longer stored word begins here |
| WordTrie.NaiveNextsMeaning | include/cppjieba/Trie.hpp:93-116 | which edges leave a position, in terms of the dictionary alone |
| WordTrie.NaiveNextsAscend | include/cppjieba/Trie.hpp:93-116 | the edges of a column end further and further right, so each word is there once |
| Unicode.DecodeRuneInString | include/cppjieba/Unicode.hpp:87-140 | the first rune and its length, or length 0 |
| Unicode.LengthByFirstByte | include/cppjieba/Unicode.hpp:92-134 | the first byte alone decides how many bytes a rune takes: one below 0x80, two below 0xe0, three below 0xf0, four below 0xf8; there is no rune if they are not all there |
| Unicode.DecodeRunesInString | include/cppjieba/Unicode.hpp:142-157 | all runes with offsets that tile the input exactly, or nothing if the bytes do not decode |
| Unicode.IsSingleWord | include/cppjieba/Unicode.hpp:176-179 | true exactly for the empty string and strings that decode to one rune |
| Unicode.GetWordsFromWordRanges | include/cppjieba/Unicode.hpp:206-210 | one word per range, with its bytes, byte offset and rune offsets |
| Unicode.WordsSpell | include/cppjieba/Unicode.hpp:193-210 | words of ranges that tile some runes concatenate to the bytes of those runes |
| Unicode.WordIsPlaced | include/cppjieba/Unicode.hpp:193-198 | a word is the bytes of the sentence at its offset; they decode to as many runes as it says, and so do the bytes before them |
| StringUtil.Utf8ToUnicode32 | deps/limonp/StringUtil.hpp:198-250 | accepts and decodes exactly like the other decoder |
| StringUtil.Unicode32ToUtf8 | deps/limonp/StringUtil.hpp:253-275 | the concatenated encodings of the code points |
| StringUtil.EncodedMarks | deps/limonp/StringUtil.hpp:258-272 | the first byte of an encoding tells its length, and all others lie between 0x80 and 0xbf |
| StringUtil.ShortestForm | deps/limonp/StringUtil.hpp:258-272 | no byte string of fewer bytes is read as the same code point |
| StringUtil.DecodersAgree | include/cppjieba/Unicode.hpp:142-157 | both decoders accept the same byte strings and read the same runes |
| StringUtil.FirstRuneOfEncoding | deps/limonp/StringUtil.hpp:253-275 | decoding in front of any bytes an encoded code point gives it back with its top bits masked |
| StringUtil.DecodeOfEncode | deps/limonp/StringUtil.hpp:253-275 | every encoded sequence decodes, to the masked code points |
| StringUtil.RoundTrip | deps/limonp/StringUtil.hpp:268 | decoding gives the sequence back if and only if all code points are below 0x100000, because the encoder masks with 0x03 |
| EditDistance.MinEdit | src/search_module.cc:180-212 | the table computes the recursively defined distance |
| EditDistance.FillCell | src/search_module.cc:199-201 | one more cell holds the distance of its two prefixes; borders and finished cells stay |
| EditDistance.NoShorterScript | src/search_module.cc:180-212 | every script of insertions, deletions and substitutions that turns a into b has at least that many steps |
| EditDistance.ShortestScript | src/search_module.cc:180-212 | and there is a script of exactly that many steps |
| EditDistance.DistIsShortest | src/search_module.cc:180-212 | the distance is the length of a shortest edit script |
| EditDistance.ZeroIffEqual | src/search_module.cc:180-212 | zero exactly between equal words |
| EditDistance.Symmetric | src/search_module.cc:180-212 | symmetric |
| EditDistance.Triangle | src/search_module.cc:180-212 | triangle inequality |
| EditDistance.Bounds | src/search_module.cc:180-212 | between the difference of the lengths and the longer length |
| EditDistance.DisjointIsLonger | src/search_module.cc:180-212 | the longer length when no byte is shared |
| SearchModule.ResultOrder | src/search_module.cc:39-49 | the comparison is a strict total order; the next rows say which one |
| SearchModule.AfterMeaning | src/search_module.cc:39-49 | a result does not come after another exactly when it is nearer, or as near and more frequent, or as both and its word is the same or smaller at the first differing byte, or a proper prefix |
| SearchModule.OrderedMeaning | src/search_module.cc:39-49 | in an ordered list distances never fall, counts never rise at one distance, and words ascend at one distance and count |
| SearchModule.ResultQueue.Push | src/search_module.cc:133 | the queue gains the result and stays in order |
| SearchModule.ResultQueue.Pop | src/search_module.cc:138-139 | the result popped comes after none of the others in the order of the comparison, and the rest stays in order |
| SearchModule.OrderedIsUnique | src/search_module.cc:39-49 | a bag of results can be put in order in one way only |
| SearchModule.SearchModule.Lookup | src/search_module.cc:116-124 | the candidates are exactly the words that share a byte with the query |
| SearchModule.SearchModule.FillQueue | src/search_module.cc:125-134 | the queue holds exactly the results of candidates at distance at most 3 |
| SearchModule.SearchModule.PopBest | src/search_module.cc:135-140 | the first k of the queue, fewer if it is shorter |
| SearchModule.SearchModule.HandleENG | src/search_module.cc:110-142 | the answer is the words at dictionary positions that share a byte with the query and are at most three edits away, each position once and in order, as many as the list size; one is left out only if the list is full and none answered comes after it |
| SearchModule.FirstAreBest | src/search_module.cc:125-140 | the first k of the matches in order are such an answer |
| SearchModule.AnswersAreNear | src/search_module.cc:130 | no more answers than asked for, each at most three edits away |
| SearchModule.NearestFirst | src/search_module.cc:39-49 | from front to back the distances of the answers never fall |
| SearchModule.NoNearerLeftOut | src/search_module.cc:135-140 | a matching word that is left out is no nearer than any answer, and there are k of them |
| SearchModule.SearchModule.SearchWord | src/search_module.cc:65-75 | lower-cases the query, letter by letter, and answers in that way; for queries longer than three bytes all positions of the dictionary are candidates |
| SearchModule.LowerFixed | src/search_module.cc:67-70 | the returned key is the query itself if and only if it has no upper-case letter; lower-casing is idempotent |
| SearchModule.LowerMeaning | src/search_module.cc:68-70 | each capital becomes its small letter and every other byte stays |
| SearchModule.LostAreShort | src/search_module.cc:117-130 | a word within the cut-off is missed by the index if and only if it shares no byte with the query and both have at most three bytes |
| SearchModule.LosslessIff | src/search_module.cc:117-134 | the index loses no result if and only if no such word is in the dictionary |
| SearchModule.LongQueriesLoseNothing | src/search_module.cc:117-134 | queries longer than three bytes lose nothing |
| SearchModule.BestWordsUnique | src/search_module.cc:135-140 | the answer is determined by the results, not by how the queue stores them |
| ReferenceCreator.RefFileCreator.SetRef | src/reference_creator.cc:48-66 | the index holds, for every one-byte key, exactly the dictionary positions of words with that byte |
| ReferenceCreator.RefFileCreator.WriteRef | src/reference_creator.cc:72-86 | writes one line per key with its positions, whatever the iteration order |
| ReferenceCreator.RefFileCreator.WritePositions | src/reference_creator.cc:80-82 | each position behind a space, in decimal |
| ReferenceCreator.DecimalMeaning | src/reference_creator.cc:81 | the digits of a position are worth it to the base ten and have no leading zero |
| ReferenceCreator.PrintedLine | src/reference_creator.cc:79-83 | in ASCII, the key `a` with positions 0, 12 and -3 is the line `a 0 12 -3` |
| ReferenceCreator.RefFileCreator.ReadRef | src/reference_creator.cc:88-101 | reads line by line: the first word is the key, then integers until one fails to parse |
| ReferenceCreator.ReadPrinted | src/reference_creator.cc:81-95 | a printed integer of 32 bits reads back as itself |
| ReferenceCreator.ReadPrintedLine | src/reference_creator.cc:79-97 | a written line reads back as its key and positions |
| ReferenceCreator.RoundTrip | src/reference_creator.cc:72-101 | reading the written file rebuilds the index if and only if the keys are non-empty and free of white space and the position sets non-empty and within 32 bits |
| ReferenceCreator.ReadFileClean | src/reference_creator.cc:88-101 | every index that was read from a file has that form |
| ReferenceCreator.IndexIsClean | src/reference_creator.cc:48-66 | and so does every index built from a dictionary without NUL or white space of fewer than 2^31 words |
| Cache.Cache.LRU | src/cache.cc:75-90 | insertion puts the pair in front and drops the last if too long; a hit moves the pair to the front; the map keeps indexing the list, on insertion if and only if the key was absent |
| Cache.Cache.PushNew | src/cache.cc:77-84 | the insertion branch |
| Cache.Cache.MoveToFront | src/cache.cc:86-88 | the hit branch: same pairs, the key first, the others in order |
| Cache.Cache.SearchCache | src/cache.cc:51-73 | outside update mode a hit returns the pair and makes it most recent, a miss changes nothing; in update mode only the snapshot answers |
| Cache.Cache.InsertCache | src/cache.cc:153-156 | inserts and, unless this is cache 0, records the pair for the next merge |
| Cache.Cache.Serve | include/worker.hpp:22-32 | search, then insert on a miss, for any query and any search: list and map stay in step if and only if the cache knew the query or lacks the key the search returns; the keys afterwards; in either mode a cache with right answers answers what a search would |
| Cache.Cache.DoWork | include/worker.hpp:17-35 | from what any history of queries left in the cache, after any run of queries the list holds exactly the most recently used distinct keys up to the capacity, in recency order and each with its right answer, and every answer given is what a search would give |
| Cache.RecencyMeaning | src/cache.cc:75-90 | recency order lists every key of the history once, ordered by last use |
| Cache.NextIsRecency | src/cache.cc:51-90 | one request on a list cut off at the capacity gives the cut-off of the longer history |
| Cache.SmallerIsPrefix | src/cache.cc:80-84 | after the same queries the pairs of a smaller cache are a prefix of those of a larger one |
| Cache.Cache.WriteToFirstCache | src/cache.cc:133-142 | cache 0 gains the new pairs whose keys it lacks, in order: when all are new the list is the new pairs, latest first, and then the old ones, cut to size; when none is, it stays; the key found last is always in it |
| Cache.Cache.ReadFromFirstCache | src/cache.cc:144-151 | the list becomes a copy of cache 0's and the map indexes the copy |
| Cache.Cache.TakeSnapshot | src/cache.cc:108-114 | the snapshot is overwritten with the pairs of the list, see the next row |
| Cache.OverwriteMeaning | src/cache.cc:108-114 | after overwriting, every listed pair is in the snapshot and all other keys are as they were |
| Cache.RightAfterMerge | src/cache.cc:98-114 | when the main cache, the found lists and a snapshot hold right answers, so do the merged list and the refreshed snapshot |
| Cache.UpdateCache | src/cache.cc:92-115 | afterwards all lists agree with cache 0's, which is what cache 0 makes of everything the replicas found, in the way of the next rows; maps index their lists, snapshots are refreshed, found lists are empty, and only the caller has left update mode |
| Cache.MergeOfNew | src/cache.cc:133-142 | when the added keys are distinct and absent, the merged list is the first capacity elements of the added pairs, latest first, followed by the old ones |
| Cache.MergeOfKnown | src/cache.cc:133-142 | pairs whose keys are present change nothing, neither values nor order |
| Cache.LastIsKept | src/cache.cc:133-142 | unless the capacity is zero the key found last is in the merged list |
| Cache.FlattenMeaning | src/cache.cc:98-102 | what is merged are the lists of the replicas, one behind the other |
| Cache.MergeInventsNothing | src/cache.cc:133-142 | every pair after the merge was there before or was found by a replica |
| Cache.MergeKeepsKeys | src/cache.cc:133-142 | if all keys fit together, every one survives, once |
| Cache.AskTwice | src/cache.cc:92-115 | a replica left in update mode inserts an unknown key at every request: asked twice, its list and map no longer agree |
| Cache.AskMixedCase | src/search_module.cc:66-71 | outside update mode a query that comes back under another key is never a hit: asked twice, list and map no longer agree |
| TaskQue.TaskQue.PushSection | src/task_que.cc:17-24 | from every reachable state one pass of the guard either finds the queue full and is the blocking step, or stays within capacity and is the push step for whatever threads its signal wakes, signalled on the edge only |
| TaskQue.TaskQue.PopSection | src/task_que.cc:26-35 | from every reachable state one pass either finds the queue empty and is the blocking step, or returns the oldest element not yet popped and is the pop step |
| TaskQue.RunKeepsInvariant | src/task_que.cc:17-39 | every run keeps the bound, the order and an awake thread on each side that has something to do |
| TaskQue.BoundedFifo | src/task_que.cc:17-39 | in every reachable state the queue is within its capacity and pops are a prefix of pushes |
| TaskQue.NeverAllAsleep | src/task_que.cc:20-34 | no reachable state is non-empty with all consumers waiting or non-full with all producers waiting |
| TaskQue.NonEmptyCanPop | src/task_que.cc:26-35 | a queued element can always be popped next without a spurious wake-up, by a consumer about to pop or one that comes back from its work |
| TaskQue.NonFullCanPush | src/task_que.cc:17-24 | a free slot can always be filled next without a spurious wake-up, by a producer about to push or an idle one that begins to; a waiting one is promised nothing, see the next rows |
| TaskQueSignals.PushesServedIff | src/task_que.cc:17-35 | in every run a producer waits in spite of room only while another is about to push, if and only if the capacity is 1 or there is one producer |
| TaskQueSignals.PopsServedIff | src/task_que.cc:17-35 | in every run a consumer waits in spite of work only while another is about to pop, if and only if the capacity is 1 or there is one consumer |
| TaskQueSignals.StrandedPush | src/task_que.cc:23-33 | for every capacity from 2 on and two producers or more a run that ends with an empty queue, a producer waiting for room, all consumers waiting, and no step left but new pushes and spurious wake-ups |
| TaskQueSignals.StrandedElement | src/task_que.cc:23-33 | for every capacity from 2 on and two consumers or more a run that ends with an element queued, one consumer at work and all others waiting |
| TaskQueSignals.StepKeepsPushes | src/task_que.cc:17-35 | under the condition for producers every step keeps the property |
| TaskQueSignals.StepKeepsPops | src/task_que.cc:17-35 | under the condition for consumers every step keeps the property |
| TaskQueSignals.BegunPushGoesOn | src/task_que.cc:17-24 | then once a push has begun and there is room, some begun push can be carried out next |
| TaskQueSignals.BegunPopGoesOn | src/task_que.cc:26-35 | and once a pop has begun and there is an element, some begun pop can be carried out next |
| BoundedQueue.BoundedQueue.Push | deps/limonp/BoundedQueue.hpp:40-45 | the ring buffer's contents gain the element at the end |
| BoundedQueue.BoundedQueue.Pop | deps/limonp/BoundedQueue.hpp:47-53 | the first element leaves |
| BoundedQueue.BoundedQueue.Clear | deps/limonp/BoundedQueue.hpp:22-26 | the contents become empty |
| BoundedBlockingQueue.BoundedBlockingQueue.PushSection | deps/limonp/BoundedBlockingQueue.hpp:18-26 | appends if and only if there was room |
| BoundedBlockingQueue.BoundedBlockingQueue.PopSection | deps/limonp/BoundedBlockingQueue.hpp:28-37 | takes the first element if and only if there was one |
| ThreadPool.StepKeepsInvariant | deps/limonp/ThreadPool.hpp:24-75 | every step keeps the history of the queue, the account of closures and NULLs, and that no wake-up is lost, also while clients add during `Stop` |
| ThreadPool.RunKeepsInvariant | deps/limonp/ThreadPool.hpp:24-75 | hence so does every run of the started pool |
| ThreadPool.StopRunsEverything | deps/limonp/ThreadPool.hpp:61-70 | in every run, with clients adding at any time: when `Stop` returns each closure added before it has run exactly once, each worker has taken one NULL and exited, and of the closures added meanwhile exactly those in front of the last NULL have run, once, and the others are queued |
| ThreadPool.QuietStop | deps/limonp/ThreadPool.hpp:61-70 | if nothing was added meanwhile, what has run is exactly what was added and the queue is empty |
| ThreadPool.StartedInOrder | deps/limonp/ThreadPool.hpp:24-31 | at any time closures have been started in the order of adding, none twice |
| ThreadPoolLiveness.EveryStepHelps | deps/limonp/ThreadPool.hpp:24-75 | every step that is neither a spurious wake-up nor the beginning of another `Add` leaves less to do |
| ThreadPoolLiveness.Progress | deps/limonp/ThreadPool.hpp:24-75 | before `Stop` has returned there is such a step |
| ThreadPoolLiveness.EveryRunStops | deps/limonp/ThreadPool.hpp:61-70 | whatever the schedule, a run of such steps from a reachable state ends within a bound known beforehand, and where it cannot go on `Stop` has returned |
| ThreadPoolLiveness.StopCanReturn | deps/limonp/ThreadPool.hpp:61-70 | every such run can be continued until `Stop` returns, without spurious wake-ups or further `Add`s |
| ThreadPoolLiveness.NeverDeadlocked | deps/limonp/ThreadPool.hpp:24-75 | no reachable state before the return of `Stop` is deadlocked, clients blocked on a full queue included |
| ThreadPoolQueue.ThreadPool.AddSection | deps/limonp/BoundedBlockingQueue.hpp:18-26 | from every reachable state a client's pass over the ring buffer is the adding step of the pool for whichever worker the signal wakes, or the blocking step |
| ThreadPoolQueue.ThreadPool.NullSection | deps/limonp/ThreadPool.hpp:62-64 | likewise for the owner pushing a NULL |
| ThreadPoolQueue.ThreadPool.PopSection | deps/limonp/ThreadPool.hpp:26-29 | likewise for a worker popping; it goes on to run what it got or exits on NULL |
| EventLoop.EventLoop.AddPendingWork | src/event_loop.cc:52-57 | from every reachable state this is the push step of the machine: the work is the last of the sequence pushed, and a swap is on its way for the pending list |
| EventLoop.EventLoop.EventWakeUp | src/event_loop.cc:44-50 | the wake-up step of the machine: a reactor that polls can read at once |
| EventLoop.EventLoop.ReadEventFD | src/event_loop.cc:36-42 | the read step of the machine: it takes all wake-ups so far and makes a swap due |
| EventLoop.EventLoop.SwapPending | src/event_loop.cc:59-64 | the swap step of the machine: the batch taken is exactly what has been pushed and not yet executed |
| EventLoop.RunKeepsInvariant | src/event_loop.cc:36-68 | every interleaving of workers and reactor keeps order and wake-up |
| EventLoop.InLockOrder | src/event_loop.cc:52-68 | executed work, current batch and pending list are together what was pushed, in lock order |
| EventLoop.NothingStranded | src/event_loop.cc:36-68 | pending work implies a positive counter, a worker before its write, or a reactor before its swap; at rest everything has been executed |
| EventLoop.EveryStepHelps | src/event_loop.cc:36-68 | every step other than a new push leaves less to do |
| EventLoop.EveryRunDrains | src/event_loop.cc:115-121 | from every reachable state every run without new pushes is finite, whatever the schedule, and where no such step is left everything pushed has been executed |
| EventLoop.Drains | src/event_loop.cc:115-121 | from every such state the reactor and the workers can finish all work without new work |
| EventLoop.ReachableDrains | src/tcp_server.cc:72-75 | in particular from every reachable state |
| Md5.Round1 | deps/limonp/Md5.hpp:124-140 | the unrolled macro calls are the sixteen operations of the table of round 1, with rotating registers |
| Md5.Round2 | deps/limonp/Md5.hpp:142-158 | likewise for round 2 |
| Md5.Round3 | deps/limonp/Md5.hpp:160-176 | likewise for round 3 |
| Md5.Round4 | deps/limonp/Md5.hpp:178-194 | likewise for round 4 |
| Md5.ChoiceWhereSet | deps/limonp/Md5.hpp:57 | `F` has the bits of `y` where those of `x` are set, at any positions |
| Md5.ChoiceWhereClear | deps/limonp/Md5.hpp:57 | and those of `z` where they are clear |
| Md5.SelectionWhereSet | deps/limonp/Md5.hpp:58 | `G` has the bits of `x` where those of `z` are set |
| Md5.SelectionWhereClear | deps/limonp/Md5.hpp:58 | and those of `y` where they are clear |
| Md5.ParityWhereEqual | deps/limonp/Md5.hpp:59 | `H` has the bits of `z` where `x` and `y` agree |
| Md5.ParityWhereDifferent | deps/limonp/Md5.hpp:59 | and the other ones where they differ |
| Md5.InversionWhereSet | deps/limonp/Md5.hpp:60 | `I` inverts the bits of `y` where those of `x` are set |
| Md5.InversionWhereClear | deps/limonp/Md5.hpp:60 | and where those of `z` are clear |
| Md5.InversionElsewhere | deps/limonp/Md5.hpp:60 | and has them as they are elsewhere |
| Md5.RotationsOfRound1 | deps/limonp/Md5.hpp:63 | for the shifts of round 1, to rotate is to multiply by the power of two modulo 2^32 and to add the bits lost, as a quotient |
| Md5.RotationsOfRound2 | deps/limonp/Md5.hpp:63 | likewise for round 2 |
| Md5.RotationsOfRound3 | deps/limonp/Md5.hpp:63 | likewise for round 3 |
| Md5.RotationsOfRound4 | deps/limonp/Md5.hpp:63 | likewise for round 4 |
| Md5.SumsWrapOnce | deps/limonp/Md5.hpp:67-71 | the sum inside a macro is the sum of its four terms modulo 2^32 |
| Md5.MD5Transform | deps/limonp/Md5.hpp:119-203 | one application of the compression function of section 3.4 of RFC 1321 |
| Md5.Encode | deps/limonp/Md5.hpp:207-216 | words to bytes, low-order byte first; bytes behind are untouched |
| Md5.Decode | deps/limonp/Md5.hpp:220-226 | bytes to words |
| Md5.DecodeOfEncode | deps/limonp/Md5.hpp:207-226 | `Decode` undoes `Encode` |
| Md5.EncodeOfDecode | deps/limonp/Md5.hpp:207-226 | and the other way round |
| Md5.ChainOneMore | deps/limonp/Md5.hpp:271-272 | one more block at the end of a message is one more compression |
| Md5.CountAdvances | deps/limonp/Md5.hpp:259-262 | the two-word counter with its carry test is the bit length modulo 2^64 |
| Md5.CountIsTheIndex | deps/limonp/Md5.hpp:256 | its low word alone gives the fill of the buffer |
| Md5.ZeroCountIsLeast | deps/limonp/Md5.hpp:292-294 | the padding brings the length to 56 modulo 64 with as few zero bytes as possible (section 3.1 of RFC 1321) |
| Md5.PaddingInTwoParts | deps/limonp/Md5.hpp:289-298 | the two final updates append exactly the padding and length of sections 3.1 and 3.2 |
| Md5.PaddingMeaning | deps/limonp/Md5.hpp:289-298 | the padding is a byte 0x80, zero bytes and eight bytes that hold the bit length modulo 2^64, up to a multiple of 64 bytes |
| Md5.PaddingIsInjective | deps/limonp/Md5.hpp:289-298 | no two different messages are padded to the same blocks |
| Md5.MD5.Init | deps/limonp/Md5.hpp:237-245 | starts the empty message |
| Md5.InitialBytes | deps/limonp/Md5.hpp:240-243 | the initial registers are the bytes 01 23 45 67 and so on of section 3.3 of RFC 1321, low-order first |
| Md5.MD5.Update | deps/limonp/Md5.hpp:250-280 | extends the message: registers hold its complete blocks, the buffer its tail, the counter its length |
| Md5.MD5.Transform | deps/limonp/Md5.hpp:267-274 | takes every block the input completes and stops less than a block before its end |
| Md5.MD5.Final | deps/limonp/Md5.hpp:285-304 | the digest is that of the whole message and the context is zeroed |
| Md5.MD5.DigestPieces | deps/limonp/Md5.hpp:328-349 | for every way of cutting a message into pieces the digest is that of the joined message |
| Md5.MD5.DigestMemory | deps/limonp/Md5.hpp:352-361 | the digest of one piece |
| SimpleRegex.ValidateRegex | deps/gtest/src/gtest-port.cc:232-286 | accepts exactly the texts that are the print of a legal pattern |
| SimpleRegex.LegalByCode | deps/gtest/src/gtest-port.cc:197-199 | which characters may be escaped, stand alone or repeat, by code |
| SimpleRegex.CheckIsParse | deps/gtest/src/gtest-port.cc:243-283 | the flags of the loop decide the same as the grammar |
| SimpleRegex.ParseOfPrint | deps/gtest/src/gtest-port.cc:232-286 | reading undoes printing, so an accepted text stands for one pattern only |
| SimpleRegex.PrintOfParse | deps/gtest/src/gtest-port.cc:232-286 | what is read is legal and prints as the text |
| SimpleRegex.MatchRegexAtHead | deps/gtest/src/gtest-port.cc:322-348 | true exactly when some prefix (all, if the pattern ends in `$`) falls into parts matched by the pieces |
| SimpleRegex.MatchRepetitionAndRegexAtHead | deps/gtest/src/gtest-port.cc:295-317 | true exactly when some allowed number of characters matches the atom and the rest matches what follows |
| SimpleRegex.SplitHead | deps/gtest/src/gtest-port.cc:333-347 | taking the first piece off a pattern is taking a matching prefix off the string |
| SimpleRegex.MatchesPiece | deps/gtest/src/gtest-port.cc:295-317 | one piece matches the strings of as many accepted characters as its repetition allows: any, at least one, at most one, or exactly one |
| SimpleRegex.MatchesJoin | deps/gtest/src/gtest-port.cc:322-348 | a pattern behind another matches a string exactly when the string falls into two parts that they match |
| SimpleRegex.PlainByCode | deps/gtest/src/gtest-port.cc:221 | without a backslash the dot accepts every character but code 10, and each other character itself |
| SimpleRegex.ClassEscapesByCode | deps/gtest/src/gtest-port.cc:206-216 | what the escapes for digits, white space, word characters and their complements accept, by code |
| SimpleRegex.ControlEscapesByCode | deps/gtest/src/gtest-port.cc:208-214 | which control character each of the other letters accepts, by code |
| SimpleRegex.OtherEscapesByCode | deps/gtest/src/gtest-port.cc:218 | any other escaped character accepts itself if it is ASCII punctuation, and else nothing |
| SimpleRegex.MatchRegexAnywhere | deps/gtest/src/gtest-port.cc:358-371 | true exactly when some substring matches, from the start after `^` and to the end before `$` |
| SimpleRegex.RE.constructor | deps/gtest/src/gtest-port.cc:392-423 | validity and the pattern for full matches |
| SimpleRegex.RE.PartialMatch | deps/gtest/src/gtest-port.cc:387-389 | true exactly when the pattern is valid and some substring matches |
| SimpleRegex.RE.FullMatch | deps/gtest/src/gtest-port.cc:381-383 | what the built pattern decides |
| SimpleRegex.WhenFullMatchIsEntire | deps/gtest/src/gtest-port.cc:379-423 | full matches are matches of entire strings if and only if the pattern ends in its own `$` or not in an escaped one |
| SimpleRegex.EscapedDollarIsNotAnchored | deps/gtest/src/gtest-port.cc:419-420 | the pattern `\$` fully matches `$x` |

## Left out

- Sockets, epoll, timers, JSON, configuration, logging and opening files: input and output. The event descriptor is a counter, the index file is its text.
- IEEE rounding of weights, and the computation of dictionary weights: weights are given reals.
- TF-IDF, TextRank, part-of-speech tags and `FullSegment`: scores and a segmenter that does not cover the sentence.
- Loading a user dictionary after construction: it may move the entries trie values point to. That an entry names its own path is proved for tries built by `CreateTrie` and assumed as `SelfNamed` elsewhere.
- The Chinese branches of index and search: they build strings from character arrays without a terminator.
- The handshake between `update_` and `is_reading_`: check and set are not atomic, so no mutual exclusion is claimed; the merge is modelled while nobody reads.
- Reading and writing the cache file.
- `TaskQue::WakeUp` and the shutdown of the server's pool, which sets its flag without the lock.
- Exceptions of closures, and the lifetime of objects behind captured pointers.
- The rest of Google Test, and limonp's UTF-16 and GBK converters.
- SearchModule.ResultQueue.Push: the heap is an ordered list; how the priority queue stores its elements is not modelled, and `BestWordsUnique` shows that answers do not depend on it.
- SearchModule.SearchModule.SearchWord: English queries only; the returned key is lower-cased, so a cache asked with a mixed-case query can be given a present key, see `LowerFixed`, `Cache.Cache.Serve` and `Cache.AskMixedCase`.
- EditDistance.MinEdit: lengths are not limited to 31 bits.
- HMMSegment.ReadBack: the loop counter is a 32-bit integer in the source and unbounded here.
- Md5.MD5.Final: the hexadecimal rendering of the digest is not modelled.
- Md5.MD5.DigestPieces: no null file names; each piece must leave room for 63 below 2^32, because the loop condition of `Update` adds that to its index.
- Md5.MD5Transform: the sixty-four constants are those of the source and of RFC 1321; that they come from the sine function is not proved.
- Md5.MD5.Update: the bytes are a value; a caller that passes the context's own buffer is not modelled.
- Cache.Cache.DoWork: the search must return the key it was asked for, which `LowerFixed` ties to queries without upper-case letters, and no query is empty; what happens otherwise is `Cache.Cache.Serve` and `Cache.AskMixedCase`, and nothing is modelled after list and map have parted.
- EventLoop.NothingStranded: the event counter is unbounded, so a write never blocks.
- BoundedBlockingQueue.BoundedBlockingQueue.PushSection: one pass under the lock; waiting and signalling are steps of `ThreadPool`, to which `ThreadPoolQueue` ties it.
- BoundedBlockingQueue.BoundedBlockingQueue.PopSection: likewise.
- ReferenceCreator.RefFileCreator.SetRef: dictionaries of words that start with an ASCII byte, because the other branch has no defined meaning.
- SimpleRegex.ValidateRegex: the texts of the error messages are not modelled.
- SimpleRegex.MatchRepetitionAndRegexAtHead: strings are shorter than the greatest `size_t`, as the source asks.
