# Verified models of a Go service toolkit

This project models the self-contained algorithms and protocols of the toolkit in Dafny 4.11 and proves
properties of them over every input, every run, and every iteration order of Go's maps. `dafny verify
dfyconfig.toml` checks all of it.

Each component has a specification made of functions, methods that follow the source's loops and mutable
state and are proved to compute that specification, and lemmas that say what the specification is worth.

| files | what they model |
|---|---|
| `BlockHash`, `BlockDigest`, `Murmur3Mix`, `Murmur3`, `Murmur3Code`, `Murmur3Vectors` | the 128-bit MurmurHash3, one-shot and streaming |
| `Text`, `Stretches`, `RecursiveCharacter`, `RecursiveCharacterProofs`, `RecursiveCharacterAtoms`, `Overlap` | recursive separator splitting, greedy packing, overlap |
| `SentenceSplit`, `SentenceMarks`, `Sentences`, `PhraseSplit`, `DoubleMerging`, `DoubleMergingProofs`, `DoubleMergingRule` | splitting into sentences, and semantic double merging with lookahead |
| `Percentile`, `WindowBreakpoint`, `SemanticGroups`, `SmallGroups`, `WindowPipeline` | the window-breakpoint pipeline |
| `SemanticMode` | the double-merging and window-breakpoint modes from the text on |
| `HeadingTree`, `SectionNodes`, `RenderSection` | the heading tree built with a node stack, and its rendering |
| `StringOrder`, `Sql`, `SqlBuild`, `SqlWhere`, `SqlWhereCode`, `SqlWhereOrder`, `SqlWhereAlike`, `SqlWhereLimits`, `SqlStrings` | nested where-maps compiled to SQL text and values |
| `Components`, `ChunkGraph`, `IndirectChunks` | the knowledge graph |
| `Windows`, `ChunkMerge`, `ChunkSplit`, `ChunkSplitAtoms` | sliding windows and their reassembly, and the chunker's recursive strategy |
| `PgQueue`, `RedisLock` | the Postgres job queue and the owner-token Redis lease, as steps |
| `Levenshtein`, `Wordwrap` | two dynamic programs on byte strings |
| `Common` | optional values, facts about sequences |

Texts are sequences of runes, except for the hash, `Levenshtein` and `Wordwrap`, which work on bytes. Floats
are reals. Database statements and Lua scripts are atomic steps; `PgQueue` has database errors, lost replies and
crashes as steps of their own, and calls of `RedisLock` may lose their request or their reply. A similarity, a
distance, a heading pattern and the outcome of a SQL test on a row are arbitrary functions, so what is proved
holds for all of them. A Go map is iterated in any order: over a set whose elements are chosen freely, or as the
sequence of its entries in an arbitrary order.

`Essence` in the splitter results is a text without white space and without a given set of separator runes: two
texts with one essence hold the same runes of substance in the same order. The atoms of a text are what splitting
at every separator in turn leaves of it, and its words are the stretches between runes of separators.

## Where the code falls short of its promise

The code is modelled as it is; these results say exactly when a promise holds.

- A where-map whose entries for one field and operator say the same is turned into readable SQL exactly when its
  IN lists are not empty, its BETWEEN values are two, every `_or` has a branch, and every branch puts a condition
  (`SqlWhere.WhereMeansTheMap`); otherwise the text is not read as a list of tests. A BETWEEN with another number
  of values leaves the bare field name and drops the values; an empty branch leaves an empty operand.
- What a where-map collects is free of its iteration order exactly when entries for one field and operator carry
  the same value (`SqlWhereOrder.OrderFreeIffPairsAgree`): `a` and `a =` with different values overwrite each other.
  What is read of a map without `_or` is free of it exactly when such entries come to the same test, or some field
  and operator has only values that it cannot use (`SqlWhereAlike.ReadAlikeIff`).
- The operator `null` with a value that is no `NullType` puts no condition (`SqlWhereLimits.NoTextIffPassedOver`).
- `mergeChunkContents` restores a text exactly when no chunk grows past a predecessor that had itself fallen
  back (`Windows.MergeRestoresIff`); a chunk contained in its predecessor makes text appear twice.
- `mergePartsWithOverlap` ends exactly when no block it comes to has parts after it and, without its first part,
  less than the overlap (`ChunkMerge.MergeEndsIff`). So a text of two parts that fit, but not together, around the
  first separator is never split by the recursive strategy, with any overlap (`ChunkSplit.TwoPartsAreEndless`).
- `splitBySizeWithOverlap` ends exactly when the overlap is below the chunk size or the text fits one window; on
  a longer text it runs for ever when they are equal, and panics when the overlap is larger
  (`Windows.LoopEndsIff`). `splitByRunes`, whose overlap is at most the chunk size, ends under the same condition
  (`ChunkMerge.RunesEndIff`).
- The overlap of chunks is cut short exactly when a chunk leaves no room for it
  (`Overlap.TruncationExactly`); the chunks of the recursive strategy always do leave it.
- The window-breakpoint mode keeps to the chunk size exactly when the text is not a single over-long sentence
  (`SemanticMode.WindowBreakpointModeFitsIff`), which it returns whole.
- `semanticSplitDoubleMerging` fails with an index panic exactly on sentences that are all blank
  (`DoubleMergingProofs.PanicsIffAllBlank`); the mode itself never passes such sentences
  (`SemanticMode.DoubleMergingModeIsSound`).
- In the job queue a row is left locked with no worker exactly when its worker is lost between the commit of the
  lock and the commit of the outcome (`PgQueue.OrphanIffWorkerLost`), and it then stays locked for ever
  (`PgQueue.OrphansAreNeverRecovered`): `locked_until` is written and never read.
- The lease excludes other clients exactly when the random ids are distinct per key
  (`RedisLock.ExclusiveIffDistinctIds`). The script renews on re-acquire by the same id; the repository's own test
  at `pkg/database/redis/redis_redsync_test.go` asserts the contrary, and the script is followed.

## Model

| member | source | states |
|---|---|---|
| `Murmur3Mix.StepIsBijectionOfState` | pkg/murmur3/murmur128.go:63-91 | for a fixed block, one turn of the block loop is undone by an explicit inverse on the state, on both sides |
| `Murmur3Mix.StepIsBijectionOfBlock` | pkg/murmur3/murmur128.go:63-91 | for a fixed state, every state is reached by exactly one block |
| `Murmur3Mix.Fmix64IsBijection` | pkg/murmur3/murmur128.go:171-178 | `fmix64` has an inverse on all 64-bit words |
| `Murmur3Mix.FinishIsBijection` | pkg/murmur3/murmur128.go:156-168 | finalisation, length mixing and both `fmix64` included, has an inverse on the state |
| `Murmur3.Murmur128IsLossless` | pkg/murmur3/murmur128.go:63-169 | block step, tail and finalisation each keep different states apart, and step and tail keep different bytes apart |
| `Murmur3.HashSeparatesOneBlockChanges` | pkg/murmur3/murmur128.go:194-200 | two messages of one length that differ only inside one aligned 16-byte stretch, complete or not, never hash alike, under any seed and at any length |
| `Murmur3.HashSeparatesSeeds` | pkg/murmur3/murmur128.go:194-200 | one message under two seeds never hashes alike |
| `Murmur3.LengthsStayApart` | pkg/murmur3/murmur128.go:156-168 | on one state, a length that is one byte more always gives another result: the length is mixed in |
| `Murmur3.ZeroByteChangesHash` | pkg/murmur3/murmur128.go:93-169 | a zero byte appended inside a partial block changes the hash, for every message and seed |
| `Murmur3Vectors.EmptyHash` | pkg/murmur3/murmur128.go:194-200 | the hash of nothing under seed 0 is 0 |
| `Murmur3Vectors.FoxHash` | pkg/murmur3/murmur128.go:63-200 | the published hash of a sentence of 44 bytes, which every constant, rotation and shift goes into |
| `BlockHash.NoCollisionWithinOneBlock` | pkg/murmur3/murmur128.go:63-169 | the same separation for any engine whose stages lose nothing |
| `BlockHash.BlockChangeChangesDigest` | pkg/murmur3/murmur128.go:63-91 | changing one complete block, with anything before and after it, changes the digest |
| `BlockHash.TailChangeChangesDigest` | pkg/murmur3/murmur128.go:93-169 | changing the final partial block changes the digest |
| `BlockHash.StartsNeverCollide` | pkg/murmur3/murmur128.go:40-50 | different starting states keep the digests of every message apart |
| `Murmur3Code.MixBlock` | pkg/murmur3/murmur128.go:71-87 | the statements of the block loop compute the block step |
| `Murmur3Code.Fmix` | pkg/murmur3/murmur128.go:171-178 | the statements of `fmix64` compute the finaliser |
| `Murmur3Code.UpperTailWord` | pkg/murmur3/murmur128.go:98-118 | the fall-through cases 15 to 9 collect the little-endian upper word of the tail |
| `Murmur3Code.LowerTailWord` | pkg/murmur3/murmur128.go:127-149 | the fall-through cases 8 to 1 collect the little-endian lower word of the tail |
| `Murmur3Code.Finalise` | pkg/murmur3/murmur128.go:156-168 | the closing statements of `Sum128` compute the finalisation |
| `Murmur3Code.Sum` | pkg/murmur3/murmur128.go:93-169 | `Sum128` mixes the tail and the length into the state and finalises |
| `Murmur3Code.Sum128WithSeed` | pkg/murmur3/murmur128.go:194-200 | the one-shot hash is the fold over complete blocks, then tail, length and finalisation |
| `BlockDigest.MixBlocks` | pkg/murmur3/murmur128.go:63-91 | `bmix` folds all complete blocks and hands back the unread rest |
| `BlockHash.FeedMore` | pkg/murmur3/murmur3.go:19-44 | the fold of the complete blocks and the remaining 0 to 15 bytes are all a digest must remember of its past |
| `BlockDigest.Digest.Write` | pkg/murmur3/murmur3.go:19-44 | `Write` keeps the invariant, that the state is the fold over all complete blocks and the tail is the rest held in the carry buffer, and the bytes written are the old ones followed by the new ones |
| `BlockDigest.Digest.AppendToTail` | pkg/murmur3/murmur3.go:27-33 | appending to the tail writes into the carry buffer that the tail is a view of |
| `BlockDigest.Digest.Keep` | pkg/murmur3/murmur3.go:39-41 | the pending bytes end up at the front of the carry buffer |
| `BlockDigest.Digest.Reset` | pkg/murmur3/murmur3.go:46-50 | `Reset` leaves a digest that has been fed nothing |
| `BlockDigest.Digest.constructor` | pkg/murmur3/murmur128.go:40-46 | a new digest is valid and has been fed nothing |
| `BlockDigest.Digest.Sum` | pkg/murmur3/murmur128.go:93-169 | reading the hash gives the hash of everything written and changes nothing |
| `BlockDigest.HashPieces` | pkg/murmur3/murmur128.go:188-200 | for any cut of a message into writes, every reading in between is the one-shot hash of what was written until then |
| `Murmur3Code.HashPieces128` | pkg/murmur3/murmur128.go:188-200 | the same for the digest that `New128WithSeed` makes |
| `HeadingTree.ParseHeadingLine` | aipkg/rag/split/document_structure.go:214-259 | a heading has a depth between 1 and the maximum, and its text is the trimmed line |
| `HeadingTree.DeepestNumberWins` | aipkg/rag/split/document_structure.go:214-259 | a markdown heading counts with its own depth and title, and not at all beyond the maximal depth; otherwise the deepest numbering within the limit gives depth and title, Arabic figures before Chinese ones, unless only markdown headings count |
| `HeadingTree.ItemsAreLines` | aipkg/rag/split/document_structure.go:265-312 | line k is a heading exactly when it lies outside fences and parses as one, only markdown headings counting if one occurs outside fences anywhere; every other line is content as it is |
| `HeadingTree.WalkIsInput` | aipkg/rag/split/document_structure.go:285-315 | a preorder walk (heading, content, children) of the tree meets every line of the input once and in order |
| `HeadingTree.ParentIsNearestShallower` | aipkg/rag/split/document_structure.go:297-311 | every heading hangs below the nearest earlier heading of strictly smaller depth, or below the root |
| `HeadingTree.HeadingTreeIsExact` | aipkg/rag/split/document_structure.go:261-316 | both of these for every document, maximal depth and set of patterns |
| `SectionNodes.SectionNode.constructor` | aipkg/rag/split/document_structure.go:302-307 | a new node has its fields and nothing in it |
| `SectionNodes.FindMarkdown` | aipkg/rag/split/document_structure.go:265-280 | the scan before the main loop finds whether a markdown heading occurs outside fences |
| `SectionNodes.AppendLine` | aipkg/rag/split/document_structure.go:288-294 | appending to the content of the node on top of the stack appends one line to the tree |
| `SectionNodes.PopTo` | aipkg/rag/split/document_structure.go:298-300 | the popping loop ends at the nearest shallower node; the root is never popped, so the stack never empties |
| `SectionNodes.OpenNode` | aipkg/rag/split/document_structure.go:301-310 | a heading becomes the last child of the node on top and the new top |
| `SectionNodes.TakeLine` | aipkg/rag/split/document_structure.go:285-313 | one turn of the main loop takes the nodes on the stack one step of the specification further |
| `SectionNodes.ReadLines` | aipkg/rag/split/document_structure.go:265-315 | the shared, mutated nodes that the loop leaves behind show exactly the specified tree |
| `SectionNodes.ParseHeadingTree` | aipkg/rag/split/document_structure.go:261-316 | the same from the text of a document on |
| `Text.LinesAreText` | aipkg/rag/split/document_structure.go:263 | the lines, joined again, are the text with plain line ends |
| `RenderSection.RenderOpening` | aipkg/rag/split/document_structure.go:529-536 | the heading and the trimmed text directly below it |
| `RenderSection.RenderChild` | aipkg/rag/split/document_structure.go:538-545 | a child that renders to white space is left out |
| `RenderSection.RenderNode` | aipkg/rag/split/document_structure.go:525-548 | the recursive rendering of the nodes is the rendering of the tree they show |
| `RenderSection.RenderKeeps` | aipkg/rag/split/document_structure.go:525-548 | a rendered section holds every rune of its heading, lines and subsections that is not white space, in document order |
| `RenderSection.RenderIsJoin` | aipkg/rag/split/document_structure.go:525-548 | a section is its heading with the trimmed text directly below it and its non-empty subsections, with a blank line between them, trimmed |
| `RecursiveCharacterProofs.MergeIsOptimal` | aipkg/rag/split/recursive_character.go:124-166 | `mergeParts` makes the fewest chunks of any in-order grouping of consecutive parts whose joined length fits |
| `RecursiveCharacterProofs.MergeIsGrouping` | aipkg/rag/split/recursive_character.go:124-166 | and its own result is such a grouping |
| `RecursiveCharacterProofs.BlockIsMaximal` | aipkg/rag/split/recursive_character.go:135-150 | the block that starts at a part is the longest prefix that fits |
| `RecursiveCharacterProofs.LaterStartTakesNoMore` | aipkg/rag/split/recursive_character.go:124-166 | starting later never takes more chunks |
| `RecursiveCharacterProofs.MergeIsSized` | aipkg/rag/split/recursive_character.go:124-166 | merged chunks are non-empty and fit |
| `RecursiveCharacterProofs.HardSplitIsSized` | aipkg/rag/split/recursive_character.go:168-185 | cutting by runes loses nothing and gives chunks that are non-empty and fit |
| `RecursiveCharacterProofs.SplitIsSized` | aipkg/rag/split/recursive_character.go:79-122 | `recursiveSplit` terminates and returns no empty chunk and none longer than the chunk size |
| `RecursiveCharacterProofs.SplitKeepsEssence` | aipkg/rag/split/recursive_character.go:79-122 | every rune that is neither white space nor in a separator survives, in order |
| `RecursiveCharacterProofs.SplitSurvives` | aipkg/rag/split/recursive_character.go:79-122 | a text that is not blank has a chunk that is not blank |
| `RecursiveCharacterAtoms.AtomStaysWhole` | aipkg/rag/split/recursive_character.go:79-122 | an atom, what splitting at every separator in turn leaves, is whole in one chunk if it fits and is not blank: runes are cut only as a last resort |
| `RecursiveCharacterAtoms.StretchStaysWhole` | aipkg/rag/split/recursive_character.go:79-122 | so is every stretch of the text that fits, is not blank, holds no rune of a separator and lies between separators of one rune or ends of the text |
| `RecursiveCharacterAtoms.WordsOfSplit` | aipkg/rag/split/recursive_character.go:79-122 | the words of the chunks are the words of the atoms, in order, and only an atom that does not fit is cut by runes |
| `RecursiveCharacterAtoms.WordsAreNeverCut` | aipkg/rag/split/recursive_character.go:79-122 | if every atom fits, the chunks hold exactly the words of the text, in order and each of them whole |
| `RecursiveCharacter.HardSplitByRunes` | aipkg/rag/split/recursive_character.go:168-185 | the loop over runes makes the specified pieces |
| `RecursiveCharacter.TakeBlock` | aipkg/rag/split/recursive_character.go:135-150 | the inner loop of `mergeParts` takes exactly the parts of one block |
| `RecursiveCharacter.EmitBlock` | aipkg/rag/split/recursive_character.go:152-161 | a block is joined, or cut by runes when it is one over-long part |
| `RecursiveCharacter.Merge` | aipkg/rag/split/recursive_character.go:124-166 | the index loop of `mergeParts` computes the specified chunks |
| `RecursiveCharacter.RefineParts` | aipkg/rag/split/recursive_character.go:105-115 | the loop that drops blank parts and splits over-long ones further |
| `RecursiveCharacter.SplitText` | aipkg/rag/split/recursive_character.go:79-122 | `recursiveSplit` computes the specified chunks |
| `Overlap.OverlapTokens` | aipkg/rag/split/util.go:103-111 | 0 without a positive size and ratio, otherwise the nearest integer to their product, halves up |
| `Overlap.ApplyOverlapToStrings` | aipkg/rag/split/util.go:559-591 | the loop prefixes every chunk with a suffix of the previous result |
| `Overlap.OverlapOne` | aipkg/rag/split/util.go:571-588 | one turn of that loop |
| `Overlap.TruncationExactly` | aipkg/rag/split/util.go:559-591 | for chunks of any size: no chunk is cut, each standing whole after a suffix of the previous result, exactly when every chunk leaves room for the overlap, or for all runes before it if they are fewer |
| `Overlap.NothingTruncated` | aipkg/rag/split/util.go:559-591 | on chunks that fit, the truncation is never reached; every result is a suffix of the previous one followed by the whole chunk |
| `Overlap.StripUndoesOverlap` | aipkg/rag/split/util.go:559-591 | the chunks can be read back from the overlapped ones |
| `Overlap.RecursiveStrategyIsLossless` | aipkg/rag/split/recursive_character.go:64-65 | splitting and then overlapping truncates nothing, and every rune that is neither white space nor in a separator can be read back in order |
| `DoubleMerging.Phase1` | aipkg/rag/split/semantic.go:258-360 | the sentence loop of phase 1 computes the specified initial chunks |
| `DoubleMerging.Phase1Turn` | aipkg/rag/split/semantic.go:279-357 | one sentence of phase 1, all branches |
| `DoubleMerging.Phase2Turn` | aipkg/rag/split/semantic.go:374-435 | the look at the next one, two or three chunks: how many are taken and the merged text |
| `DoubleMerging.Phase2` | aipkg/rag/split/semantic.go:362-440 | the loop with its skip counter computes the specified merges |
| `DoubleMergingProofs.Phase1IsGrouping` | aipkg/rag/split/semantic.go:258-360 | for any similarity: with a non-blank first sentence the initial chunks are an in-order grouping of the non-blank sentences, over-long ones replaced by their pieces; no group of two or more exceeds the maximum |
| `DoubleMergingRule.Phase1IsJustified` | aipkg/rag/split/semantic.go:258-360 | for any similarity: a sentence stands behind others in a group only if it fits and is similar enough to the lone first one, or to the last two, or they are below the minimum together; two neighbouring sentences that are not over-long are parted only if that is not so |
| `DoubleMergingProofs.Phase2IsGrouping` | aipkg/rag/split/semantic.go:362-440 | for any similarity: the merged chunks are an in-order grouping of the initial ones, nothing skipped or repeated by the lookahead; no group of two or more exceeds the maximum |
| `DoubleMergingProofs.TakeIsJustified` | aipkg/rag/split/semantic.go:374-438 | a chunk below the minimum takes in the next one if they fit; otherwise phase 2 takes the chunks up to the nearest one within its lookahead that is similar enough and fits, and none only if there is none or the chunk is full |
| `DoubleMergingProofs.FinalIsSized` | aipkg/rag/split/semantic.go:442-453 | every final chunk is non-empty and fits the chunk size |
| `DoubleMergingProofs.FinalLoop` | aipkg/rag/split/semantic.go:442-453 | the last loop trims, drops blanks and splits what is too long |
| `DoubleMergingProofs.SemanticSplitDoubleMerging` | aipkg/rag/split/semantic.go:197-455 | defaults, both phases and the last loop together |
| `DoubleMergingProofs.DoubleMergingIsSound` | aipkg/rag/split/semantic.go:197-455 | for any similarity and a non-blank first sentence there is a result, its chunks fit, and it holds every rune that is neither white space nor dropped with a separator or phrase mark, in order |
| `DoubleMergingProofs.PanicsIffAllBlank` | aipkg/rag/split/semantic.go:364 | of the inner function alone: indexing the first initial chunk fails exactly when there are sentences and all of them are blank |
| `DoubleMergingRule.SettingsAre` | aipkg/rag/split/semantic.go:212-226 | a chunk size of 500 where none is given, no minimum below zero, and a lookahead of one chunk or two |
| `DoubleMergingRule.TwoSentences` | aipkg/rag/split/semantic.go:197-455 | two sentences become one chunk exactly when they fit together and the first is below the minimum or they are similar enough for one of the phases |
| `Percentile.InsertionSort` | aipkg/rag/split/semantic.go:550-557 | the swaps in place leave the array sorted and a permutation of what it was |
| `Percentile.RankIsIndex` | aipkg/rag/split/semantic.go:541-568 | with the percentile p held between 1 and 99, the rank is the ceiling of p percent of m - 1, and an index, so the clamps of the index never apply |
| `Percentile.PercentileValue` | aipkg/rag/split/semantic.go:540-570 | the result is the order statistic of that rank; 0 for no values |
| `Percentile.OrderStatisticBoundsCount` | aipkg/rag/split/semantic.go:504-510 | at most the values ranked after an order statistic lie strictly above it |
| `Percentile.PercentileBoundsCuts` | aipkg/rag/split/semantic.go:504-524 | at most m - 1 less the ceiling of p percent of m - 1 distances lie strictly above the percentile value |
| `WindowBreakpoint.Breakpoints` | aipkg/rag/split/semantic.go:505-510 | the loop collects the positions above the threshold |
| `WindowBreakpoint.CutIntoGroups` | aipkg/rag/split/semantic.go:512-524 | the slicing loop makes the specified groups |
| `WindowBreakpoint.CutIsByPairs` | aipkg/rag/split/semantic.go:505-524 | two neighbours are parted exactly when the distance between them is above the threshold |
| `WindowBreakpoint.CutKeepsSentences` | aipkg/rag/split/semantic.go:504-524 | cutting keeps all sentences in order and makes one group more than there are distances above the threshold, which the percentile bounds |
| `SemanticGroups.MergeSmallSemanticGroups` | aipkg/rag/split/semantic.go:572-624 | the loop with its four ways on computes the specified merging |
| `SemanticGroups.MergeSmallKeeps` | aipkg/rag/split/semantic.go:572-624 | merging small groups keeps every sentence in order |
| `SemanticGroups.MergeSmallMakesNoLargeGroup` | aipkg/rag/split/semantic.go:572-624 | a merged group is longer than the chunk size only if it was one of the groups before |
| `SmallGroups.MergeFollowsRule` | aipkg/rag/split/semantic.go:572-624 | without a minimum nothing is merged; otherwise the merging joins exactly the groups that a rule over the groups tells: a group is joined to what precedes it if they fit, and if that is a single group below the minimum or a lone heading, or the group itself is below the minimum, not the last, and does not fit with the next |
| `SmallGroups.SmallGroupLeft` | aipkg/rag/split/semantic.go:572-624 | a group below the minimum that is joined to nothing is the last one, or fits neither with the next nor with what precedes it |
| `SemanticGroups.SplitGroupsByMaxSize` | aipkg/rag/split/semantic.go:676-724 | the nested loops with flush compute the specified splitting |
| `SemanticGroups.PackSentences` | aipkg/rag/split/semantic.go:690-721 | the inner loop fills and flushes groups as specified |
| `SemanticGroups.SplitGroupsAreShort` | aipkg/rag/split/semantic.go:676-724 | after splitting every group fits the chunk size |
| `SemanticGroups.PackIsTight` | aipkg/rag/split/semantic.go:701-721 | packing is greedy: no group could have taken in the first sentence of the next |
| `SemanticGroups.SplitGroupsKeep` | aipkg/rag/split/semantic.go:676-724 | splitting keeps every sentence in order when none is over-long |
| `WindowPipeline.SplitGroupsKeepEssence` | aipkg/rag/split/semantic.go:676-724 | with over-long sentences it loses nothing but white space and phrase marks |
| `WindowPipeline.TailSentencesByLen` | aipkg/rag/split/semantic.go:647-666 | the backwards loop takes the specified tail |
| `WindowPipeline.TailIsSuffix` | aipkg/rag/split/semantic.go:647-666 | the tail is a suffix; it passes the limit only when its first sentence is its only non-empty one |
| `WindowPipeline.TailIsMaximal` | aipkg/rag/split/semantic.go:647-666 | nothing precedes the tail, or the limit is reached, or one more sentence would pass it |
| `WindowPipeline.FollowAt` | aipkg/rag/split/semantic.go:633-643 | what a group repeats is the whole tail of the previous final group, or nothing if it would not fit |
| `WindowPipeline.OverlapAt` | aipkg/rag/split/semantic.go:626-666 | with an overlap every group but the first begins with the longest tail of the final group before it within the limit, unless the two together would be longer than the chunk size |
| `WindowPipeline.ApplySentenceOverlapToGroups` | aipkg/rag/split/semantic.go:626-645 | the loop over the groups computes the specified overlap |
| `WindowPipeline.OverlapIsChained` | aipkg/rag/split/semantic.go:626-645 | after overlap every group fits and is a suffix of the previous final group followed by its own group |
| `WindowPipeline.SplitAtBreakpoints` | aipkg/rag/split/semantic.go:457-537 | from the distances on, step by step; one sentence is returned as it is |
| `WindowPipeline.WindowBreakpointIsSound` | aipkg/rag/split/semantic.go:504-537 | for two or more sentences and any distances: final groups fit and are chained, their own parts hold all sentences (exactly, or up to white space and phrase marks of over-long ones), and the cut makes no more groups than the percentile allows |
| `WindowPipeline.OwnGroupsAre` | aipkg/rag/split/semantic.go:504-527 | the stages in their order, each in its independent description: cut between neighbours, join by the rule if there is a minimum, split what is too long if there is a chunk size |
| `WindowPipeline.ConcatLength` | aipkg/rag/split/semantic.go:530-536 | a group joined to a text is as long as its sentences together |
| `WindowPipeline.FinalGroupsAreFilled` | aipkg/rag/split/semantic.go:504-528 | cutting, merging, splitting and overlapping bring no empty sentence into a group |
| `WindowPipeline.WindowChunksFitIff` | aipkg/rag/split/semantic.go:457-537 | for sentences that are not empty: every returned string is non-empty and fits exactly when there is not a lone over-long sentence, and the strings without what is repeated hold all runes but white space and phrase marks in order |
| `Sentences.SplitLong` | aipkg/rag/split/semantic.go:964-987 | the loop of `splitLongSentence` computes the specified pieces |
| `Sentences.SentenceGroupLen` | aipkg/rag/split/semantic.go:668-674 | the loop sums the lengths |
| `Sentences.LongSentenceIsSized` | aipkg/rag/split/semantic.go:964-987 | the pieces of a sentence are non-empty and fit |
| `Sentences.LongSentenceKeepsEssence` | aipkg/rag/split/semantic.go:964-987 | splitting a sentence loses nothing but white space and phrase marks |
| `Sentences.LongSentenceHasPieces` | aipkg/rag/split/semantic.go:964-987 | a sentence that is not blank has a piece |
| `PhraseSplit.PhraseStaysWhole` | aipkg/rag/split/semantic.go:964-987 | a phrase that fits and lies between phrase marks is whole in one piece of its sentence |
| `SentenceSplit.SplitLine` | aipkg/rag/split/semantic.go:930-937 | the loop over the runes of a line cuts after every end mark and never keeps a blank stretch |
| `SentenceSplit.SplitOne` | aipkg/rag/split/semantic.go:897-937 | one line of the text: fence, code, blank line, heading or list line, prose |
| `SentenceSplit.SplitIntoSentences` | aipkg/rag/split/semantic.go:868-944 | the loop over the lines and the code block left open at the end compute the specified sentences |
| `SentenceSplit.SentencesAreNotBlank` | aipkg/rag/split/semantic.go:868-944 | no sentence of any text is blank |
| `SentenceSplit.SentencesKeepEssence` | aipkg/rag/split/semantic.go:868-944 | the sentences of any text hold every rune that is not white space, in order |
| `SentenceSplit.PlainLineIsOneSentence` | aipkg/rag/split/semantic.go:868-944 | a plain line without end marks is a single sentence, however long |
| `SentenceMarks.LineIsCutAtMarks` | aipkg/rag/split/semantic.go:926-933 | the sentences of a line of prose are the line cut behind every end mark: each holds an end mark at most as its last rune before the newline, every one but the last ends at one, and together they are the line with a newline or without white space at its end |
| `SentenceMarks.LineOutsideCode` | aipkg/rag/split/semantic.go:915-933 | outside code blocks a heading or a list item is a sentence whole, and any other line is prose |
| `SentenceMarks.CodeBlockIsOneSentence` | aipkg/rag/split/semantic.go:896-913 | a code block is one sentence, fences and all |
| `SentenceMarks.OpenBlockIsOneSentence` | aipkg/rag/split/semantic.go:936-938 | so is one that is never closed, to the end of the text |
| `SemanticMode.SplitDoubleMerging` | aipkg/rag/split/semantic.go:153-180 | the double-merging mode calls the inner function with the sentences of the text |
| `SemanticMode.DoubleMergingModeIsSound` | aipkg/rag/split/semantic.go:153-180 | for every text, similarity and setting the double-merging mode never panics, its chunks fit, and it loses nothing but white space, separator and phrase marks |
| `SemanticMode.WindowBreakpointModeFitsIff` | aipkg/rag/split/semantic.go:153-180 | for every text and any distances: the window-breakpoint mode keeps to the chunk size exactly when the text is not a single over-long sentence |
| `SemanticMode.PlainLineIsTooLong` | aipkg/rag/split/semantic.go:484-486 | a plain line at least as long as the chunk size is returned whole and too long |
| `Sql.GroupReads` | pkg/xsql/builder/dao.go:359-378 | conditions in parentheses under one connector are read as their conjunction or disjunction, and are not read when one of them is not, or when there is none |
| `Sql.ListReads` | pkg/xsql/builder/dao.go:359-378 | the operands of one parenthesis level are read one by one, each placeholder taking the next value |
| `SqlBuild.FieldReads` | pkg/xsql/builder/dao.go:200-344 | the text of every operator on every value reads back as the test it stands for, and is not read as a test exactly for an empty IN list or a BETWEEN without two values |
| `SqlBuild.ComparableReads` | pkg/xsql/builder/dao.go:52-378 | every condition built, nested to any depth, reads as its meaning, or is not read as a list of tests when a part of it is not |
| `SqlBuild.PiecesAligned` | pkg/xsql/builder/dao.go:52-378 | whatever the values, every condition has as many placeholders as values |
| `SqlBuild.BuildFields` | pkg/xsql/builder/dao.go:200-344 | the loop that overwrites sorted field names with conditions and collects values |
| `SqlBuild.BuildIn` | pkg/xsql/builder/dao.go:218-226 | a mark for every value, the last comma trimmed |
| `SqlBuild.BuildBetween` | pkg/xsql/builder/dao.go:286-298 | two values make a condition; any other number leaves the bare name and no values |
| `SqlBuild.BuildNull` | pkg/xsql/builder/dao.go:52-73 | null tests; values that are not a `NullType` are passed over |
| `SqlBuild.Build` | pkg/xsql/builder/dao.go:301-319 | `Build` of every kind of condition gives the specified texts and values |
| `SqlBuild.WhereConnector` | pkg/xsql/builder/dao.go:359-378 | the loop joins the texts and concatenates the values in the same order |
| `StringOrder.SortedKeys` | pkg/xsql/builder/dao.go:329-334 | the keys of a map, each once and in lexicographic order |
| `SqlWhereLimits.ShowGroup` | pkg/xsql/builder/dao.go:376 | the string of a group is the join of the strings of its conditions in parentheses |
| `SqlWhereLimits.ShowIn` | pkg/xsql/builder/dao.go:218-222 | the string of an IN condition |
| `SqlStrings.CompareString` | pkg/xsql/builder/dao.go:152-198 | a comparison by = != > >= < <= comes out as it is written, with a mark for the value |
| `SqlStrings.RawString` | pkg/xsql/builder/dao.go:321-348 | raw SQL stands in the text itself, without a placeholder |
| `SqlStrings.NotEqualString` | pkg/xsql/builder/dao.go:160-166 | <> is written != |
| `SqlStrings.LikeString` | pkg/xsql/builder/dao.go:87-107 | like is written LIKE |
| `SqlStrings.LikePercentString` | pkg/xsql/builder/dao.go:109-128 | like2 is written LIKE, its value between percent signs |
| `SqlStrings.NotLikeString` | pkg/xsql/builder/dao.go:130-150 | not like is written NOT LIKE |
| `SqlStrings.InString` | pkg/xsql/builder/dao.go:200-226 | in is written IN, with a mark for every value in parentheses |
| `SqlStrings.NotInString` | pkg/xsql/builder/dao.go:228-252 | not in is written NOT IN |
| `SqlStrings.BetweenString` | pkg/xsql/builder/dao.go:254-298 | between is written BETWEEN with two marks around AND, in parentheses |
| `SqlStrings.NotBetweenString` | pkg/xsql/builder/dao.go:282-298 | not between is written NOT BETWEEN |
| `SqlStrings.NullString` | pkg/xsql/builder/dao.go:35-73 | null is written IS NULL or IS NOT NULL, as its NullType says |
| `StringOrder.LessIs` | pkg/xsql/builder/dao.go:329-334 | the lower of two strings ends first, or has the smaller rune where they first differ |
| `SqlStrings.GroupStrings` | pkg/xsql/builder/dao.go:359-378 | the conditions of a group stand in parentheses with AND or OR between them |
| `SqlWhere.WhereMeansTheMap` | pkg/xsql/builder/sql_where.go:70-144 | for every where-map whose entries for one operator and field say the same, at every depth, and any row: conditions come out exactly for valid maps, placeholders match values in number, there is a text exactly when an entry puts a condition, and the text with its values is read as the AND of the entries, with each `_or` an OR of ANDs, exactly when the map is legible; otherwise it is not read as a list of tests |
| `SqlWhere.ConditionsTell` | pkg/xsql/builder/sql_where.go:91-144 | the conditions of one map, joined by AND, are read as the meaning of the map |
| `SqlWhere.BranchesTell` | pkg/xsql/builder/sql_where.go:112-122 | the branches of an `_or` are read as a disjunction of their meanings |
| `SqlWhere.ConditionsAreValid` | pkg/xsql/builder/sql_where.go:91-144 | an error is returned exactly for maps with an empty or unknown key, a value of the wrong shape for a list operator, or an `_or` that is no list of maps |
| `SqlWhere.AddIs` | pkg/xsql/builder/sql_where.go:33-43 | adding an operator and field that is new, or whose value says the same already, adds exactly its condition |
| `SqlWhere.WholeSetIs` | pkg/xsql/builder/sql_where.go:259-277 | going through the operators in order covers the whole field set |
| `SqlWhere.WhereMapSet.AddField` | pkg/xsql/builder/sql_where.go:33-43 | the nested map gets the value under operator and field, and nothing else changes |
| `SqlWhereCode.ConvertWhereMap` | pkg/xsql/builder/sql_where.go:279-304 | the elements of every value under its key, or a failure exactly when a value is no slice |
| `SqlWhereCode.BuildWhereCondition` | pkg/xsql/builder/sql_where.go:259-277 | the loop over the operators builds the specified conditions |
| `SqlWhereCode.OrBranches` | pkg/xsql/builder/sql_where.go:112-122 | the loop over the branches of an `_or` |
| `SqlWhereCode.GetWhereConditions` | pkg/xsql/builder/sql_where.go:91-144 | the loop over the entries, recursive through `_or`, collects the specified conditions |
| `SqlWhereCode.BuildWhere` | pkg/xsql/builder/sql_where.go:70-89 | the string, with a leading space when there is a condition, and the values |
| `SqlStrings.NullOverrides` | pkg/xsql/builder/sql_where.go:133-135 | a NullType overrides the operator word |
| `SqlStrings.BareKey` | pkg/xsql/builder/sql_where.go:146-165 | a key without an operator word means equality, or IN for a list |
| `SqlStrings.CapitalWord` | pkg/xsql/builder/sql_where.go:129 | operator words are read without regard to case |
| `SqlStrings.LooseKey` | pkg/xsql/builder/sql_where.go:146-182 | spaces around a key, between field and operator and between the two words of an operator make no difference |
| `SqlStrings.EqualityFirst` | pkg/xsql/builder/sql_where.go:68 | conditions come in the order of the operators, whichever entry the map gives first |
| `SqlStrings.OtherClauses` | pkg/xsql/builder/sql_where.go:18-24 | the keys of other clauses add nothing |
| `SqlStrings.EmptyKeyRefused` | pkg/xsql/builder/sql_where.go:146-151 | a key of nothing but spaces is refused |
| `SqlStrings.UnknownWordRefused` | pkg/xsql/builder/sql_where.go:129-132 | so is an operator word that is none of the fifteen |
| `SqlStrings.OrValueRefused` | pkg/xsql/builder/sql_where.go:103-111 | so is an alternative that is no list of maps |
| `SqlStrings.ListWordRefused` | pkg/xsql/builder/sql_where.go:279-293 | so is a list operator with something that is no list |
| `SqlWhereOrder.OrderDoesNotMatter` | pkg/xsql/builder/sql_where.go:91-144 | if a map is valid and consistent in one iteration order, it is so in every other, whatever the order at each nested level, and both are read alike on every row |
| `SqlWhereOrder.PermutationIsSameMap` | pkg/xsql/builder/sql_where.go:91-144 | two permutations of the entries are listings of the same map |
| `SqlWhereOrder.SameMapAlike` | pkg/xsql/builder/sql_where.go:91-144 | listings of the same map at every depth have the same meaning, legibility, validity and conditions |
| `SqlWhereOrder.OrderFreeIffPairsAgree` | pkg/xsql/builder/sql_where.go:33-43 | for every map that the scan accepts: all permutations of the entries give the same field set if and only if any two entries for one operator and field carry the same value |
| `SqlWhereOrder.DisagreeingOrdersDiffer` | pkg/xsql/builder/sql_where.go:33-43 | for two entries that disagree, moving one or the other to the end gives different field sets |
| `SqlWhereOrder.ClashDependsOnOrder` | pkg/xsql/builder/sql_where.go:33-43 | such a map: `a` and `a =` with different values |
| `SqlWhereAlike.FlatReads` | pkg/xsql/builder/sql_where.go:91-144 | a map without `_or` is accepted in every order, and read as the conjunction of the last value of every operator and field, or not at all when one of them cannot be used |
| `SqlWhereAlike.ReadAlikeIff` | pkg/xsql/builder/sql_where.go:91-144 | for every accepted map without `_or`: all its iteration orders are read alike on every row if and only if entries for one operator and field come to the same test, or some operator and field has only values it cannot use |
| `SqlWhereLimits.NoTextIffPassedOver` | pkg/xsql/builder/sql_where.go:133-136 | a map of one accepted entry gives no text exactly when the operator is `null` and the value no `NullType`, for every key |
| `SqlWhereLimits.UnusableValueIsUnreadable` | pkg/xsql/builder/sql_where.go:91-144 | a map of one accepted entry with a value its operator cannot use is valid, consistent and not read as a test on any row |
| `SqlWhereLimits.EmptyListIsUnreadable` | pkg/xsql/builder/sql_where.go:91-144 | such a map: `a` with an empty list |
| `Components.Search.Dfs` | aipkg/rag/graph/graph.go:817-838 | the search adds to the visited titles and the component only new titles, each once, all connected to its start, and leaves none of them with an unvisited neighbour; it terminates because the unvisited set shrinks |
| `Components.Search.VisitTargets` | aipkg/rag/graph/graph.go:825-829 | the loop along the relationships |
| `Components.Search.VisitSources` | aipkg/rag/graph/graph.go:831-837 | the nested loops against the relationships |
| `Components.SearchFindsComponent` | aipkg/rag/graph/graph.go:897-909 | a search that starts outside the visited components finds exactly one component |
| `Components.SamePartIffConnected` | aipkg/rag/graph/graph.go:897-909 | two titles are in the same subgraph exactly when relationships, followed either way, connect them |
| `Components.FindComponents` | aipkg/rag/graph/graph.go:897-909 | the loop over the entities partitions the titles into connected components, each title once |
| `Components.BuildAdjacency` | aipkg/rag/graph/graph.go:883-895 | an entry for every entity, a target for every relationship between entities |
| `Components.EdgesAreRelated` | aipkg/rag/graph/graph.go:888-895 | the edges that the search follows are the relationships between entities, either way |
| `Components.Subgraphs` | aipkg/rag/graph/graph.go:883-909 | the subgraphs of a knowledge graph are its weakly connected components |
| `ChunkGraph.GraphBuilder.LinkSource` | aipkg/rag/graph/graph.go:602-621 | the loop over the target chunks stores the relation both ways |
| `ChunkGraph.GraphBuilder.LinkEntities` | aipkg/rag/graph/graph.go:602-621 | one relationship links all chunks of its two entities and nothing else |
| `ChunkGraph.GraphBuilder.BuildChunkGraph` | aipkg/rag/graph/graph.go:586-624 | from any symmetric graph, so over any sequence of builds, the graph stays symmetric in keys and values, and every pair of chunks holds the latest relation that joins it |
| `ChunkGraph.LatestIsLast` | aipkg/rag/graph/graph.go:586-624 | the latest relation of two chunks is that of the last relationship whose entities hold one of them each, if there is any |
| `IndirectChunks.ThroughNeighbour` | aipkg/rag/graph/graph.go:742-761 | the inner loop keeps what the best path met so far is worth, weight and degree |
| `IndirectChunks.CollectIndirect` | aipkg/rag/graph/graph.go:727-763 | for any iteration order: an entry for every chunk at distance two and no other, with the decayed weight and the degree of one of its heaviest two-step paths |
| `IndirectChunks.IndirectIsDistanceTwo` | aipkg/rag/graph/graph.go:727-763 | the indirect chunks are those reached in two steps and not in fewer |
| `IndirectChunks.BestIs` | aipkg/rag/graph/graph.go:742-761 | the best way is worth half the product of its two weights, no less than any other way, and the larger of its two degrees |
| `IndirectChunks.Rank` | aipkg/rag/graph/graph.go:765-793 | the entries in descending order of weight, then degree |
| `IndirectChunks.GetIndirectRelationChunks` | aipkg/rag/graph/graph.go:714-809 | the ids of a ranking of the chunks at distance two, each once with what its best path is worth, heavier first and of equally heavy ones the higher degree first, cut after topK |
| `IndirectChunks.RankingFollowsWeight` | aipkg/rag/graph/graph.go:765-787 | in any such ranking no chunk comes before one with a larger best weight, of equally heavy ones the higher degree comes first, and none comes twice |
| `IndirectChunks.IndirectIsSymmetric` | aipkg/rag/graph/graph.go:714-763 | being indirectly related is symmetric, with the same weight and degree both ways |
| `Windows.MergeChunkContents` | aipkg/rag/graph/graph.go:316-340 | the loop appends what each chunk adds behind the previous one |
| `Windows.MergeRestoresIff` | aipkg/rag/graph/graph.go:316-340 | stretches of a text are merged back into it exactly when no chunk grows past a predecessor that had fallen back; otherwise text is repeated |
| `Windows.ContainedChunkRepeatsText` | aipkg/rag/graph/graph.go:316-340 | a concrete case: a chunk inside its predecessor makes the next one repeat text |
| `Windows.FixedSize` | aipkg/rag/split/fixed_size.go:66-101 | the fixed-size loop, after its limit on the overlap, yields the sliding windows |
| `Windows.SizeTurn` | aipkg/rag/chunker/semantic.go:122-138 | one turn of the second loop at any index and overlap: a window, the end, or the panic of slicing from a negative index |
| `Windows.SplitBySize` | aipkg/rag/chunker/semantic.go:114-141 | the second loop for every overlap but one equal to the chunk size on a longer text, where it never comes back: the same windows, or an index panic exactly when the overlap is larger and the text longer than the chunk size |
| `Windows.TurnAdvancesIff` | aipkg/rag/chunker/semantic.go:122-138 | for every overlap: while the loop runs its index after k turns is k times the chunk size less the overlap, so a turn after which it still runs advances exactly when the overlap is below the chunk size |
| `Windows.StandsStill` | aipkg/rag/chunker/semantic.go:114-141 | at an overlap equal to the chunk size a longer text keeps the index at 0 and gains a copy of its first window on every turn |
| `Windows.SecondTurnPanics` | aipkg/rag/chunker/semantic.go:119-127 | at a larger overlap the second turn on a longer text slices from a negative index |
| `Windows.LoopEndsIff` | aipkg/rag/chunker/semantic.go:114-141 | for every overlap: the loop ends exactly when the overlap is below the chunk size or the text fits one window, panics exactly when the overlap is larger and the text longer, and runs for ever exactly when the overlap is equal and the text longer |
| `Windows.TurnsGiveWindows` | aipkg/rag/chunker/semantic.go:114-141 | where the loop ends it never panics; after any number of turns the windows so far are the first ones, and all of them once it has ended |
| `ChunkMerge.Assemble` | aipkg/rag/chunker/recursive_character.go:230-247 | the loop that assembles one block |
| `ChunkMerge.BackUp` | aipkg/rag/chunker/recursive_character.go:268-278 | the loop that counts the parts to repeat |
| `ChunkMerge.MergeTurn` | aipkg/rag/chunker/recursive_character.go:229-285 | one turn of the merge loop, the cut of an over-long part included |
| `ChunkMerge.StandsIff` | aipkg/rag/chunker/recursive_character.go:249-284 | a turn leaves the index where it is exactly when the block is stuck: there is an overlap, more parts follow, it is no over-long part, and without its first part it is shorter than the overlap |
| `ChunkMerge.StandsForEver` | aipkg/rag/chunker/recursive_character.go:228-285 | from a stuck block on the loop only adds the same chunk again and again |
| `ChunkMerge.MergeEndsIff` | aipkg/rag/chunker/recursive_character.go:217-288 | for any parts, separator, size and overlap: the loop ends if and only if no block it comes to is stuck, and then with the specified chunks |
| `ChunkMerge.MergePartsWithOverlap` | aipkg/rag/chunker/recursive_character.go:217-288 | where it ends, the loop computes the specified chunks |
| `ChunkMerge.BlockFits` | aipkg/rag/chunker/recursive_character.go:229-262 | every chunk of parts that fit is the join of the longest run of parts that fits |
| `ChunkMerge.OverlongIsCut` | aipkg/rag/chunker/recursive_character.go:249-261 | a part longer than the chunk size at which a block starts is a block of its own, cut after the chunk size; what is cut off is lost |
| `ChunkMerge.RepeatIsLeast` | aipkg/rag/chunker/recursive_character.go:265-285 | what two neighbouring chunks share is at least as long as the overlap, and would not be with one part less |
| `ChunkMerge.MergedAt` | aipkg/rag/chunker/recursive_character.go:228-285 | where the loop ends no part is left out: each block starts behind the start of the one before and no further than its end, and the last one reaches the last part |
| `ChunkMerge.NoOverlapAdvances` | aipkg/rag/chunker/recursive_character.go:281-284 | without overlap the loop always ends |
| `ChunkMerge.LoneFirstPartStands` | aipkg/rag/chunker/recursive_character.go:265-281 | with any overlap, a first part that fits alone but not with the second keeps the loop at index 0 for ever |
| `ChunkMerge.RuneTurn` | aipkg/rag/chunker/recursive_character.go:202-212 | on single runes a turn is a turn of the window loops |
| `ChunkMerge.RunesEndIff` | aipkg/rag/chunker/recursive_character.go:202-212 | on single runes, the overlap being at most the chunk size, the loop ends exactly where the window loop does |
| `ChunkMerge.SplitByRunes` | aipkg/rag/chunker/recursive_character.go:202-212 | where it comes back, the merge of single runes, which are the same windows |
| `ChunkSplit.Refine` | aipkg/rag/chunker/recursive_character.go:180-194 | the loop that drops blank parts and splits over-long ones further |
| `ChunkSplit.SplitWithSeparators` | aipkg/rag/chunker/recursive_character.go:158-198 | where it comes back, the recursion computes the specified chunks |
| `ChunkSplit.SplitIsSized` | aipkg/rag/chunker/recursive_character.go:158-288 | for every text, separators and overlap: where the strategy comes back its chunks are non-empty and fit |
| `ChunkSplit.NoOverlapIsDone` | aipkg/rag/chunker/recursive_character.go:158-288 | without overlap the strategy always comes back |
| `ChunkSplitAtoms.AtomStaysWhole` | aipkg/rag/chunker/recursive_character.go:155-288 | where it comes back, every atom that fits and is not blank is whole in one chunk: runes are cut only as a last resort |
| `ChunkSplitAtoms.StretchStaysWhole` | aipkg/rag/chunker/recursive_character.go:155-288 | so is every stretch of the text that fits, is not blank, holds no rune of a separator and lies between separators of one rune or ends of the text |
| `ChunkSplit.SplitInTwo` | aipkg/rag/chunker/recursive_character.go:166-173 | a text with one separator is split into what is before and behind it |
| `ChunkSplit.TwoPartsAreEndless` | aipkg/rag/chunker/recursive_character.go:158-288 | a text of two parts that fit, but not together, around the first separator: with any overlap the strategy never comes back |
| `ChunkSplit.ParagraphsAreEndless` | aipkg/rag/chunker/recursive_character.go:87-95 | such a text for the default separators: two paragraphs of three runes at chunk size 5 and overlap 1 |
| `Windows.Neighbours` | aipkg/rag/split/fixed_size.go:78-101 | neighbours overlap by exactly the overlap, all but the last window are full, the last adds something and reaches the end |
| `Windows.NeighboursShareText` | aipkg/rag/split/fixed_size.go:78-101 | the last runes of one window are the first of the next |
| `Windows.WindowsRoundTrip` | aipkg/rag/graph/graph.go:316-340 | windows merged with their offsets give back the text |
| `Levenshtein.TableIsLeastCost` | pkg/xphp2go/string.go:775-821 | every entry of the table is the least cost over all alignments of the two prefixes, for any costs |
| `Levenshtein.LastEntry` | pkg/xphp2go/string.go:789-820 | before each round the first of the two swapped rows is that row of the full table, so the last entry is returned |
| `Levenshtein.EmptyCosts` | pkg/xphp2go/string.go:782-795 | against the empty string the cost is that of inserting, or deleting, every byte |
| `Levenshtein.Levenshtein` | pkg/xphp2go/string.go:775-821 | up to 255 bytes the result is the least cost over all alignments; beyond that, with both strings non-empty, it is -1 |
| `Levenshtein.DistanceReversed` | pkg/xphp2go/string.go:775-821 | the way back costs the same with insertion and deletion exchanged |
| `Levenshtein.TriangleInequality` | pkg/xphp2go/string.go:775-821 | going through a third string is never cheaper |
| `Wordwrap.PiecesRestoreInput` | pkg/xphp2go/string.go:416-463 | the lines and what ended them in the input give back the input |
| `Wordwrap.LinesFit` | pkg/xphp2go/string.go:416-463 | no line exceeds the width when cutting; otherwise an over-long line has no space after its first byte |
| `Wordwrap.WrapIsFaithful` | pkg/xphp2go/string.go:416-463 | the output is a rendering of lines that fit and that restore the input: only single spaces became breaks, and breaks were inserted |
| `Wordwrap.OutputIsLinesJoined` | pkg/xphp2go/string.go:416-463 | the output is its lines with the break string between them, the last of them empty when a space at the very end became a break |
| `Wordwrap.BreaksAreNeeded` | pkg/xphp2go/string.go:433-461 | a break is made only where the next word would not have fitted, and inside a word only at exactly the width |
| `Wordwrap.InsideWord` | pkg/xphp2go/string.go:446-456 | the branches for a byte inside a word keep the scan invariant |
| `Wordwrap.Turn` | pkg/xphp2go/string.go:433-457 | one turn of the scan keeps the invariant |
| `Wordwrap.WrapLines` | pkg/xphp2go/string.go:416-463 | the scan computes the specified output |
| `Wordwrap.Wordwrap` | pkg/xphp2go/string.go:416-463 | the empty string, the two panics, and the wrapped text; a width whose int is negative wraps as width 0 does |
| `PgQueue.EventTable.Pub` | pkg/event/pgsql.go:92-114 | a new available row with a fresh id; nothing else changes |
| `PgQueue.EventTable.FetchAndLockJob` | pkg/event/pgsql.go:210-230 | a row is fetched exactly when one can be selected, then an oldest one; it is locked and its attempts counted |
| `PgQueue.PickThenCommitFetches` | pkg/event/pgsql.go:210-230 | the run model's two steps, picking a row and committing, together have that same effect on the table |
| `PgQueue.FetchedRow` | pkg/event/pgsql.go:210-230 | the row that is fetched is the oldest available one of its topic that is not skipped; it is locked for five minutes, with one attempt more, and otherwise as it was |
| `PgQueue.EventTable.DeleteJob` | pkg/event/pgsql.go:232-238 | the row is gone; nothing else changes |
| `PgQueue.EventTable.ReleaseOrMarkFailed` | pkg/event/pgsql.go:240-253 | the row becomes available again below five attempts, and failed from the fifth on; nothing else changes |
| `PgQueue.StepKeepsInv` | pkg/event/pgsql.go:172-253 | every step of workers, database and faults keeps the invariant |
| `PgQueue.RunKeepsInv` | pkg/event/pgsql.go:172-253 | so does every run |
| `PgQueue.EveryRunIsSafe` | pkg/event/pgsql.go:172-253 | on every run: one holder per row, at most five handler runs per row, a failed row has had five attempts, at most maxInFlight handlers per subscription, and published rows are split among available, locked, failed and deleted |
| `PgQueue.ErrorIsRetried` | pkg/event/pgsql.go:190-195 | an error reported before the fifth attempt leaves the row to be selected again |
| `PgQueue.FailedRanFiveTimes` | pkg/event/pgsql.go:172-253 | on every run that loses no reply to a lock, the handler of a failed row has run exactly five times |
| `PgQueue.SettledStaysSettled` | pkg/event/pgsql.go:190-195 | after success or failure a handler never runs again for that row |
| `PgQueue.OrphanArisesExactly` | pkg/event/pgsql.go:172-230 | a row becomes an orphan exactly when a step loses its worker: the commit reply or the outcome is lost, or the process dies between lock and outcome |
| `PgQueue.OrphanIffWorkerLost` | pkg/event/pgsql.go:172-230 | a run from a state without orphan ends with a row orphaned if and only if one of its steps lost that row's worker |
| `PgQueue.CrashLeavesOrphan` | pkg/event/pgsql.go:172-230 | such a run: publish, spawn, pick, commit, crash |
| `PgQueue.OrphansAreNeverRecovered` | pkg/event/pgsql.go:220-224 | an orphan stays locked on every continuation: locked_until is written and never read |
| `PgQueue.HandlerRunsAreBounded` | pkg/event/pgsql.go:172-253 | without new publishes the number of further handler runs is bounded; every publish adds at most five |
| `RedisLock.Server.EvalLock` | pkg/database/redis/redis_redsync.go:16-21 | the lock script: renew for the same id, otherwise set if absent |
| `RedisLock.Server.EvalDel` | pkg/database/redis/redis_redsync.go:22-26 | the release script: delete only for the same id |
| `RedisLock.Lock.Acquire` | pkg/database/redis/redis_redsync.go:63-86 | `Acquire` runs the lock script with seconds*1000+500 milliseconds and gives its reply, or an error when the request or the reply is lost |
| `RedisLock.Lock.Release` | pkg/database/redis/redis_redsync.go:90-102 | `Release` succeeds exactly when the script deleted the key and its reply arrived; a lost request or reply is an error |
| `RedisLock.Lock.SetExpire` | pkg/database/redis/redis_redsync.go:107-109 | the seconds are stored modulo 2 to the 32 |
| `RedisLock.RunAgrees` | pkg/database/redis/redis_redsync.go:63-109 | on every run with distinct ids, failed calls included: a running lease is a live key on the server, and the other live keys belong to clients whose last call failed |
| `RedisLock.RepliesAreBounded` | pkg/database/redis/redis_redsync.go:63-102 | on every run with distinct ids, failed calls included: `Acquire` is refused when another client of the key has a running lease and only when another may hold it; `Release` deletes when the caller's lease is running and only when it may hold the key |
| `RedisLock.RepliesAreExact` | pkg/database/redis/redis_redsync.go:63-102 | on every run without failed calls: `Acquire` succeeds exactly when no other client of the key has a running lease; `Release` deletes exactly when the caller's own lease is running, and otherwise changes nothing |
| `RedisLock.OthersCannotEndALease` | pkg/database/redis/redis_redsync.go:63-109 | a running lease survives every step of every other client, failed calls included |
| `RedisLock.LeaseRunsItsTime` | pkg/database/redis/redis_redsync.go:63-109 | on every run: an acquired lease runs for 1000 milliseconds for every second set last (modulo 2 to the 32) and 500 more; whatever others call meanwhile, the key holds the client's id until then and the client relies on it exactly so long |
| `RedisLock.ExclusiveIffDistinctIds` | pkg/database/redis/redis_redsync.go:50-59 | mutual exclusion over every run, failed calls included, holds if and only if the ids are distinct per key |

## Left out

- Floating-point rounding: weights, distances, ratios and percentiles are reals, and the percentile rank is the exact ceiling of an integer quotient.
- The unsafe native-endian read of hash blocks: it is little-endian here.
- Invalid UTF-8: texts are sequences of runes, so a cut inside an encoded rune cannot occur; `Levenshtein` and `Wordwrap` work on bytes as the source does.
- TF-IDF vectors, cosine similarity and the vector cache: similarity and distances are arbitrary. The window texts and their buffer size only feed the distances.
- The greedy mode `semanticSplitWithSentenceOverlap`, regular expressions, HTML tables, page markers, chunk ids and `protectCodeBlocks`/`restoreCodeBlocks`: text preprocessing.
- Context cancellation in the splitters: the loops run to their end.
- `SemanticStrategy.Validate`, preprocessing before the sentences, and trimming and conversion after the chunks.
- Heading patterns: what each regular expression captures is a parameter; the title is what the pattern gives, already stripped of marks.
- `splitSection`, table rows and JSON lines of the document-structure strategy: they drive the splitters above.
- `Chunk` and `Validate` of the chunker strategies around their splitting functions: URL removal, whitespace, paragraphs and page numbers.
- Wordwrap.Wordwrap: does not speak of cutting at widths from 2 to the 63 on, whose int is negative: the source then breaks before every byte of a word.
- Trimming of windows, and the page numbers of window documents.
- SQL text inside raw values and field names: each is one lexeme, whatever it contains; operators are lower-cased as ASCII; `fmt.Sprintf` of a LIKE value is a constructor.
- `BuildWhere` passes its conditions through `splitCondition`, which finds no HAVING marker among them; the marker is not modelled.
- Statement builders around the where clause (insert, update, delete, select) and the dialect code.
- Entity and relationship extraction, weights and degrees of the knowledge graph; `GetRelationChunks`, which is the easy first-degree case. Log output and locks.
- IndirectChunks.CollectIndirect: among equally heavy best paths the degree is that of one of them, because the source keeps whichever it meets first.
- IndirectChunks.Rank: the order of entries with equal weight and degree is the library sort's choice; the sort itself is an insertion here.
- Rendering of the Mermaid diagram beyond its subgraphs.
- Levenshtein.Levenshtein: does not model overflow of Go's int in sums of costs, because lengths are at most 255 and costs are the caller's.
- Clock skew and server failover for the Redis lease: scripts run atomically on one clock. A client whose call failed is taken not to rely on its lease.
- PgQueue.EventTable.FetchAndLockJob: rows locked by other open transactions are a parameter; row locks, commits and lost replies are separate steps of the run model in the same file.
- LISTEN/NOTIFY and poll intervals: a worker may be started at any time a slot is free.
- LLM calls, HTTP, e-mail, logging, configuration, caches, PKCS#7 padding, base62, array and set helpers.
