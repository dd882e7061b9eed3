# A verified model of the zupt codec

zupt carries its own compression codec (frames of LZ blocks, coded with tANS or Huffman, behind reversible branch
filters), an ML-KEM implementation, and a disk backup with deduplication. This project models their algorithms in Dafny
and proves what they are for.

Code that changes arrays and objects step by step is modelled by methods over arrays and classes with loop invariants.
Each is proved against a function that says what it computes, and the results proper are lemmas about those functions:
round trips, refinements of fast forms by simple ones, invariants of whole runs, and the exact conditions under which a
round trip holds.

| files | what they model |
|---|---|
| `Bcj`, `BcjRule`, `BcjArm64` | the x86 and ARM64 branch filters, and which branches are converted to what |
| `AnsNormalize`, `AnsTable`, `AnsBuild`, `AnsHeader`, `BitIO`, `AnsStream`, `AnsCodec`, `AnsCodec4`, `AnsMeaning` | tANS: normalisation, spread, windows, tables, headers, bit streams, one stream and four lanes |
| `SeqCodes`, `SeqHistory`, `SeqParse`, `SeqParser`, `SeqStream`, `SeqEncode`, `SeqDecode`, `SeqLoop`, `SeqLiterals`, `SeqRace`, `SeqBlock`, `SeqCodec`, `SeqMeaning`, `SeqGrammar` | sequence coding: three tANS streams in one bit stream, rep history, literal sections and the race for them, the safe zone |
| `HuffOptimal` | why merging the two lightest gives a code no other is cheaper than |
| `HuffTree`, `HuffLengths`, `HuffCodes`, `HuffTables`, `HuffIO`, `HuffStream`, `HuffCodec`, `HuffCodec4`, `HuffMeaning` | Huffman coding from the two-queue tree to the four-lane decoder |
| `Lz`, `LzGrammar`, `LzCopy`, `LzDecode`, `LzStripped`, `LzStarved` | what tokens mean, the two-phase decoder, stripped tokens |
| `LzEmit`, `LzMatch`, `LzWalks`, `LzShort`, `LzChains`, `LzMatcher`, `LzParse`, `LzSteps`, `LzCompress`, `LzCompact`, `LzOptimal`, `LzCands`, `LzOptimalParse`, `LzOptimalRun`, `LzPath`, `LzTame`, `LzLongRuns` | the match finders, the greedy, lazy and optimal parsers, the compact context |
| `VvFrame`, `VvGrammar`, `VvStream`, `VvDstream`, `VvLaw`, `VvPayload`, `VvBlocks`, `VvEmit`, `VvCompress`, `Xxh64` | frames, one-shot and streaming decoding, block choice, whole frames, checksums |
| `LostSource`, `LostFrame` | a source whose frame is not read back |
| `ZuptLz`, `ZuptSteps` | the older codec of LZ tokens |
| `LongestWalk` | walks that settle on the longest match, shared by the two older codecs |
| `LzhRuns`, `LzhTree`, `LzhCodes`, `LzhBits`, `LzhParse`, `LzhSteps`, `LzhStream`, `LzhCodec`, `LzhMeaning` | the older codec of LZ symbols with Huffman codes: zero runs, the heap-built tree and its repair, the parser, the bit stream, whole frames |
| `MlkemField`, `MlkemZetas`, `MlkemTransform`, `MlkemEvaluation`, `MlkemProduct`, `MlkemLevels`, `MlkemNtt`, `MlkemInverse`, `MlkemPoly`, `MlkemUnreduced`, `MlkemVector` | the number-theoretic transform of section 4.3 of FIPS 203 in 16-bit arithmetic |
| `DedupIndex`, `DiskFrames`, `DiskImage`, `DiskChecks`, `DiskRun` | deduplication and the disk backup |
| `Arithmetic`, `Bits`, `LittleEndian`, `Lanes`, `Wrappers` | shared |

Round trips alone would not notice a format that encoder and decoder change alike. The files named `Meaning`, `Grammar`,
`Rule`, `Payload`, `Checks` and `History` therefore say what the decoders accept, and what they make of it, in terms of
bytes, bits and written-out constants, and prove that they accept exactly that. Nor would they notice an encoder that
compresses less than it should: the files named `Walks`, `Short`, `Steps`, `Path` and `Race` say which matches, tokens
and codings it chooses.

The theorems about frames and streams hold for every block decoder that keeps the law in `VvLaw`, which says what each
payload decodes to; `VvBlocks.DecodePayload` proves that the in-place decoders keep it.

`dafny verify dfyconfig.toml` checks the whole project.

## Findings

- **A literal-only block cuts its counts to sixteen bits** (vv_encoder.c:1948-1949, read back at vv_decoder.c:597-598
  and 633-634). When sequence coding fails or does not help, `emit_block` codes the literals alone and stores their
  number and the size of their coding in two bytes each. `LzStarved.LiteralDecodesExactly` gives the condition: the
  block decodes when both counts are below 65536. It is refused when only the number of literals is not. When neither
  is, it is refused if that number is a multiple of 65536 and the block is the first, and if it is no multiple and the
  coding consists of four lanes. `LostSource` and `LostFrame` give an input: 65538 bytes in which no four bytes recur,
  so that the interior literal run makes `parse_sequences` refuse the tokens (vv_ans.c:1644), and 64 zeros. For every
  matcher of the balanced mode and whatever its tables hold, `LostFrame.LostFrame` proves that the frame `vv_compress`
  writes for it in the first format is refused by every decoder. (The first format takes an explicit window or the flag
  for compatibility: the trial of the default options, vv_encoder.c:2215-2262, finds this source binary-like and picks
  the second format.) What a caller can check beforehand: in fast mode, in the second format, and for sources below 64
  KiB every frame is read back (`VvCompress.Compress`).
- **`inv_ntt` is right exactly when the pairs of its first level can be added in sixteen bits** (zupt_mlkem.c:115;
  `MlkemInverse.InverseExact`, for every 16-bit array). After `ntt` these sums are twice what its sixth level left, so
  that for coefficients of at most 3751, the self-test's input among them, no reduction is needed in between
  (`MlkemUnreduced.UnreducedFits`). For larger ones it can be: 13578 at index 0, -10936 at 64 and -13546 at 128, zeros
  elsewhere, stay in sixteen bits through `ntt` but are not restored (`MlkemUnreduced.NotRestored`). The key exchange
  itself reduces before every `inv_ntt`.
- **The factor of the transform there and back is 2^16** (`MlkemPoly.ThereAndBack`), not its inverse as the comment of the
  self-test says.
- **The greedy parser does not guard its 32-bit positions.** `compress_block_optimal` refuses blocks that end past
  2^31-1 (vv_encoder.c:1218-1219); `compress_block` takes them. The model asks for sources that end 1 MiB below 2 GiB
  (`VvCompress.Ready`, `LzMatcher.Matcher.Holds`) and says nothing of larger ones.
- **`zupt_lzh_compress` can return a cut stream** (zupt_lzh.c:154-160 and 731-735). The bit writer drops what its buffer
  cannot hold, and the result is checked against the size of the source, not against what was dropped. A destination as
  large as the source rules it out (`LzhCodec.Compress`), and all callers give one. Where the destination holds the head
  alone, the result restores no source of two different bytes (`LzhCodec.CutAtHead`).
- **The two Huffman coders are optimal unless they limit a length.** `HuffLengths.BuildCodeLengths` and
  `LzhCodes.HuffBuild` say so for every histogram they take: with two symbols or more, and when the tree is no deeper
  than fifteen, no code at all makes the text shorter. Where it is deeper, they say what the two repairs do: the first
  moves the deepest symbols one by one, the second splits them, and leaves counts that are a number in skew binary.
- **In the second format a block with a short token stream is never compressed** (vv_encoder.c:1905-1979). Its token
  streams cannot be stored as they are, only sequence-coded or not at all, yet the sequence coding is measured against
  what the tokens would take. `VvEmit.WrittenSize` gives the condition: it is used exactly if it is shorter than the
  tokens and than the block. A sequence coding has at least thirty bytes, so that a block whose tokens take at most 31
  bytes, however many bytes they stand for, is stored as it is (`VvCompress.ShortTokensStored`).

## Model

| member | source | states |
|---|---|---|
| `BranchFilterX86.RoundTrip` | zupt-5.2.10/src/vv_bcj.c:45-105 | for every byte sequence and every start ip, filtering in one direction and then in the other gives the sequence back |
| `BranchFilterX86.FilterUndone` | zupt-5.2.10/src/vv_bcj.c:45-105 | from every position and every reachable mask the opposite pass, run over the other buffer, restores the bytes: both passes visit the same opcodes, hold the same mask and decide alike |
| `BranchFilterX86.BcjX86` | zupt-5.2.10/src/vv_bcj.c:45-105 | the scan and conversion loops over the array leave exactly the filtered bytes and return the position the scan ended at |
| `BranchFilterX86.ThereAndBack` | zupt-5.2.10/src/vv_bcj.c:45-105 | running the in-place filter and then its opposite on one array leaves the array as it was |
| `BranchFilterArm64.RoundTrip` | zupt-5.2.10/src/vv_bcj.c:141-180 | rewriting BL and ADRP in either direction is undone by the other direction, for every byte sequence and start |
| `BranchFilterArm64.BcjArm64` | zupt-5.2.10/src/vv_bcj.c:141-180 | the word loop over the array leaves exactly the filtered bytes |
| `BranchFilterArm64.InstructionByRule` | zupt-5.2.10/src/vv_bcj.c:141-180 | a BL has the number of its word added to, or taken from, its 26 bits of offset, an ADRP the number of its page to its 21 bits; other words stay |
| `AnsNormalize.NormalizeFreq` | zupt-5.2.10/src/vv_ans.c:113-164 | for every histogram with a total of at most 2^31-1: the entries sum to exactly 4096, are positive exactly where the histogram is, and each symbol has its share rounded down, or one; what is missing goes to the largest remainders, the first of equals; what is too much is taken back, one unit each by the smallest remainder from symbols with more than one, and then from the symbol that has most |
| `AnsNormalize.FairShare` | zupt-5.2.10/src/vv_ans.c:113-164 | where every present symbol is due at least one slot, none gets fewer than the whole slots it is due |
| `AnsTable.PlaceBijective` | zupt-5.2.10/src/vv_ans.c:170-178 | stepping through the 4096 slots by the spread step visits every slot exactly once |
| `AnsTable.SpreadCounts` | zupt-5.2.10/src/vv_ans.c:170-178 | after spreading, every symbol stands in exactly as many slots as its frequency |
| `AnsTable.WindowsTile` | zupt-5.2.10/src/vv_ans.c:180-238 | the windows of the occurrences of a symbol tile the 4096 states: each state lies in exactly one, the one the two shifts of the encoder compute |
| `AnsTable.DecodeUndoesEncode` | zupt-5.2.10/src/vv_ans.c:180-378 | encoding a symbol from a state and decoding at the slot reached gives the symbol and, with the emitted bits, the state |
| `AnsTable.EncodeUndoesDecode` | zupt-5.2.10/src/vv_ans.c:180-378 | decoding at a slot and encoding the symbol again from the state reached gives the slot and the same bits |
| `AnsBuild.BuildDec` | zupt-5.2.10/src/vv_ans.c:180-238 | the decode table built from the spread table is the one the windows define, and the right one: slot 2563 k modulo 4096 holds the symbol that has unit k, and the windows of a symbol, in the order of its slots, lie end to end from state 0 to 4096, wide before narrow, of at most two neighbouring widths |
| `AnsBuild.BuildDecDirect` | zupt-5.2.10/src/vv_ans.c:240-290 | spreading into the decode table itself and completing it in slot order gives that same right table |
| `AnsBuild.TableIsRight` | zupt-5.2.10/src/vv_ans.c:170-290 | for every normalised frequency table, the table of the windows over the spread is right in that sense |
| `AnsBuild.BuildEnc` | zupt-5.2.10/src/vv_ans.c:310-339 | the occurrence lists hold, for each symbol and occurrence number, its slot and its baseline |
| `AnsBuild.EncSym` | zupt-5.2.10/src/vv_ans.c:345-378 | for a present symbol the lookup by shifts returns the slot and the bit field of the encode step; for an absent one it fails |
| `BitIO.BitWriter.Add` | zupt-5.2.10/src/vv_ans.c:40-52 | adding a field extends the number written so far by that field above its bits |
| `BitIO.BitWriter.Flush` | zupt-5.2.10/src/vv_ans.c:53-62 | after the flush the buffer holds the bit stream of all fields added |
| `BitIO.BitReader.Fill` | zupt-5.2.10/src/vv_ans.c:64-98 | the eight-byte load and the byte loop load the same bytes: what is still to be read does not change, and twelve bits or everything is loaded |
| `BitIO.BitReader.Read` | zupt-5.2.10/src/vv_ans.c:100-108 | reading returns the lowest bits of what is still to be read and leaves the rest, with zeros past the end |
| `AnsStream.StreamRoundTrip` | zupt-5.2.10/src/vv_ans.c:559-688 | decoding forward what was encoded backward gives the symbols back and uses exactly the bits emitted |
| `AnsHeader.HeaderRoundTrip` | zupt-5.2.10/src/vv_ans.c:395-496 | every normalised table is read back from its header (single, sparse or dense), whatever bytes follow |
| `AnsHeader.HeaderCut` | zupt-5.2.10/src/vv_ans.c:441-496 | a header that is cut off anywhere is not read as a table |
| `AnsMeaning.HeaderForm` | zupt-5.2.10/src/vv_ans.c:395-439 | the header of a table with one active symbol is that symbol; up to 64 active symbols are listed; with more, the frequencies of all symbols up to the last active one are |
| `AnsHeader.WriteHeader` | zupt-5.2.10/src/vv_ans.c:395-439 | stores exactly the header when it fits and returns 0 otherwise |
| `AnsHeader.ReadHeader` | zupt-5.2.10/src/vv_ans.c:441-496 | returns exactly the table and size that parsing defines, legacy layout included |
| `AnsMeaning.HeaderMeans` | zupt-5.2.10/src/vv_ans.c:441-496 | a header is found exactly where the bytes are one: a mark 1 and the lone symbol, a mark 2 and triples of a symbol and its two-byte frequency, a mark 3 and the frequencies of all symbols up to one, or the same without a mark |
| `AnsCodec.VvaEncode` | zupt-5.2.10/src/vv_ans.c:559-625 | the output is the single-stream frame of the source under the table its histogram gets; it fails exactly when that frame does not fit or is no shorter than the source |
| `AnsCodec.VvaDecode` | zupt-5.2.10/src/vv_ans.c:631-695 | for every input, well formed or not, the status, output and bytes consumed are those of the frame decoder as a function |
| `AnsCodec.FrameRoundTrip` | zupt-5.2.10/src/vv_ans.c:559-695 | decoding an encoded frame, whatever follows it, gives the source back and consumes exactly the frame |
| `AnsMeaning.FrameMeans` | zupt-5.2.10/src/vv_ans.c:631-695 | for every input: literals are decoded exactly where the bytes are a frame and there is room, and they are those a right table takes, state by state, out of the bits behind a header and a two-byte state |
| `AnsCodec4.VvaEncode4` | zupt-5.2.10/src/vv_ans.c:699-823 | the output is the four-lane frame of the source; it fails exactly when that does not fit or is no shorter |
| `AnsCodec4.VvaDecode4` | zupt-5.2.10/src/vv_ans.c:825-940 | for every input the round-robin decoder has the status, output and consumption of the frame decoder as a function |
| `AnsCodec4.Frame4RoundTrip` | zupt-5.2.10/src/vv_ans.c:699-940 | decoding a four-lane frame, whatever follows it, interleaves the lanes back to the source and consumes exactly the frame |
| `AnsMeaning.Frame4Means` | zupt-5.2.10/src/vv_ans.c:825-940 | the same for four lanes: four states, four sizes of four bytes, four bit streams, the literals dealt out in turn |
| `AnsCodec4.CutIsRefused` | zupt-5.2.10/src/vv_ans.c:825-940 | every proper prefix of a four-lane frame is refused, for every number of literals asked for but 0 |
| `SeqCodes.Search` | zupt-5.2.10/src/vv_ans.c:1474-1507 | the direct lookup and the bisection find the one code whose range holds the length |
| `SeqCodes.CodesTile` | zupt-5.2.10/src/vv_ans.c:1428-1450 | the ranges of the length codes follow one another without gap or overlap |
| `SeqCodes.CodeBack` | zupt-5.2.10/src/vv_ans.c:1474-1507 | decoding the code and the stored extra bits of a length gives the length back exactly when it is below the limit of its table |
| `SeqCodes.OffsetBack` | zupt-5.2.10/src/vv_ans.c:1509-1534 | an offset of at most three bytes comes back through its code and the rep history exactly when it is not 0 |
| `SeqHistory.HistoryFollows` | zupt-5.2.10/src/vv_ans.c:2129-2134 | after any list of offsets the three entries of the history are the last three of that list with zeros and immediate repeats taken out, newest first, and 0 where there are fewer |
| `SeqMeaning.CodesMean` | zupt-5.2.10/src/vv_ans.c:1428-1450 | the 36 least runs and least matches, their extra bits and those of the 27 offset codes are the listed numbers, matches one shorter in the second format |
| `SeqParser.ParseSequences` | zupt-5.2.10/src/vv_ans.c:1595-1706 | for every token stream the loop returns the sequences and literals parsing defines, or fails where it fails, and never meets the capacities it is given |
| `SeqParse.ParseMeans` | zupt-5.2.10/src/vv_ans.c:1595-1706 | a token stream that decodes and parses means what its sequences mean |
| `SeqParse.SeqsBound` | zupt-5.2.10/src/vv_ans.c:1595-1706 | sequences that a stream of at most 2^30 token bytes yields are few enough for their bit stream to have a 32-bit length |
| `LzLongRuns.ParseRejectsExactly` | zupt-5.2.10/src/vv_ans.c:1640-1644 | of the token streams that decode, the parser refuses exactly those with a literal run of more than 65535 bytes before the last token |
| `LzLongRuns.LateMatchesAreRejected` | zupt-5.2.10/src/vv_encoder.c:1446-1693 | when no four bytes recur in the 65536 bytes after the start of a block, the greedy or lazy parser finds no match in it or its tokens are refused by the sequence coder |
| `SeqEncode.CodePass` | zupt-5.2.10/src/vv_ans.c:2100-2156 | the forward pass yields the codes of all sequences, the counts of each stream and the number of matches; every offset is coded as the first of the last three offsets that it equals, counting neither zeros nor immediate repeats, and otherwise by its logarithm and the rest |
| `SeqEncode.StreamTable` | zupt-5.2.10/src/vv_ans.c:2182-2215 | the table of a stream covers its codes and gives each its share, by largest remainder, of how often it occurs in the sequences |
| `SeqEncode.EncodeStreams` | zupt-5.2.10/src/vv_ans.c:2261-2373 | the backward pass over the pairs yields the three final states and the one bit stream that all three share |
| `SeqCodec.EncodeSequences` | zupt-5.2.10/src/vv_ans.c:1788-2441 | fails exactly when the tokens do not parse or the block does not fit, and otherwise stores the packed form of the parsed sequences under the tables that the codes of the three streams get from their counts, with the literal section that wins the race of the coders |
| `SeqCodec.DecodeSequences` | zupt-5.2.10/src/vv_ans.c:2490-3029 | for every input the in-place decoder has the result of the decoder with every check on, leaves its output behind the history, and touches nothing from the end of the block on |
| `SeqCodec.BlockRoundTrip` | zupt-5.2.10/src/vv_ans.c:1788-3029 | decoding the sequence-coded form of tokens that decode computes exactly what the tokens mean, if their lengths and offsets are representable |
| `SeqRace.RaceAll` | zupt-5.2.10/src/vv_ans.c:1979-2050 | with fewer than 4096 literals, the frames of tANS in four lanes and in one stream, under the tables of the counts, and of Huffman in four lanes and in one stream, under the code of the tree, are all made; the shortest wins, of equals the first in that order, four Huffman lanes going for the one stream unless they take over 32 bytes more; the literals themselves if none is shorter |
| `SeqRace.RaceGuessed` | zupt-5.2.10/src/vv_ans.c:1886-1978 | with more, whatever the two size estimates, at most two are made, those whose estimates promise something, and the shorter wins |
| `SeqRace.EncodeLiterals` | zupt-5.2.10/src/vv_ans.c:1861-2051 | the literal section is the winner of that race, decodes to the literals whatever the buffer of the decoder held, and is never longer than they are |
| `SeqRace.RacedNear` | zupt-5.2.10/src/vv_ans.c:2004-2040 | with fewer than 4096 literals no frame is shorter than the section, but that of one Huffman stream by up to 32 bytes |
| `SeqGrammar.LayoutMeans` | zupt-5.2.10/src/vv_ans.c:2498-2665 | the parts of a block are found exactly where they lie: sizes in two or four bytes, lowest first, and the order of the sections |
| `SeqGrammar.BlockMeans` | zupt-5.2.10/src/vv_ans.c:2490-3029 | for every input, room and content of the literal buffer: a block is decoded to an output exactly where its bytes hold sections, literals in one of five formats and tables that play it out |
| `SeqDecode.LoopMeansRun` | zupt-5.2.10/src/vv_ans.c:2800-3023 | three states sharing one bit stream stay in step through the whole block: the decoder computes exactly what the encoded sequences mean, errors included |
| `SeqDecode.SafeZone` | zupt-5.2.10/src/vv_ans.c:2752-2769 | for every block and state, well formed or not, the loop that skips its checks in the safe zone returns the result of the loop that never does |
| `SeqMeaning.LoopMeans` | zupt-5.2.10/src/vv_ans.c:2800-3023 | for every block, well formed or not, and every output: the checked loop yields it exactly where the bits play it out: run code, offset code, length code, each a table entry with its state bits and then its extra bits, rep codes naming recent offsets, and copies byte by byte |
| `SeqLoop.DecodeLoop` | zupt-5.2.10/src/vv_ans.c:2800-3023 | the array loop with zone bounds, wide copies and skipped checks returns the result of the checked loop and leaves the same bytes; for every block it succeeds exactly where the codes, states and extra bits at their positions in the bit stream play out an output, and leaves that |
| `LzTame.BlockTame` | zupt-5.2.10/src/vv_encoder.c:1446-1693 | the lengths and offsets of greedy and lazy tokens are ones the sequence coder can represent |
| `LzTame.OptimalTame` | zupt-5.2.10/src/vv_encoder.c:1215-1435 | so are those of the optimal parse |
| `HuffTree.Merge` | zupt-5.2.10/src/vv_huffman.c:206-227 | the two-queue merge builds a tree whose internal nodes weigh what hangs below them; no code for the leaves, of whatever lengths satisfy the Kraft inequality, costs less than the internal nodes weigh; and the whole weight is at least the Fibonacci number of the height plus 2 |
| `HuffOptimal.Beats` | zupt-5.2.10/src/vv_huffman.c:206-227 | for every set of code lengths that satisfies the Kraft inequality: it costs at least as much as giving the two lightest symbols a common parent and the best code to what then remains |
| `HuffOptimal.GreedyStep` | zupt-5.2.10/src/vv_huffman.c:206-227 | a lower bound for all codes of the weights after a merge of the two lightest, and the weight merged, is a lower bound for all codes before it |
| `HuffTree.LeavesAreBest` | zupt-5.2.10/src/vv_huffman.c:206-239 | the weights of the leaves times their depths are a lower bound for every code of those weights |
| `HuffTree.Depths` | zupt-5.2.10/src/vv_huffman.c:229-239 | the depths read from the root down fill the code space exactly |
| `HuffLengths.Limit` | zupt-5.2.10/src/vv_huffman.c:236-304 | the limiter keeps exactly the present symbols and gives each 1 to 15 bits with a Kraft sum of at most 1; a symbol that was deeper in the tree, or as deep with a larger number, has no shorter code; and the number of symbols of each length is that of the tree below some length, of which some were moved, the deepest first and no more than needed: behind it and before fifteen at most one symbol is left, and before it was moved last the code space did not suffice |
| `HuffLengths.BuildCodeLengths` | zupt-5.2.10/src/vv_huffman.c:156-304 | for every histogram with a total below 5702887: a length from 1 to 15 for exactly the present symbols, and a Kraft sum of at most 1; one bit for each of one or two symbols; for more the lengths of an optimal code, one that no lengths satisfying the Kraft inequality undercut, with a complete tree, if no length of that code is above 15, and otherwise what the limiter makes of them; they are optimal, too, if none is 15 |
| `HuffCodes.NextCodeFits` | zupt-5.2.10/src/vv_huffman.c:310-335 | in a sound code the first codes of the lengths never wrap around and every code fits its length |
| `HuffCodes.CanonPrefixFree` | zupt-5.2.10/src/vv_huffman.c:310-335 | no canonical code is a prefix of another |
| `HuffTables.AssignCanonicalCodes` | zupt-5.2.10/src/vv_huffman.c:310-335 | the codes assigned by the counting loops are the canonical codes; in a sound code each begins where those before it end |
| `HuffTables.BuildDecTable` | zupt-5.2.10/src/vv_huffman.c:361-390 | every entry of the table and the list of long codes say what the code at the front of the bits is |
| `HuffTables.FindsCode` | zupt-5.2.10/src/vv_huffman.c:361-390 | bits that start with the code of a symbol are read as that symbol, through the table or the scan of the long codes |
| `HuffCodes.CanonIsSpaceBefore` | zupt-5.2.10/src/vv_huffman.c:310-335 | a canonical code, extended to fifteen bits, is the code space that the shorter codes, and those of its length with lower symbols, take |
| `HuffCodes.StoredBitFirst` | zupt-5.2.10/src/vv_huffman.c:136-154 | a code is stored with its most significant bit first |
| `HuffIO.HuffReader.Refill` | zupt-5.2.10/src/vv_huffman.c:106-121 | a refill changes nothing about what is still to be read and leaves at least 56 bits loaded, or everything |
| `HuffStream.StreamRoundTrip` | zupt-5.2.10/src/vv_huffman.c:448-700 | reading a stream of codes gives the symbols back and uses exactly their bits |
| `HuffStream.HeaderLaid` | zupt-5.2.10/src/vv_huffman.c:398-446 | a header holds the highest symbol with a code and the lengths of all symbols up to it in four bits each, even symbols in the upper halves |
| `HuffStream.CodeStands` | zupt-5.2.10/src/vv_huffman.c:448-508 | in the bits written the code of every symbol stands right behind those before it |
| `HuffCodec.VvhEncode` | zupt-5.2.10/src/vv_huffman.c:448-508 | the output is the frame of the source under the code that its byte counts give it; it fails exactly when that does not fit or is no shorter |
| `HuffCodec.VvhDecode` | zupt-5.2.10/src/vv_huffman.c:619-700 | for every input the decoder has the status, output and consumption of the frame decoder as a function |
| `HuffCodec.FrameRoundTrip` | zupt-5.2.10/src/vv_huffman.c:448-700 | decoding an encoded frame, whatever follows it, gives the source back |
| `HuffMeaning.FrameMeans` | zupt-5.2.10/src/vv_huffman.c:619-700 | for every input with a sound code in its header: symbols are decoded exactly where there is room and their canonical codes, most significant bit first, stand one behind the other in the bits |
| `HuffCodec4.VvhEncode4` | zupt-5.2.10/src/vv_huffman.c:516-606 | the output is the four-lane frame under that code; it fails exactly for inputs below 1024 bytes, outputs below 200 and frames that do not fit or are no shorter |
| `HuffCodec4.VvhDecode4` | zupt-5.2.10/src/vv_huffman.c:719-900 | for every input the decoder with refills hoisted over three symbols of every lane has the result of the frame decoder as a function |
| `HuffCodec4.RobinLoop` | zupt-5.2.10/src/vv_huffman.c:760-880 | rounds of twelve symbols on one refill, without checks, and then the checked loop give the symbols the checked loop alone would give |
| `HuffCodec4.Frame4RoundTrip` | zupt-5.2.10/src/vv_huffman.c:516-900 | decoding a four-lane frame gives the source back and consumes all of it |
| `HuffMeaning.Frame4Means` | zupt-5.2.10/src/vv_huffman.c:719-900 | the same for four lanes: three sizes of three bytes, the first lane having what is left, and symbols dealt out in turn |
| `MlkemField.BarrettReduces` | zupt-5.2.10/src/zupt_mlkem.c:40-46 | Barrett reduction of every 16-bit value gives the congruent value of least magnitude |
| `MlkemField.MontReduces` | zupt-5.2.10/src/zupt_mlkem.c:48-53 | Montgomery reduction gives 2^-16 times the product modulo 3329, within a bound that depends only on one factor |
| `MlkemZetas.TableMeaning` | zupt-5.2.10/src/zupt_mlkem.c:70-90 | every table entry is the power of 17 with the bit-reversed exponent, in Montgomery form |
| `MlkemTransform.InverseUndoes` | zupt-5.2.10/src/zupt_mlkem.c:92-123 | transforming and transforming back multiplies by 2 for every level |
| `MlkemTransform.ShiftCommutes` | zupt-5.2.10/src/zupt_mlkem.c:92-106 | the transform turns multiplication by X into multiplication by X in every leaf |
| `MlkemEvaluation.NttIsRemainder` | zupt-5.2.10/src/zupt_mlkem.c:92-106 | every entry of a transform from any node on is a coefficient of the remainder of the polynomial modulo X^m - g, with g the constant of the leaf |
| `MlkemEvaluation.FullIsTransform` | zupt-5.2.10/src/zupt_mlkem.c:92-106 | pair i of the whole transform is the remainder modulo X^2 - 17^(2 r + 1), r being i with its seven bits in opposite order, as section 4.3 of FIPS 203 defines it |
| `MlkemProduct.ProductIsConvolution` | zupt-5.2.10/src/zupt_mlkem.c:138-150 | the product modulo X^256 + 1 by Horner is the sum over pairs of coefficients with wrap-around to the negative |
| `MlkemProduct.ProductTheorem` | zupt-5.2.10/src/zupt_mlkem.c:92-150 | the transform of a product modulo X^256 + 1 is, leaf by leaf, the product of the transforms |
| `MlkemProduct.MultiplyBack` | zupt-5.2.10/src/zupt_mlkem.c:92-150 | transforming that back gives 128 times the product |
| `MlkemNtt.NttInPlace` | zupt-5.2.10/src/zupt_mlkem.c:92-106 | for every array the three nested loops leave exactly what seven levels of 16-bit butterflies as functions give |
| `MlkemNtt.NttMeans` | zupt-5.2.10/src/zupt_mlkem.c:92-106 | on input with room for what each level may add, those levels are congruent to the transform modulo 3329, so that pair i is the remainder modulo X^2 - 17^(2 r + 1); they stay in 16 bits and leave pairs whose sums are at most twice the bound before the last level |
| `MlkemInverse.InvNttInPlace` | zupt-5.2.10/src/zupt_mlkem.c:108-123 | for every array the loops leave exactly what seven levels of 16-bit inverse butterflies and the scaling as functions give |
| `MlkemInverse.InverseMeans` | zupt-5.2.10/src/zupt_mlkem.c:108-123 | for every 16-bit array that is congruent to 512 times the inverse transform of coefficients with the same differences of pairs and with the sums the first level forms in 16 bits |
| `MlkemInverse.InverseExact` | zupt-5.2.10/src/zupt_mlkem.c:108-123 | for every 16-bit array: the result is congruent to 512 times the inverse transform exactly when the sum of every pair of the first level fits 16 bits |
| `MlkemInverse.TransformUndoes` | zupt-5.2.10/src/zupt_mlkem.c:92-123 | transforming back and transforming again multiplies by 2 for every level |
| `MlkemInverse.InverseInjective` | zupt-5.2.10/src/zupt_mlkem.c:108-123 | arrays with congruent inverse transforms are congruent |
| `MlkemUnreduced.UnreducedExact` | zupt-5.2.10/src/zupt_mlkem.c:92-123 | without a reduction in between, there and back multiplies by 2^16 exactly when the pair sums of the transform fit 16 bits |
| `MlkemUnreduced.UnreducedFits` | zupt-5.2.10/src/zupt_mlkem.c:674-692 | for coefficients of at most 3751, and so for all input up to q, there and back without a reduction multiplies by 2^16 |
| `MlkemUnreduced.NotRestored` | zupt-5.2.10/src/zupt_mlkem.c:115 | three coefficients of at most 13578, which the transform keeps in 16 bits, become a pair with the sum 34224 and are not restored |
| `MlkemPoly.PolyBasemul` | zupt-5.2.10/src/zupt_mlkem.c:138-150 | the loop over pairs gives 2^-16 times the product of the transforms, leaf by leaf |
| `MlkemPoly.PolyReduce` | zupt-5.2.10/src/zupt_mlkem.c:158-160 | every coefficient is replaced by its centred residue |
| `MlkemPoly.ThereAndBack` | zupt-5.2.10/src/zupt_mlkem.c:92-160 | transforming, reducing and transforming back multiplies by 2^16 modulo 3329 |
| `MlkemPoly.Multiply` | zupt-5.2.10/src/zupt_mlkem.c:92-160 | transforming two polynomials, multiplying, reducing and transforming back gives their product modulo X^256 + 1 and 3329 |
| `MlkemVector.InnerProduct` | zupt-5.2.10/src/zupt_mlkem.c:173-196 | the same for the accumulated product of two vectors of three polynomials, one of them stored transformed |
| `LzEmit.ReadVarint` | zupt-5.2.10/src/vv_encoder.c:115-121 | a length extension is read back as written, whatever follows |
| `LzEmit.DecodeSequence` | zupt-5.2.10/src/vv_encoder.c:911-940 | an emitted sequence decodes to its literals and its match, and decoding goes on behind it |
| `LzGrammar.TokensMean` | zupt-5.2.10/src/vv_decoder.c:136-465 | for every token stream: it decodes to an output exactly where its bytes spell it out: two nibbles, bytes of 255 that extend them, the run, two or three bytes of offset, lowest first, and copies byte by byte |
| `LzCompress.EmitSeq` | zupt-5.2.10/src/vv_encoder.c:911-940 | the bytes stored are exactly the emitted form of the sequence |
| `LzMatcher.ExtendMatch` | zupt-5.2.10/src/vv_encoder.c:156-209 | comparing eight bytes at a time and then single bytes gives the length of the longest common run up to the limit |
| `LzMatcher.Matcher.InsertAt` | zupt-5.2.10/src/vv_encoder.c:466-515 | an insertion makes the position the root of its hashes and links it to the former roots, in each table in use |
| `LzMatcher.Matcher.TryRepMatch` | zupt-5.2.10/src/vv_encoder.c:518-558 | the match found is the first recent offset at which the bytes match |
| `LzMatcher.Matcher.ChainMatch` | zupt-5.2.10/src/vv_encoder.c:564-823 | the match found is the one the chain walks define, over every table content |
| `LzMatcher.Matcher.ProbeMatch` | zupt-5.2.10/src/vv_encoder.c:855-897 | the match found is the one the stripped chain walk defines |
| `LzChains.ChainedEmpty` | zupt-5.2.10/src/vv_encoder.c:440-463 | cleared tables are true of no insertions |
| `LzChains.InsertChains` | zupt-5.2.10/src/vv_encoder.c:466-515 | an insertion keeps the tables true: the root of a hash is the newest position inserted under it, and every position not overwritten links to the next older one |
| `LzChains.RepeatsAreVisited` | zupt-5.2.10/src/vv_encoder.c:564-897 | a position inserted at which five bytes match is visited by a walk, if it is inside the window and fewer newer positions of its hash were inserted than the walk is deep |
| `LzWalks.WalkWins` | zupt-5.2.10/src/vv_encoder.c:564-897 | of the positions a walk visits none before the one it settles on matches as well, and none behind it better, unless 256 bytes ended the walk; by length alone, or by six bits a byte against the logarithm of the offset |
| `LzWalks.ProbeIsLongest` | zupt-5.2.10/src/vv_encoder.c:855-897 | the stripped walk returns a longest of the matches of four bytes or more it visits, the first of them |
| `LzWalks.ChainIsBest` | zupt-5.2.10/src/vv_encoder.c:564-823 | on the chain of five bytes, and, where that has nothing, on the first eight of the chain of four, no candidate visited makes up by its length for what its offset costs more |
| `LzShort.ShortIsLongest` | zupt-5.2.10/src/vv_encoder.c:743-812 | the whole finder: the match of the longer chains where they have one; otherwise, with matches of three bytes in use, the first of the longest of four positions on their chain, three bytes alone counting only up to 4096 back, unless one of eight bytes ended the walk; nothing exactly where there is none |
| `LzWalks.RepIsFirst` | zupt-5.2.10/src/vv_encoder.c:518-558 | the match at a recent offset is at the first of the three where enough bytes match, and no longer one is there |
| `LzParse.ParseDecodes` | zupt-5.2.10/src/vv_encoder.c:1446-1693 | whatever the hash tables and chains hold and whatever recent offsets within the window, tokens of the greedy or lazy parser decode, after the bytes before the block, to exactly the block, with every offset within the window |
| `LzSteps.MoveSteps` | zupt-5.2.10/src/vv_encoder.c:1458-1677 | one step, in numbers: a match at a recent offset stands if it has eight bytes or is no shorter than the one found by walking; unless fast, one of fewer than eight bytes gives way to one at the next position that costs fewer bits for a byte (six for a literal, two for a recent offset, or fourteen or eighteen and those of the offset); which positions are inserted, each once; when there is no room; how far the parser goes where there is no match, and when it gives up |
| `LzSteps.BlockSteps` | zupt-5.2.10/src/vv_encoder.c:1446-1693 | the tokens, recent offsets and tables of a block are those that such steps from its start come to, with the pending literals at the end, or nothing where they end for lack of room or of any match |
| `LzCompress.CompressBlock` | zupt-5.2.10/src/vv_encoder.c:1446-1693 | the parser over its arrays returns exactly the tokens, recent offsets and tables of the parse as a function, or 0 where that yields nothing |
| `LzCompact.PageSame` | zupt-5.2.10/src/vv_encoder.c:302-358 | from tables whose reachable roots are empty, whatever else they hold, a matcher with any chain length of at least the input chooses what a fully cleared matcher chooses |
| `LzCompact.FastContext.Compress` | zupt-5.2.10/src/vv_encoder.c:2050-2110 | for every input of at most 64 KiB and every stale content of its storage, the 16-bit context emits exactly the tokens of the cleared 32-bit matcher |
| `LzCompact.PageDecodes` | zupt-5.2.10/src/vv_encoder.c:2050-2110 | those tokens decode to the page |
| `LzCompact.ChainSlots` | zupt-5.2.10/src/vv_encoder.c:2007-2012 | the number of slots is the smallest power of two that is no smaller than the input |
| `LzOptimal.MoveKeeps` | zupt-5.2.10/src/vv_encoder.c:1310-1385 | every visit of the forward loop starts and ends on a reached node, keeps every recorded edge consistent with its price and recent offsets, and settles the edges it tried: none leads to a node more cheaply, or as cheaply from further on; nodes reached from the visited one record a literal, the one long match, or the first of the cheapest candidates at a length tried |
| `LzCands.CollectLists` | zupt-5.2.10/src/vv_encoder.c:1170-1214 | the candidates at a position have all the bytes that match at their offsets, and unless there are sixteen, or one of 512 bytes, every recent offset and every position on the chain where four bytes match is among them |
| `LzOptimalParse.RunKeeps` | zupt-5.2.10/src/vv_encoder.c:1310-1385 | the forward loop ends exactly on the last node, which is reached, with all of that still true |
| `LzOptimalParse.PathExact` | zupt-5.2.10/src/vv_encoder.c:1142-1166 | the price of a node is exactly the model cost of the path recorded for it, and its recent offsets are those of replaying that path |
| `LzOptimalParse.BestPath` | zupt-5.2.10/src/vv_encoder.c:1387-1397 | tracing back from the last node tiles the block, at exactly the price of that node |
| `LzOptimalParse.OptimalDecodes` | zupt-5.2.10/src/vv_encoder.c:1215-1435 | whatever the tables and the prices, the tokens of the optimal parse decode to exactly the block |
| `LzPath.PriceOnWire` | zupt-5.2.10/src/vv_encoder.c:1142-1156 | a match is charged eight bits, the code its offset gets on the wire with the extra bits of that code, and eight bits from 19 bytes on and again for every 255 bytes above 4 |
| `LzPath.OptimalEmits` | zupt-5.2.10/src/vv_encoder.c:1215-1435 | where the tokens parse, their matches are exactly those of the best path, in order; the recent offsets of the last node are the last three offsets of that path without zeros and immediate repeats |
| `LzOptimalRun.CompressOptimal` | zupt-5.2.10/src/vv_encoder.c:1215-1435 | the arrays and loops give exactly those tokens, or 0 when they do not fit or the block ends past 2^31-1 |
| `LzCopy.CopyMatchScalar` | zupt-5.2.10/src/vv_simd.c:26-78 | the chunked and byte-wise copy tiers leave exactly the byte-by-byte overlapping copy |
| `LzCopy.HotCopy` | zupt-5.2.10/src/vv_decoder.c:63-125 | the over-writing copies leave the same bytes below the new position, and write nothing past the end of the output |
| `LzDecode.TwoPhase` | zupt-5.2.10/src/vv_decoder.c:136-423 | warm-up, hot loop and plain loop accept exactly the token streams that the plain meaning accepts, leave the same bytes, and touch nothing from the end of the output on |
| `LzDecode.LengthsFit` | zupt-5.2.10/src/vv_decoder.c:136-423 | no length read from fewer than 2^24 token bytes leaves 32 bits, so that the casts of the hot loop cut nothing off |
| `LzStripped.SplitDecodes` | zupt-5.2.10/src/vv_encoder.c:1705-1765 | every token stream that decodes splits into literals and stripped tokens that decode to the same output |
| `LzStripped.ExtractLiterals` | zupt-5.2.10/src/vv_encoder.c:1705-1765 | the loop returns exactly that split, or fails where there is none |
| `LzStripped.StrippedLoop` | zupt-5.2.10/src/vv_decoder.c:466-529 | the decoder of stripped tokens has, in place, exactly their meaning over the given literals, errors included |
| `LzGrammar.StrippedMean` | zupt-5.2.10/src/vv_decoder.c:466-529 | the same for stripped tokens, whose runs come from the literals apart |
| `LzStarved.SplitNeeds` | zupt-5.2.10/src/vv_encoder.c:1705-1765 | stripped tokens ask for exactly as many literals as were taken out |
| `LzStarved.LiteralDecodesExactly` | zupt-5.2.10/src/vv_encoder.c:1948-1949 | a literal-only block decodes to the block when both of its counts fit sixteen bits; it is refused when the literals do not and the size does, and when neither does and its four lanes are cut off, or its number of literals is cut to 0 with no output before it |
| `VvEmit.WrittenReads` | zupt-5.2.10/src/vv_encoder.c:1803-1980 | whichever of the four codings of a block wins, if it decodes to the block then the bytes written are read back as the block, whatever follows |
| `VvEmit.WrittenSize` | zupt-5.2.10/src/vv_encoder.c:1803-1980 | a block takes at most six bytes more than it holds; without entropy coding it is its tokens if they are shorter than the block; with it, in the first format, it is at most two bytes longer than any candidate; in the second, it is its sequence coding exactly if that is shorter than the tokens and than the block as it is |
| `VvCompress.ShortTokensStored` | zupt-5.2.10/src/vv_encoder.c:1905-1979 | in the second format a block whose tokens take at most 31 bytes is stored as it is |
| `VvLaw.WindowCovered` | zupt-5.2.10/src/vv_decoder.c:693-706 | every offset of an encoder window is within the bound the decoder derives from the header |
| `VvLaw.SequencesDecode` | zupt-5.2.10/src/vv_encoder.c:1855-1870 | a sequence coding of tokens that decode to a block decodes to the block under every lawful block decoder |
| `VvLaw.StandardIsLawful` | zupt-5.2.10/src/vv_decoder.c:430-690 | there is a lawful block decoder: the meanings of all payloads put together |
| `VvBlocks.DecodePayload` | zupt-5.2.10/src/vv_decoder.c:780-816 | the in-place block decoders behind their dispatch on the tag yield what the law says, behind the output that was there, which they keep |
| `VvPayload.TokensStand` | zupt-5.2.10/src/vv_decoder.c:430-465 | a lawful decoder decodes plain tokens to a block exactly where they spell it out |
| `VvPayload.LiteralOnlyStands` | zupt-5.2.10/src/vv_decoder.c:551-659 | a payload with tag 0x41, 0x48 or 0x49 is decoded exactly where two counts of two bytes, the coded literals and the stripped tokens over them spell the block out |
| `VvPayload.SequencedStands` | zupt-5.2.10/src/vv_decoder.c:780-816 | a payload with tag 0x53 or 0x54 is decoded to a block only where some literal buffer, and always where every one, makes its bytes stand for it |
| `VvPayload.OthersRefused` | zupt-5.2.10/src/vv_decoder.c:780-816 | but for 0x43, every other tag is refused |
| `VvFrame.ReadBlockLocal` | zupt-5.2.10/src/vv_decoder.c:740-816 | a block that is read, or refused, does not depend on the bytes that follow it |
| `VvFrame.DecompressAll` | zupt-5.2.10/src/vv_decoder.c:712-858 | the loops over frames and blocks return exactly the output or error that decoding as a function defines |
| `VvGrammar.BlockAccepted` | zupt-5.2.10/src/vv_decoder.c:740-816 | a block is read exactly where the bytes are one: type, mark of the last and size in four bytes, then the bytes, the byte to repeat, or a three-byte size and a payload that decodes to that size |
| `VvGrammar.FrameAccepted` | zupt-5.2.10/src/vv_decoder.c:712-858 | a frame is read exactly where the bytes are one and there is room: magic number, version, flags, window; blocks; and with the first flag the XXH64 of what they yield, before the branch filter is undone, and the second magic number |
| `VvGrammar.InputAccepted` | zupt-5.2.10/src/vv_decoder.c:712-858 | for every input and room: decompressing yields an output exactly where the input is one frame after the other that stand for it |
| `VvStream.AnyChunks` | zupt-5.2.10/src/vv_decoder.c:1005-1167 | the final state and output of the streaming decoder are the same for any two ways of cutting the input into chunks |
| `VvStream.SameAsAtOnce` | zupt-5.2.10/src/vv_decoder.c:1005-1167 | however one frame is cut, the streaming decoder finishes with bytes exactly when decoding at once yields those bytes; where it gives up, decoding at once gives up for the same reason |
| `VvDstream.Queue.Append` | zupt-5.2.10/src/vv_decoder.c:958-993 | appending, with compaction and growth by doubling, puts the bytes behind the unread ones |
| `VvDstream.Queue.Consume` | zupt-5.2.10/src/vv_decoder.c:994-1003 | consuming drops that many unread bytes from the front |
| `VvDstream.DStream.Chunk` | zupt-5.2.10/src/vv_decoder.c:1005-1167 | a call on the object with its buffers leaves exactly the state and output that feeding the chunk to the state machine defines, and reports it |
| `VvGrammar.StreamAccepted` | zupt-5.2.10/src/vv_decoder.c:1005-1167 | however the input is cut, the streaming decoder finishes with an output exactly where the input begins with a frame that stands for it, checksum included |
| `Xxh64.HashAtOnce` | zupt-5.2.10/src/vv_xxh64.c:68-124 | the loops over stripes and tail compute the hash |
| `Xxh64.StripesSplit` | zupt-5.2.10/src/vv_xxh64.c:141-183 | hashing whole stripes of a concatenation is hashing those of the first part and then those of what it left over together with the second |
| `Xxh64.State.Update` | zupt-5.2.10/src/vv_xxh64.c:141-183 | the object stays in step with all bytes fed so far, for every way of cutting them |
| `Xxh64.State.Finalize` | zupt-5.2.10/src/vv_xxh64.c:185-229 | the digest is the hash at once of everything that was fed |
| `VvCompress.EmitBlock` | zupt-5.2.10/src/vv_encoder.c:1803-1980 | the block written is read back as the block, or it is a literal-only block with more than 65535 literals, and then it is refused when a cut count shows; it is made of the tokens of the parser, their sequence coding and their literal coding, and takes the room `VvEmit.WrittenSize` states |
| `VvCompress.CompressInner` | zupt-5.2.10/src/vv_encoder.c:2176-2520 | a frame whose blocks are all readable decompresses to the source, one with an unreadable block is refused; every block is readable in fast mode, in the second format and for sources below 64 KiB; a destination of vv_compress_bound bytes is always enough; header fields stand at their bytes, there is a block for every mebibyte begun, and each is made from its part of the source |
| `VvCompress.Compress` | zupt-5.2.10/src/vv_encoder.c:2125-2175 | the same with a branch filter applied first: the frame decompresses to the unfiltered source |
| `LostSource.SourceIsFresh` | zupt-5.2.10/src/vv_encoder.c:1446-1693 | in the counterexample source no four bytes recur before position 65539 |
| `LostSource.ParseIsShaped` | zupt-5.2.10/src/vv_encoder.c:1446-1693 | every greedy or lazy matcher of the first format, whatever its tables hold, turns that source into one literal run of more than 65538 bytes and one match to the end |
| `LostFrame.LostFrame` | zupt-5.2.10/src/vv_encoder.c:1948-1949 | in balanced mode and the first format vv_compress turns that source into a frame that every lawful decoder refuses |
| `ZuptLz.FindMatch` | zupt-5.2.10/src/zupt_lz.c:51-86 | the walk over the hash chain returns exactly the match the search as a function finds, which really is one |
| `ZuptLz.RestoresAlike` | zupt-5.2.10/src/zupt_lz.c:200-240 | whatever token stream decodes by the plain meaning of tokens, this decoder decodes to the same bytes |
| `ZuptLz.RoundTrip` | zupt-5.2.10/src/zupt_lz.c:104-240 | what was compressed is restored, for every source below 2^31 bytes, every depth and laziness, and whatever the hash table held |
| `ZuptLz.Compress` | zupt-5.2.10/src/zupt_lz.c:104-198 | the loops store exactly the tokens of the parser as a function, which restore the source, or return 0 for an empty source and when they do not fit |
| `ZuptLz.Decompress` | zupt-5.2.10/src/zupt_lz.c:200-240 | for every input the loop leaves exactly the bytes the decoder as a function restores, or returns 0 where it restores nothing |
| `ZuptSteps.FindIsLongest` | zupt-5.2.10/src/zupt_lz.c:51-86 | the match found is the first of the longest among the positions the chain leads to, unless one of 256 bytes ended the search; nothing exactly where none has three bytes |
| `ZuptSteps.ParseSteps` | zupt-5.2.10/src/zupt_lz.c:119-195 | the tokens are those of the steps of the parser: the match found, or, where the level is lazy, the one at the next position if it is longer by two bytes or more; which positions are inserted; nothing exactly where a sequence does not fit |
| `LzhRuns.RleBack` | zupt-5.2.10/src/zupt_lzh.c:112-144 | coding runs of zeros is undone in any buffer that holds the source |
| `LzhRuns.RleEncode` | zupt-5.2.10/src/zupt_lzh.c:112-132 | stores exactly the coded runs, or returns 0 when they do not fit or are no fewer bytes |
| `LzhRuns.RleDecode` | zupt-5.2.10/src/zupt_lzh.c:134-144 | for every input the loop leaves exactly the bytes of the run decoder as a function, or returns 0 when a run does not fit |
| `LzhMeaning.ExpandsMeans` | zupt-5.2.10/src/zupt_lzh.c:134-144 | zero runs are expanded to an output exactly where the bytes stand for it: a zero and a count, a count of 0 meaning one |
| `LzhRuns.ClBack` | zupt-5.2.10/src/zupt_lzh.c:363-440 | code lengths of at most fifteen are read back from their runs, whatever length came before |
| `LzhRuns.ClShort` | zupt-5.2.10/src/zupt_lzh.c:363-412 | coded lengths are no more than the lengths, each below 256, so that the buffer always suffices and the fallback for an empty result is never taken |
| `LzhRuns.ClDecode` | zupt-5.2.10/src/zupt_lzh.c:416-440 | for every input the loop leaves exactly the lengths of the run decoder as a function, or fails where it fails |
| `LzhMeaning.LengthensMeans` | zupt-5.2.10/src/zupt_lzh.c:416-440 | runs of code lengths stand for lengths exactly where 16, 17 and 18 repeat the last literal length, three and more zeros, and eleven and more zeros |
| `LzhTree.SiftUp` | zupt-5.2.10/src/zupt_lzh.c:187-193 | a heap but for one entry that may be too light becomes a heap of the same entries |
| `LzhTree.SiftDown` | zupt-5.2.10/src/zupt_lzh.c:178-186 | a heap but for one entry that may be too heavy becomes a heap of the same entries |
| `LzhTree.TakeTwo` | zupt-5.2.10/src/zupt_lzh.c:219-220 | the two entries popped are the two lightest, and what stays is a heap of the others |
| `LzhTree.MergeTwo` | zupt-5.2.10/src/zupt_lzh.c:218-224 | a merge keeps the symbols of the forest, each once, and that no code for them can do without what was spent on internal nodes and what the trees on the heap still need |
| `LzhTree.Merge` | zupt-5.2.10/src/zupt_lzh.c:212-224 | the child arrays hold a tree over exactly the symbols that occur, and no code, of whatever lengths satisfy the Kraft inequality, is cheaper |
| `LzhTree.Clamped` | zupt-5.2.10/src/zupt_lzh.c:195-200 | clamping depths at fifteen never leaves code space unused, and codes below fifteen bits alone never overfill it |
| `LzhTree.RoundEffect` | zupt-5.2.10/src/zupt_lzh.c:255-268 | a round of the repair lowers the Kraft sum by exactly one and keeps the number of symbols |
| `LzhTree.Redistribute` | zupt-5.2.10/src/zupt_lzh.c:248-268 | the repair never drives a count below zero, always finds a symbol to move, keeps the number of symbols and ends at a Kraft sum of exactly 1; it splits the deepest: levels below some length are as they were, and of those behind it, before fifteen, each has at most one symbol, but for two where all behind it have none |
| `LzhTree.ClampedLengths` | zupt-5.2.10/src/zupt_lzh.c:195-228 | the depths of a complete tree that is an optimal code, clamped at fifteen, fill the code space, and are that code if no length of it is above fifteen |
| `LzhTree.LimitLengths` | zupt-5.2.10/src/zupt_lzh.c:230-296 | lengths of at most fifteen for exactly the symbols that occur, with a Kraft sum of exactly 1; after a repair, with these counts, a more frequent symbol, or one as frequent with a smaller number, has no longer code; without a code of fifteen bits no code is cheaper |
| `LzhCodes.HuffBuild` | zupt-5.2.10/src/zupt_lzh.c:202-316 | the lengths and canonical codes of every histogram: one bit for a lone symbol; for more the lengths of an optimal code with a complete tree, clamped at fifteen, where that leaves room for all codes, and otherwise what the repair makes of them; the code is complete, and optimal, too, if no length is fifteen |
| `LzhCodes.BuildLut` | zupt-5.2.10/src/zupt_lzh.c:319-343 | every entry of the table says which code, the last one entered if there were several, its fifteen bits start with |
| `LzhCodes.FindsSymbol` | zupt-5.2.10/src/zupt_lzh.c:345-351 | bits that start with the code of a symbol are decoded as that symbol |
| `LzhCodes.RestFits` | zupt-5.2.10/src/zupt_lzh.c:43-78 | every length from 3 to 4322 and distance from 1 to 1048576 has a code whose extra bits hold the rest |
| `LzhBits.Writer.Put` | zupt-5.2.10/src/zupt_lzh.c:154-157 | adding a field extends the number written so far by that field above its bits, whether or not its bytes fit |
| `LzhBits.Writer.Flush` | zupt-5.2.10/src/zupt_lzh.c:158-160 | after the flush the buffer holds the bytes of the bit stream, as many of them as there is room for |
| `LzhBits.Get` | zupt-5.2.10/src/zupt_lzh.c:162-167 | reading returns the lowest bits of what is still to be read and leaves the rest, with zeros past the end |
| `LzhStream.UnpackFields` | zupt-5.2.10/src/zupt_lzh.c:708-852 | the decoding loop over the bits of coded symbols yields what the symbols mean, in any buffer that holds it |
| `LzhStream.PutAll` | zupt-5.2.10/src/zupt_lzh.c:707-728 | the loops write exactly the bit stream of the symbols and the end mark |
| `LzhStream.UnpackAll` | zupt-5.2.10/src/zupt_lzh.c:825-855 | for every input and all code lengths the loop leaves exactly the bytes of the decoder as a function |
| `LzhMeaning.UnpackMeans` | zupt-5.2.10/src/zupt_lzh.c:825-855 | for every input with sound codes: the decoder yields an output exactly where canonical codes, most significant bit first, and the extra bits of lengths and distances play it out |
| `LzhParse.ParseYields` | zupt-5.2.10/src/zupt_lzh.c:553-623 | the symbols of the parser mean the source, for every source and setup and whatever the hash table holds |
| `LzhParse.ParseOk` | zupt-5.2.10/src/zupt_lzh.c:553-623 | every length and distance has a code, and there are no more symbols than bytes |
| `LzhParse.FindMatch` | zupt-5.2.10/src/zupt_lzh.c:453-493 | the walk over the chain returns exactly the match the search as a function finds, which really is one |
| `LzhParse.ParseAll` | zupt-5.2.10/src/zupt_lzh.c:562-623 | the loops with up to three steps of lazy evaluation give exactly the symbols of the parser as a function |
| `LzhSteps.FindIsLongest` | zupt-5.2.10/src/zupt_lzh.c:457-493 | the match found is the first of the longest among the positions the chain leads to, unless one of 4322 bytes, or of 512 behind the first quarter of the candidates, ended the search; nothing exactly where none has as many bytes as a match must |
| `LzhSteps.ParseSteps` | zupt-5.2.10/src/zupt_lzh.c:562-623 | the symbols of the source are those of its steps: a literal where nothing is found, or the match found, given up for one at the next position that is two bytes longer or more, up to three times and no more often than the level allows; and which positions are inserted |
| `LzhCodec.LensBack` | zupt-5.2.10/src/zupt_lzh.c:672-805 | code lengths are read back from the header, whatever follows them |
| `LzhCodec.FrameBack` | zupt-5.2.10/src/zupt_lzh.c:528-863 | decompressing a whole frame gives the source back, in any buffer that holds it |
| `LzhCodec.Compress` | zupt-5.2.10/src/zupt_lzh.c:528-735 | for every source below 2^31 bytes, level and table: what is stored is a frame that restores the source, made of the symbols of the parser under the codes their counts give them, behind zero runs exactly if over an eighth of the bytes are zeros and that saves over a tenth; or the beginning of it when the buffer is full, which a buffer as large as the source never is; 0 when the head does not fit or nothing is gained; where the buffer holds the head alone, what is stored restores no source of two different bytes |
| `LzhCodec.Decompress` | zupt-5.2.10/src/zupt_lzh.c:738-863 | for every input the tables and loops leave exactly the bytes of the decoder as a function |
| `LzhMeaning.RestoreMeans` | zupt-5.2.10/src/zupt_lzh.c:738-863 | for every input with sound codes: the first bit says whether four bytes of size follow and zero runs are expanded; two sizes, two lists of code lengths and the bits decide what is restored |
| `LzhMeaning.NothingWithoutBooks` | zupt-5.2.10/src/zupt_lzh.c:738-812 | from input in which no two lists of code lengths stand nothing is restored |
| `LzhCodec.CutAtHead` | zupt-5.2.10/src/zupt_lzh.c:707-735 | a head without its stream restores no source of two different bytes, into whatever buffer |
| `DedupIndex.AddIsFirstInsert` | zupt-5.2.10/src/zupt_dedup.c:84-133 | an insertion changes the lookup of its key alone, and only if it was not found before and there is room: the table is a map that keeps first entries |
| `DedupIndex.Index.Lookup` | zupt-5.2.10/src/zupt_dedup.c:84-108 | the probing loop returns exactly what the table maps the key to |
| `DedupIndex.Index.Insert` | zupt-5.2.10/src/zupt_dedup.c:110-133 | the probing loop performs exactly that insertion, or reports that there is no room |
| `DiskFrames.LebBack` | zupt-5.2.10/src/zupt_format.c:262-307 | every 64-bit number is read back as written, whatever follows |
| `DiskFrames.LebOneWay` | zupt-5.2.10/src/zupt_format.c:265-285 | the reader accepts only the one encoding of a number that the writer writes |
| `DiskFrames.FrameBack` | zupt-5.2.10/src/zupt_format.c:3512-3535 | a block frame is read back as written, whatever follows |
| `DiskChecks.FrameIsLaid` | zupt-5.2.10/src/zupt_format.c:3512-3535 | the bytes of a block frame are its fields in order, numbers in groups of seven bits |
| `DiskChecks.FrameOneWay` | zupt-5.2.10/src/zupt_format.c:3512-3535 | a frame is read from bytes exactly where they are laid out as that frame |
| `DiskImage.RestoreRest` | zupt-5.2.10/src/zupt_disk.c:1355-1522 | from every state of the backup loop on, the restore loop rebuilds the rest of the image from the rest of the frames |
| `DiskImage.RestoreBackup` | zupt-5.2.10/src/zupt_disk.c:727-908 | restoring what was backed up gives the image, for every image, block size and combination of compression, encryption and deduplication |
| `DiskChecks.ReferredExactly` | zupt-5.2.10/src/zupt_disk.c:727-908 | with deduplication on, a block is written as a reference exactly where the table holds its key with a block of the same size, and refers to that; otherwise its data are written |
| `DiskChecks.RestoredExactly` | zupt-5.2.10/src/zupt_disk.c:1355-1522 | an archive is restored to an image exactly where its frames stand for the blocks of it, fingerprints and digests included |
| `DiskRun.RunBackup` | zupt-5.2.10/src/zupt_disk.c:727-908 | the block loop over the device writes exactly the archive, count and content hash of the backup as a function |
| `DiskRun.RunRestore` | zupt-5.2.10/src/zupt_disk.c:1355-1530 | the restore loop and its final checks return exactly the image or failure of the restore as a function |
| `BranchFilterX86.SameTarget` | zupt-5.2.10/src/vv_bcj.c:45-105 | what the conversion is for: two operands converted while encoding under an empty mask become equal bytes exactly when they reach the same target, up to 25 bits |
| `BranchFilterX86.FirstBranch` | zupt-5.2.10/src/vv_bcj.c:45-105 | in either direction the first opcode of a buffer, where its operand looks like a displacement, gets that displacement moved by its position as its operand; the bytes before it stay, and the filter goes on behind it with an empty mask |
| `BranchFilterX86Rule.FilterByRule` | zupt-5.2.10/src/vv_bcj.c:45-105 | for every buffer, start and direction, the opcodes converted are exactly those, outside the operands of others, whose operand ends in 00 or FF and before which, among three bytes, there is no opcode left unconverted, or one alone, behind which the fourth byte is neither; each gets its displacement moved by its position in 25 bits, moved twice around a complement where the byte next to the unconverted one would become 00 or FF; every other byte stays |

## Left out

- BranchFilterX86.SameTarget: only operands converted while encoding under an empty mask; what all others become is in `BranchFilterX86Rule.FilterByRule`.
- VvCompress.Compress: frames with a literal-only block whose coding has 64 KiB or more, and whose number of literals is a multiple of 65536 behind the first block or no multiple in a single stream, are neither claimed to be read back nor to be refused, because what their decoder then reads as tokens is arbitrary.
- VvCompress.Compress: sources that end less than 1 MiB below 2 GiB or beyond, because the greedy parser keeps positions in 32 bits without a check.
- VvCompress.Compress: the choice of mode, window and filter, the prices of the optimal parser and the window trial are inputs, as they only steer choices; the theorems hold for all of them.
- SeqRace.RaceGuessed: the two size estimates for 4096 literals and more are inputs, functions of the literals; the theorems hold for all of them.
- VvFrame.DecompressAll: which error is reported for a payload that does not decode is the business of the block decoders; the law in `VvLaw` fixes their output and whether they fail.
- VvStream.SameAsAtOnce: about one frame, as the streaming decoder ends with the first one; the output buffer and its capacity stay the same throughout.
- LzDecode.TwoPhase: acceptance and bytes, not the error code, which differs between the hot and the plain loop of the source.
- SeqCodec.BlockRoundTrip: lengths and offsets must be representable, which `SeqCodes.CodeBack` and `SeqCodes.OffsetBack` characterise and `LzTame` proves of the tokens the parsers emit.
- SeqCodec.EncodeSequences: token streams of at most 5702886 bytes, as for a longer one the tree of the literal coder might have more than 32 levels; blocks are at most 1 MiB.
- HuffLengths.BuildCodeLengths: totals below 5702887, the Fibonacci bound for 32 levels; the source indexes an array of 32 counters without a check. Which of several optimal codes the tree is, where weights are equal, is not stated, nor is it for `LzhCodes.HuffBuild`.
- LzOptimalParse.BestPath: the price is that of the recorded path; the parse need not be the cheapest of all, because each node keeps one rep history.
- DiskImage.RestoreBackup: with deduplication, two blocks with equal fingerprint and digest prefix must be equal; ciphers, hashes and block codecs are parameters that invert as their interfaces promise; header, index and footer are not modelled, the counts and the hash are handed over.
- Xxh64.State.Finalize: inputs below 2^64 bytes.
- Xxh64.HashAtOnce: the rounds and constants of XXH64 are taken over as they stand; no property of their own, and no test vector, is proved of them.
- HuffMeaning.FrameMeans: headers whose code lengths overfill the code space, which the encoder never writes and the decoder reads by a rule of precedence.
- LzhMeaning.RestoreMeans: nor such headers.
- LzChains.InsertChains: the multipliers of the hashes are taken over, here and in the two older codecs; only that equal bytes have equal hashes is used.
- LzOptimal.MoveKeeps: which positions the forward loop inserts behind a long match is modelled as the source does it and not stated on its own.
- The order-1 context coder (tag 'C'), which the encoder no longer emits.
- ZuptLz.Compress: sources of at most 2^31-1 bytes, as positions are kept in 32 bits; that `zupt_lz_bound` bytes always suffice is not claimed.
- LzhCodec.Compress: sources of at most 2^31-1 bytes; the writer's accumulator is not limited to 64 bits, so that for a destination that overflows the shifts past bit 63, whose results are never stored, are not modelled; raw code lengths are never written, as coded ones always fit, but they are read.
- LzhCodec.Decompress: the count of bits past the end of the input is an unbounded number, where the source has 32 bits.
- LzhCodes.HuffBuild: frequencies are unbounded numbers; the 32-bit sums of the source suffice for sources below 2^31 bytes.
- SIMD dispatch and the AVX2, SSE2 and NEON copies, prefetching, threads, allocation failure, secure wiping.
- The compressing stream `vv_cstream` and `vv_compress_mt`.
- Bitwise operations are modelled on numbers: an exclusive or with low ones as the complement of low digits, an or of disjoint bits as addition, a count of trailing zeros of a difference as the first byte that differs.
- Chains are arrays indexed modulo their length, as the source masks with a power of two.
- The in-place insertion sorts of occurrences in `build_enc` are shown to change nothing, since the occurrences arise in order.
- The lanes of the four-lane decoders are stepped one after another within a quad; the source interleaves them for speed.
- Files, devices, clocks, keys, password handling, archives of files and the user interface.
- AES, SHA, HMAC, Keccak, the secrecy of ML-KEM, its sampling and its encodings.
