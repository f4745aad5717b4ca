# Text and tensor algebra of the chat parser, the LoRA converter and the codecs

A Dafny model of the parts of this repository that transform data in memory and are relied on for
their exact meaning, with proofs of what they keep.

**Low-rank tensors** (`convert_lora_to_gguf.py`). A tensor is stored as two factors B and A. `Tensors`
and `TensorOps` define dense row-major tensors of any rank and torch's operations on them;
`LoraTensor` defines the dense product B·A that two factors stand for. `LoraReshape`, `LoraPermute`,
`LoraIndexing`, `LoraSubscript`, `LoraSplit`, `LoraStack` and `LoraScale` model the operations on the
factors and relate each one to the same operation on the product; `LoraEntries` says of each what happens
to the single entries, without torch's operations, and `LoraAccepts` which shapes are accepted;
`LoraLimits` holds requests on which the two part ways.

**Streaming tool-call assembly** (`common/chat-peg-parser.cpp`, `common/chat.cpp`, `common/chat.h`). A
growing model output is parsed again and again. `QuoteNormalizer`, `JsonText` and `PegMapper` model
the mapper and its text transformations; `PythonValues` is about values in Python's notation, which the
normaliser turns into JSON; `ToolCallAssembly` and `NamePosition` are about one call, `MapperMeaning` and
`CallMeaning` about what a parse reports, in terms of the texts of its nodes;
`MessageDiff` and `MessageStream` are the deltas and the server's stream state; `StreamedParse` puts
them together. `Gemma4Json`, `Gemma4Value` and `Gemma4Stream` do the same for the tree-shaped
arguments of Gemma 4, with `JsonReader` as a strict reader of the JSON text that comes out.

**From the text of a Gemma 4 output to the client** (`common/peg-parser.cpp`, `common/chat.cpp`).
`PegMatch` models the leaf parsers of the PEG engine in its lenient mode, `Gemma4Number` and
`Gemma4Parser` the grammar of tool arguments, `Gemma4Output` the grammar of a whole output with
thoughts, contents and tool calls. `Gemma4Partial` and `Gemma4Complete` are about argument trees of
texts that have partly or completely arrived; `Gemma4Chunks` and `Gemma4Drops` end in
`StreamsExactly`, which says for which outputs streaming works however they are cut into chunks.
`Gemma4Writer` defines the notation of arguments and `Gemma4Exact` shows that the grammar reads that
notation and nothing else; `Gemma4Meaning` goes from the text of an output to the reported message, and
`Gemma4Shown` is about what a client sees while a call or a thought is being written.

**Marker-aware diff** (`common/chat-auto-parser-helpers.cpp`): `Segments`, `DiffSplit`, `DiffMaximal`,
`DiffInsertion`.

**Conversations** (`common/chat.cpp`): `ToolResultOrder` (with `StableOrder`) and `MessageSpans`.

**Codecs and matchers** (`common/common.cpp`, `common/base64.hpp`): `Glob`, `GlobForms`, `Base64`,
`LongestCommon`, `ProcessEscapes`.

Code that changes state is modelled as methods and classes and proved against a function; the lemmas
are about that function. Exceptions and failed assertions are the value `Failure`.

## Properties that fail for some inputs

The members named give the condition, and an input where that says more.

- Reshaping: with rank zero, empty factors accept any number of rows (`ReshapeMeaning`,
  `RankZeroGrows`); at every rank, factors accept two or more -1, which torch refuses
  (`ReshapeAcceptsExactly`, `ViewMeaning`).
- Permuting: axes from the number of dimensions up are accepted although torch refuses them
  (`PermuteMeaning`, `AxisBeyondMatrix`).
- Subscripts: two ints on the last two axes, and a thinning slice on a leading axis that A really has,
  select something else than on the product (`GetTupleMeaning`, `TupleCutsOnlyB`); a slice of a stack
  whose A is shared may cut A away (`GetSliceMeaning`, `SliceLosesSharedA`).
- Splitting: an axis below minus the number of axes may be accepted (`SplitMeaning`, `SplitFarBelow`,
  `SplitFarMeaning`).
- Concatenating: shared factors A give a result that stands for nothing unless the first axes add up
  (`CatMeaning`, `SplitThenCat`), and a piece without positions can displace the A of another
  (`EmptyShareTakesOver`).
- `calculate_diff_split` can count a repeated segment twice (`ReconstructsExactly`,
  `RepeatedMarkerIsCountedTwice`).
- `normalize_quotes_to_json` is meant to be monotone while text streams in
  (common/chat-peg-parser.cpp:158). It is not when a word turns out not to be the literal it began, or
  a backslash turns out to escape a single quote (`NormalizeMonotone`, `PartialWordRetracts`).
- An escaped single quote inside double quotes is left as it is, which is no JSON; every other string in
  Python's notation is read back exactly (`QuotedExactly`).
- A string argument that comes in two pieces of which the second is empty gets a second opening quote
  (`StringInPieces`).
- Where the name node stands matters for a blank name with arguments and for value text before the
  first key (`NamePositionExactly`); after a blank name the next argument overwrites the buffered ones
  (`BlankNameLosesArguments`).
- A tagged call reports the key it has seen: when the key turns out to be a longer one, which happens when
  one declared key begins another, the arguments do not grow (`CutKeyExactly`; see
  common/chat-peg-parser.cpp:541-561).
- A Gemma 4 call is reported at its opening brace. When its arguments or what follows them are
  malformed it disappears again, and the stream fails (`StreamsExactly`, `UnendedDoesNotStream`).
- Overlapping skip regions: all regions after the first overlap are forgotten (`AllHonoured`,
  `OverlapIsForgotten`), although the comment at common/chat.h:211 promises that each is jumped over.
- A glob class may match a slash, which `*` and `?` may not (`ComponentsExactly`,
  `ClassMatchesSlash`).

## Model

| member | source | states |
|---|---|---|
| `LoraTensor.DenseAt` | convert_lora_to_gguf.py:45-53 | The tensor that two factors stand for has at each index the contraction of a row of B with a column of A over the rank, A's leading axes broadcasting. |
| `LoraEntries.DenseSums` | convert_lora_to_gguf.py:45-53 | Each entry of that tensor is the sum over the rank of an entry of B times an entry of A, the leading axes of A of length 1 stretched. |
| `LoraReshape.ReshapeMeaning` | convert_lora_to_gguf.py:136-160 | For every rank: an accepted reshape has the requested dimensions, and the product of the new factors has the same entries in the same row-major order if and only if the rank is positive or the new shape has as many entries. |
| `LoraReshape.ReshapeIsTorchReshape` | convert_lora_to_gguf.py:136-160 | For every rank, with at most one -1: torch's own reshape of the product is what the result stands for, and fails exactly when the rank is zero and the counts differ. |
| `LoraReshape.ReshapeAcceptsExactly` | convert_lora_to_gguf.py:141-160 | For all factors and requests: accepted if and only if the inferred shape is valid, keeps the last axis, A is the same at all leading positions unless it is empty, and the rows multiply to those of B unless the rank is zero. |
| `LoraReshape.ReshapeAccepts` | convert_lora_to_gguf.py:141-160 | For non-empty products this is: A is the same at all leading positions and torch accepts the shape for the product with the last axis unchanged. |
| `LoraReshape.RankZeroGrows` | convert_lora_to_gguf.py:155-160 | A rank-zero matrix of n rows is reshaped to one of any other number of rows. |
| `LoraAccepts.InferredDimension` | convert_lora_to_gguf.py:146-150 | A single -1 becomes d if and only if the request with d in its place has as many entries as the tensor and the other dimensions do not multiply to zero; otherwise the request is refused. |
| `LoraPermute.PermuteMeaning` | convert_lora_to_gguf.py:168-179 | An accepted permutation of the factors is torch's permutation of the product if and only if every axis is below the number of dimensions. |
| `LoraPermute.PermuteAccepts` | convert_lora_to_gguf.py:168-179 | A permutation is accepted if and only if its axes, counted from the end, are distinct axes and either the last one stays and A has no leading axes, or it exchanges the axes of a matrix. |
| `LoraPermute.TransposeMeaning` | convert_lora_to_gguf.py:181-188 | transpose and swapaxes exchange exactly the two named axes of the product, entry by entry. |
| `LoraEntries.PermuteEntries` | convert_lora_to_gguf.py:168-188 | Axis k of a permuted product is axis dims[k] of the product, entry by entry. |
| `LoraPermute.ViewMeaning` | convert_lora_to_gguf.py:136-188 | For every rank, an accepted view (reshape, permute or transpose) of the factors is that view of the product when it infers at most one dimension, keeps the count and names axes below the number of axes; otherwise torch refuses the view of the product. |
| `LoraPermute.ChainMeaning` | convert_lora_to_gguf.py:136-188 | Any chain of views that the factors accept stands for the same chain on the product if and only if each view in it does; otherwise torch refuses the chain. |
| `LoraIndexing.PickMeaning` | convert_lora_to_gguf.py:98-112 | Picking positions from both factors, rows from B and columns from A, picks those positions from the product when the leading picks agree under broadcasting. |
| `LoraSubscript.GetTupleMeaning` | convert_lora_to_gguf.py:77-112 | An accepted tuple subscript is the same subscript of the product if and only if the last two entries are not both ints and no leading slice thins an axis that A has. |
| `LoraSubscript.GetTupleAccepts` | convert_lora_to_gguf.py:77-112 | A tuple subscript is accepted if and only if it has from one to as many entries as axes, each fits its axis, and the last two are both slices, or both ints with the last leading axis that A keeps as long as the rank. |
| `LoraSubscript.GetIntMeaning` | convert_lora_to_gguf.py:67-71 | An accepted int subscript is the same subscript of the product. |
| `LoraSubscript.GetSliceMeaning` | convert_lora_to_gguf.py:72-76 | A slice of the factors is that slice of the product if and only if the tensor is a matrix, A has its own first axis, A's single position survives, or nothing of B does. |
| `LoraEntries.SliceMeaning` | convert_lora_to_gguf.py:72-76 | A slice of an axis of length n, by Python's rule: negative bounds count from n, both are cut to 0..n, the step has to be positive; entry i is position lo + step * i, a position is kept if and only if it lies from lo to below hi at a multiple of the step, and there are as many entries as kept positions. |
| `LoraEntries.GetTupleEntries` | convert_lora_to_gguf.py:77-112 | For a tuple subscript with one meaning on factors and product: the shape counts the kept positions, and every entry is the entry of the product at the positions the subscripts name. |
| `LoraEntries.GetIntEntries` | convert_lora_to_gguf.py:67-71 | The same for one int, counted from the end when negative. |
| `LoraEntries.GetSliceEntries` | convert_lora_to_gguf.py:72-76 | The same for a slice of the first axis. |
| `LoraAccepts.GetIntAccepts` | convert_lora_to_gguf.py:67-71 | An int subscript is accepted if and only if more than two axes are there and it names a position of the first axis of both factors. |
| `LoraAccepts.GetSliceAccepts` | convert_lora_to_gguf.py:72-76 | A slice is accepted if and only if its step is positive. |
| `LoraLimits.AxisBeyondMatrix` | convert_lora_to_gguf.py:168-175 | For every matrix, permuting by axes 2 and 1 returns the tensor unchanged although torch refuses it on the product. |
| `LoraLimits.TupleCutsOnlyB` | convert_lora_to_gguf.py:98-112 | For every tensor whose A has its own first axis, a one-position slice of that axis in a tuple is accepted and leaves factors that no longer broadcast. |
| `LoraLimits.SliceLosesSharedA` | convert_lora_to_gguf.py:72-76 | For every stack with a shared A, slicing out the second position is accepted and leaves nothing of A. |
| `LoraSplit.JoinSplit` | convert_lora_to_gguf.py:190-206 | The chunks torch cuts from a dense tensor, joined along the axis, are the slab they were cut from. |
| `LoraSplit.SplitMeaning` | convert_lora_to_gguf.py:190-206 | For every axis number torch accepts: split succeeds exactly when torch accepts the sizes, each chunk stands for the chunk of the product at the same place, and those chunks concatenate to the product. Every other axis is refused by torch, and here unless it lies between minus twice and minus once the number of axes. |
| `LoraEntries.ChunkLengths` | convert_lora_to_gguf.py:190-206 | Chunks of a given size are full except the last, which has what is left; given lengths are the lengths. |
| `LoraEntries.SplitEntries` | convert_lora_to_gguf.py:190-206 | Chunk k of the product holds the positions behind all earlier chunks, entry by entry. |
| `LoraAccepts.SplitAccepts` | convert_lora_to_gguf.py:190-206 | Along an axis that exists: accepted if and only if the size is positive (or zero on an axis of length zero), or the given lengths are not negative and add up to the axis. |
| `LoraSplit.SplitFarBelow` | convert_lora_to_gguf.py:190-206 | Axes from minus twice to minus once the number of axes: accepted if and only if both factors accept the sizes and no chunk cuts the rank; a leading axis, or the rows at rank one, is split as if named properly. |
| `LoraSplit.SplitFarMeaning` | convert_lora_to_gguf.py:190-206 | The accepted chunks along the last two axes stand for the chunks of the product along that axis, or for the whole product where A has a single column. |
| `LoraSplit.CatMeaning` | convert_lora_to_gguf.py:243-258 | Concatenated factors stand for a tensor if and only if they are matrices or the first axes of A add up to one or to those of B; that tensor is then the concatenation of the products, except where several positions meet a piece that has none but whose A has one. |
| `LoraEntries.CatEntries` | convert_lora_to_gguf.py:243-258 | Entry i of a piece stands in the concatenation behind all positions of the pieces before it. |
| `LoraAccepts.CatAccepts` | convert_lora_to_gguf.py:243-258 | Accepted if and only if there is a piece, the B agree behind their first axes, and so do the A, or for a first piece that is a matrix the A are the same. |
| `LoraLimits.EmptyShareTakesOver` | convert_lora_to_gguf.py:243-252 | For any two different entries, a column without positions before one of two positions changes the first entry of the concatenation. |
| `LoraSplit.SplitThenCat` | convert_lora_to_gguf.py:190-258 | Splitting along axis 0 and concatenating gives the original factors back if and only if the tensor is a matrix, A has its own first axis or there is one chunk. Otherwise the result stands for a tensor exactly when there are as many chunks as positions, and always for the tensor that was split. |
| `LoraStack.StackMeaning` | convert_lora_to_gguf.py:234-242 | Stacking succeeds exactly when all A and all B have the same shape, and stands for the stack of the products. |
| `LoraEntries.StackedEntries` | convert_lora_to_gguf.py:234-242 | Entry i of piece p is entry (p, i) of the stack. |
| `LoraScale.MulMeaning` | convert_lora_to_gguf.py:211-216 | Scaling B by a broadcastable factor whose last axis has length 1 succeeds exactly when torch can multiply the product by it, and stands for that multiple. |
| `LoraEntries.MulEntries` | convert_lora_to_gguf.py:211-216 | Each entry is multiplied by the entry of the multiplier whose axes are aligned from the right and stretched where they have length 1. |
| `LoraAccepts.MulAccepts` | convert_lora_to_gguf.py:211-216 | Accepted if and only if the multiplier has no more axes than the tensor, its last axis has length 1, and each axis equals the one it meets from the right or one of the two is 1. |
| `Segments.SegmentizeMarkers` | common/chat-auto-parser-helpers.cpp:269-299 | The scanning loop computes `Segmentize`. |
| `Segments.SegmentizeIsTheCut` | common/chat-auto-parser-helpers.cpp:269-299 | A list of segments is the result if and only if it spells the text and is well cut: markers run from an opener to its first closer, texts contain no opener, only the end may be an unfinished marker. |
| `Segments.MarkersOfBothKinds` | common/chat-auto-parser-helpers.cpp:269-299 | Angle and square brackets both make markers, each up to its own closing bracket. |
| `DiffSplit.CommonPrefixLen` | common/chat-auto-parser-helpers.cpp:69-76 | The loop computes the length of the longest common prefix. |
| `DiffSplit.CommonSuffixLen` | common/chat-auto-parser-helpers.cpp:78-85 | The loop computes the length of the longest common suffix. |
| `DiffSplit.CalculateDiffSplit` | common/chat-auto-parser-helpers.cpp:87-207 | The four-cursor algorithm computes `Compute`. |
| `DiffSplit.AlignEnds` | common/chat-auto-parser-helpers.cpp:102-139 | The alignment loop runs both cursors to the exit state `Align`. |
| `DiffSplit.AlignmentKeepsBoth` | common/chat-auto-parser-helpers.cpp:114-139 | For all inputs, at the exit of the alignment loop prefix, unmatched segments and suffix spell each input, and each consumed-flag is explained by a segment in the suffix. |
| `DiffMaximal.AlignmentIsMaximal` | common/chat-auto-parser-helpers.cpp:114-139 | At the exit of the alignment loop one side is down to a single segment, or neither the front segments nor the back segments agree. |
| `DiffMaximal.SharedSegmentsSplitOff` | common/chat-auto-parser-helpers.cpp:87-207 | Inputs that share segments in front and behind, around middles that share neither end: those segments are in the prefix and the suffix, with only text of the middles' own text segments, unless the whole left side is reported as prefix. |
| `DiffInsertion.InsertionFound` | common/chat-auto-parser-helpers.cpp:87-207 | When the right input is the left one with segments inserted, and none occurs twice, exactly the inserted text is reported as added, between the texts of the segments before and behind; a left input that begins the right one is the prefix as a whole. |
| `DiffInsertion.DeletionFound` | common/chat-auto-parser-helpers.cpp:87-207 | When segments are removed, exactly their text is reported as removed. |
| `DiffInsertion.EqualTexts` | common/chat-auto-parser-helpers.cpp:185-190 | Equal inputs are one common prefix. |
| `DiffSplit.ReconstructsExactly` | common/chat-auto-parser-helpers.cpp:87-207 | prefix + left + suffix and prefix + right + suffix are the two inputs if and only if the tail does not match a segment already put into the suffix, or the final prefix rule repairs that. |
| `DiffSplit.ReconstructsWithoutRepeats` | common/chat-auto-parser-helpers.cpp:87-207 | When no segment occurs twice within either input the result always spells both. |
| `DiffSplit.RepeatedMarkerIsCountedTwice` | common/chat-auto-parser-helpers.cpp:141-165 | `<a><b>` against `<a><x><b><b>` is not reconstructed. |
| `DiffSplit.RemaindersDiffer` | common/chat-auto-parser-helpers.cpp:169-183 | What remains on both sides shares no further character at an end that lies in text on both sides. |
| `QuoteNormalizer.NormalizeQuotesToJson` | common/chat-peg-parser.cpp:83-185 | The state-carrying loop computes `Normalize`. |
| `PythonValues.NormalizeMeaning` | common/chat-peg-parser.cpp:83-185 | For every value in Python's notation (None, True, False, numbers, strings in either quotes with their escapes, lists and dicts, any white space behind commas and colons) a JSON reader finds in the normalised text exactly that value. |
| `PythonValues.QuotedExactly` | common/chat-peg-parser.cpp:83-185 | A string is read back as the text it spells if and only if no escaped single quote stands in double quotes; otherwise the normalised text is no JSON. |
| `QuoteNormalizer.NormalizeIdempotent` | common/chat-peg-parser.cpp:83-185 | Normalising twice is normalising once, for every input. |
| `QuoteNormalizer.NormalizeMonotone` | common/chat-peg-parser.cpp:83-185 | For every text and continuation, the normalised text is a prefix of the normalised continuation if and only if the continuation takes nothing back: no word that began a literal turns out to be another word, no pending backslash turns out to escape a single quote. |
| `QuoteNormalizer.StreamingIsMonotone` | common/chat-peg-parser.cpp:150-180 | Streaming is monotone when every out-of-string word starting with T, F or N begins a literal and the cut is not inside an escape of a single-quoted string. |
| `QuoteNormalizer.PartialWordRetracts` | common/chat-peg-parser.cpp:150-180 | `T` gives `t`, but `Tx` gives `Tx`. |
| `JsonText.JsonBraceDepth` | common/chat-peg-parser.cpp:41-67 | The loop computes the depth of the scan of the whole text. |
| `JsonText.EscapeJsonStringInner` | common/chat-peg-parser.cpp:70-76 | Dumping and dropping the quotes yields the escaped characters. |
| `JsonText.EscapeForms` | common/chat-peg-parser.cpp:70-76 | Only quotes, backslashes and control characters are escaped, by two-character escapes where JSON has them and otherwise by the code in lower case. |
| `JsonText.EscapeMonotone` | common/chat-peg-parser.cpp:70-76 | The escape of a truncated text is a prefix of the escape of the text. |
| `JsonText.EscapeStaysInString` | common/chat-peg-parser.cpp:41-76 | Escaped text never moves the brace scanner out of the string it is in. |
| `JsonText.UnescapeEscape` | common/chat-peg-parser.cpp:70-76 | Reading the escapes back gives the original text. |
| `PegMapper.Mapper.constructor` | common/chat-peg-parser.h:10-33 | A new mapper has no message, no pending call and no current tool. |
| `PegMapper.Mapper.Append` | common/chat-peg-parser.cpp:238-240 | Argument text goes to the named call, or to the buffer before the call has a name. |
| `PegMapper.Mapper.SetName` | common/chat-peg-parser.cpp:320-335 | The name node moves the buffer to the call and reports the call. |
| `PegMapper.Mapper.Close` | common/chat-peg-parser.cpp:395-417 | Closing flushes the buffer, closes an open string and adds one brace for each unclosed one; a call that was never named is discarded. |
| `PegMapper.Mapper.Map` | common/chat-peg-parser.cpp:277-418 | One node changes all fields as the step function says and keeps the state valid. |
| `PegMapper.Mapper.FromAst` | common/chat-peg-parser.cpp:246-275 | A whole parse is the run over its nodes, the flush and the clean-up of blank reasoning. |
| `PegMapper.FlushFindsNothing` | common/chat-peg-parser.cpp:249-260 | The final flush never finds a named pending call: naming reports it at once. |
| `PegMapper.RunConcat` | common/chat-peg-parser.cpp:246-248 | A run over two node lists is the run over the second from where the first ended. |
| `MapperMeaning.MessageTexts` | common/chat-peg-parser.cpp:246-290 | For every run of defined meaning: the content is the texts of the content nodes in order, and the reasoning those of the reasoning nodes, dropped if and only if they are nothing but blanks, newlines, returns and tabs. |
| `MapperMeaning.CallsReported` | common/chat-peg-parser.cpp:292-335 | As many calls are reported as there are openings that are followed by a name before they are closed and before the next opening. |
| `MapperMeaning.TrimmedEnd` | common/chat-peg-parser.cpp:11-21 | All white space at the end goes, and nothing else. |
| `MapperMeaning.Spaces` | common/chat-peg-parser.cpp:11-21 | White space is that of the C locale. |
| `MapperMeaning.TrimmedBoth` | common/chat-peg-parser.cpp:35-37 | Of white space in front one character goes, of white space at the end all. |
| `MapperMeaning.UnquotedIs` | common/chat-peg-parser.cpp:312-317 | Quotes around an id go, both or none. |
| `ToolCallAssembly.CompleteCall` | common/chat-peg-parser.cpp:277-418 | Open, name, any arguments and close add exactly one call to what was reported; its arguments are the members in node order with single commas, and they scan to depth 0 outside every string. |
| `CallMeaning.CallMeaning` | common/chat-peg-parser.cpp:277-418 | A complete call adds one call: its name is the name node without trailing white space, its id is the id node without quotes, a JSON reader finds in its arguments the object of the given keys and values in order (literal texts and values in Python's notation), and reasoning and content stay. |
| `CallMeaning.ObjectCall` | common/chat-peg-parser.cpp:337-345 | Arguments that come as one complete object are reported as they are, without trailing white space. |
| `ToolCallAssembly.ShownSoFar` | common/chat-peg-parser.cpp:350-385 | While a value is being written, the members before it, its key and all of the value that has come are shown, a string without closing quote. |
| `ToolCallAssembly.ClosedEarly` | common/chat-peg-parser.cpp:395-417 | A call that is closed in the middle of a value is the call with the value complete. |
| `ToolCallAssembly.StringInPieces` | common/chat-peg-parser.cpp:366-385 | A string in two pieces is shown as one if and only if the second piece is not empty. |
| `NamePosition.NamePositionExactly` | common/chat-peg-parser.cpp:320-385 | From any state and for any other nodes of the call, moving the name node from their front to their end leaves the mapper in the same state if and only if: for a blank name, no node writes argument text; for any other name, no value text comes before the first key or object, or some object replaces the text. |
| `NamePosition.NamePositionIrrelevant` | common/chat-peg-parser.cpp:320-385 | Under the condition of `NamePositionExactly` the two orders stay the same after any rest of the parse. |
| `NamePosition.BlankNameLosesArguments` | common/chat-peg-parser.cpp:320-363 | With a blank name between two keys the first key is lost; with the blank name first it is not. |
| `MessageDiff.ComputeDiffs` | common/chat.cpp:266-332 | The method computes `Diffs`, in the same order and with the same failures. |
| `MessageDiff.StringDiffMeaning` | common/chat.cpp:56-69 | The difference exists if and only if one text is a prefix of the other, and appending it gives the new text if and only if the old one is the prefix. |
| `MessageDiff.StringDiffOf` | common/chat.cpp:56-69 | What was appended is the delta; a text that lost its end has the empty delta. |
| `MessageDiff.DiffsOf` | common/chat.cpp:266-332 | When texts and calls were appended there is one delta for each text that grew and one for each new call, in this order. |
| `MessageDiff.LastCallOf` | common/chat.cpp:300-322 | For the last known call, arguments that grew are sent alone; a changed name or id is sent with both and with what the arguments gained; a name that is neither empty nor extended fails. |
| `MessageDiff.DiffsRebuildExactly` | common/chat.cpp:266-332 | The deltas exist and a client that applies them obtains the new message if and only if the new message extends the old one: texts extend, earlier calls are frozen, the last one grows, calls are appended. |
| `MessageStream.Stream.SetToolCallIds` | common/chat.h:108-120 | Every call gets the cached id of its position; the cache grows by own or generated ids. |
| `MessageStream.CacheMeaning` | common/chat.h:108-120 | A call without a cached id keeps its own id if it has one, and otherwise gets the generated id that follows those of the calls without id before it. |
| `MessageStream.EmptyParseIsIgnored` | tools/server/server-task.cpp:162-180 | A parse that found nothing changes nothing and sends nothing. |
| `MessageStream.Stream.Update` | tools/server/server-task.cpp:162-180 | One more partial parse moves the server's state and yields the deltas. |
| `MessageStream.StreamRebuilds` | tools/server/server-task.cpp:162-180 | From any state of a stream, over any growing continuation no diff fails, all deltas together rebuild the message shown last, and cached ids are kept. |
| `MessageStream.WholeStream` | common/chat.cpp:266-332 | The same from the empty message. |
| `MessageStream.IdsAreStable` | common/chat.h:108-120 | Between any two moments of a stream a call position keeps its id, which is not empty. |
| `StreamedParse.CutGrows` | common/chat-peg-parser.cpp:277-418 | Cutting a node off later gives a message that extends the message of cutting it earlier. |
| `StreamedParse.CutKeyExactly` | common/chat-peg-parser.cpp:350-363 | Writing a key where another was written before lets the message grow if and only if the call has no name yet or both texts trim to the same key. |
| `StreamedParse.MessagesGrow` | common/chat-peg-parser.cpp:246-418 | Two partial parses of one output, the second not before the first, give messages of which the second extends the first; untagged nodes, empty text and argument wrappers may appear, vanish or be cut anywhere, keys only at the white space around them. |
| `StreamedParse.ReparsingStreams` | tools/server/server-task.cpp:162-180 | However the output is cut into successive parses, every diff exists, the deltas rebuild the last message, and the client holds it. |
| `Gemma4Json.ToJsonMonotone` | common/chat-peg-parser.cpp:926-1019 | The rendering of a partial tree is a prefix of the rendering of every tree it grows into: nodes that nothing was read of may become anything, others grow by more text and by children after or inside the last one; only where a closing bracket or quote is shown must the node be marked partial. |
| `JsonReader.ReadsEscaped` | common/chat-peg-parser.cpp:70-76 | A JSON string reader (section 7 of RFC 8259) finds the original text and the rest behind the closing quote. |
| `Gemma4Value.RenderingReads` | common/chat-peg-parser.cpp:926-1019 | Wherever a complete value of the grammar is rendered inside JSON text, the reader finds exactly its value and stops at its end. |
| `Gemma4Value.CompleteArguments` | common/chat.cpp:1348-1379 | Complete arguments of the grammar's shape are JSON text for exactly the value that was written. |
| `Gemma4Stream.Mapper.Visit` | common/chat-peg-parser.cpp:1021-1057 | Visiting a tree changes the message as the step function says. |
| `Gemma4Stream.Mapper.FromAst` | common/chat-peg-parser.cpp:920-924 | Visiting all trees is the run over them. |
| `Gemma4Stream.FindGrows` | common/peg-parser.cpp:138-152 | What the bounded search by tag finds in a partial tree is found, grown, in every tree it grows into. |
| `Gemma4Stream.CallGrows` | common/chat-peg-parser.cpp:1034-1049 | Once a call is reported its name stays and its arguments only grow. |
| `Gemma4Stream.VisitAllGrows` | common/chat-peg-parser.cpp:920-1057 | Trees that grow give messages that grow; idle nodes behind the last reporting one may vanish again. |
| `Gemma4Stream.BegunDelimiter` | common/peg-parser.cpp:684-687 | Content that stopped before a begun delimiter, with an empty node behind it, has grown when the delimiter is not completed and the text goes on. |
| `Gemma4Stream.CutKey` | common/peg-parser.cpp:508-570 | A key in two chunks is a truncation although its name is complete with every character. |
| `Gemma4Stream.ValueToCome` | common/chat.cpp:1374-1379 | A value of which nothing has come, a string for the parser, is a truncation of every value. |
| `Gemma4Stream.ReparsingStreams` | tools/server/server-task.cpp:162-180 | However often a growing forest is visited, every diff exists, the deltas add up, and the client holds the last message. |
| `PegMatch.MatchLiteral` | common/peg-parser.cpp:259-275 | The loop answers whether the literal is there, cannot be there, or may still come. |
| `PegMatch.SkipSpace` | common/peg-parser.cpp:494-506 | The loop stops at the first character that is not white space. |
| `PegMatch.MatchChars` | common/peg-parser.cpp:508-571 | The loop counts the characters of the class up to the maximum, and is short only at the end of the input. |
| `PegMatch.MatchUntil` | common/peg-parser.cpp:651-698 | The loop stops at the first position where a delimiter is complete or begun, and is short when there is none. |
| `PegMatch.UntilGrows` | common/peg-parser.cpp:651-698 | With more input the text before a delimiter only gets longer, and not at all once the delimiter is complete. |
| `Gemma4Number.NumberSettled` | common/peg-parser.cpp:1179-1192 | A number that was committed or refused stays so whatever follows, and one that was not reaches as far as the input did. |
| `Gemma4Partial.ArgumentsExtend` | common/chat.cpp:1349-1379 | For every text of arguments and every continuation: malformed stays malformed, complete stays as it is, and a partial tree is a truncation of the tree it becomes, unless that is malformed. |
| `Gemma4Partial.ArgumentsGrow` | common/chat-peg-parser.cpp:926-1019 | Wherever the text of arguments that are not malformed is cut, the JSON shown so far is a prefix of the JSON shown later. |
| `Gemma4Complete.ArgumentsAreJson` | common/chat.cpp:1349-1379 | Arguments that the grammar accepts are rendered as JSON text for exactly the value they write. |
| `Gemma4Exact.ArgumentsExactly` | common/chat.cpp:1349-1379 | Every text of arguments begins with a dictionary of the notation, and is then read up to its end; or it is the beginning of one, and then waits for more; or it is malformed. |
| `Gemma4Writer.DictRead` | common/chat.cpp:1349-1379 | A dictionary of the notation, with white space wherever the grammar has it, is read to its end whatever follows, and its tree means the written value. |
| `Gemma4Meaning.OutputMeaning` | common/chat.cpp:1328-1404 | For every output of thoughts, contents, something passed over and calls: the reasoning is the thoughts and the content is the contents in order, and every call is reported in order, with its name and with arguments in which a JSON reader finds the written value. |
| `Gemma4Shown.RenderedAs` | common/chat-peg-parser.cpp:926-1019 | A complete tree is rendered as the compact JSON of its value. |
| `Gemma4Shown.UnfinishedCall` | common/chat-peg-parser.cpp:926-1057 | A call that is being written inside a string is reported with its name, the complete members before, the key, and the string up to its last character. |
| `Gemma4Shown.UnfinishedThought` | common/chat.cpp:1328-1334 | A thought that is being written is shown up to its last character. |
| `Gemma4Chunks.ForestGrows` | common/chat.cpp:1328-1404 | The forest of every prefix of an output grows into the forest of the output, unless the output drops a call that has begun. |
| `Gemma4Chunks.DropsStays` | common/chat.cpp:1383-1399 | A call that is dropped stays dropped whatever follows. |
| `Gemma4Drops.ForestLoses` | common/chat.cpp:1383-1399 | An output that drops a call has a prefix whose forest reports more calls. |
| `Gemma4Drops.ChunksStream` | tools/server/server-task.cpp:162-180 | For any tool names, an output that drops no call streams however it is cut into chunks. |
| `Gemma4Drops.StreamsExactly` | tools/server/server-task.cpp:162-180 | For every text of an output: however it is cut into chunks, every diff exists, the deltas add up and the client holds the message of the whole text, if and only if none of its tool calls is malformed after its opening brace. |
| `Gemma4Drops.UnendedDoesNotStream` | common/chat.cpp:1395-1399 | A call with empty arguments that is followed by something else than its end does not stream, whatever the tool. |
| `Glob.GlobClassMatch` | common/common.cpp:729-767 | The loop answers whether the character is in the class that the text between the brackets lists. |
| `Glob.GlobMatch` | common/common.cpp:770-814 | The recursion answers whether the items of the pattern match, and ends because pattern, then text, gets shorter. |
| `Glob.MatchesIsMembership` | common/common.cpp:770-814 | Matching item by item holds if and only if the text can be cut into pieces, one for each item. |
| `Glob.MatchStrings` | common/common.cpp:816-818 | The result is membership of the text in the language of the pattern, both up to their first NUL. |
| `GlobForms.EmptyPattern` | common/common.cpp:771-773 | The empty pattern stands for the empty text. |
| `GlobForms.PlainCharacter` | common/common.cpp:810-813 | A character that begins no other form stands for itself. |
| `GlobForms.TwoStars` | common/common.cpp:774-779 | `**` stands for any text. |
| `GlobForms.OneStar` | common/common.cpp:780-786 | `*` stands for any text without a slash. |
| `GlobForms.QuestionMark` | common/common.cpp:787-789 | `?` stands for one character but a slash. |
| `GlobForms.ClosedBracket` | common/common.cpp:790-802 | A bracket with a closing one stands for a character of the class between them. |
| `GlobForms.OpenBracket` | common/common.cpp:790-808 | A bracket without a closing one stands for itself. |
| `GlobForms.ListedClass` | common/common.cpp:729-767 | A class has the single characters and the ranges that are listed, and after an exclamation mark all others; a bracket or dash in front stands for itself. |
| `GlobForms.NegatedMark` | common/common.cpp:729-767 | An exclamation mark behind the negation is listed like any character. |
| `GlobForms.RangeOrder` | common/common.cpp:749-757 | Ranges follow the codes; with a signed character type those from 128 on come first. |
| `Glob.ComponentsExactly` | common/common.cpp:770-814 | For items with a non-empty language: every member has exactly the slashes that the pattern shows if and only if no item is `**` and no class contains the slash. |
| `Glob.SlashesShown` | common/common.cpp:770-814 | No member has fewer slashes than the pattern shows. |
| `Glob.ClassMatchesSlash` | common/common.cpp:729-767 | A complemented class matches a slash, `?` does not. |
| `Base64.ValueOfAlpha` | common/base64.hpp:344-389 | Each digit's character is read back as the digit, keeps the alphabets compatible, or is refused exactly when only the other alphabet has it. |
| `Base64.EncodeBytes` | common/base64.hpp:80-144 | The loop computes `Encode`: digits, characters, padding. |
| `Base64.EncodedSize` | common/base64.hpp:338-341 | Encoded text has exactly the required size. |
| `Base64.MaxDecodeSizeIs` | common/base64.hpp:324-327 | The maximum decode size is the least multiple of three that holds the bits of so many digits. |
| `Base64.EncodedNumber` | common/base64.hpp:80-144 | The digits written are the bytes as one number, the missing low bits zero (section 4 of RFC 4648). |
| `Base64.DecodeText` | common/base64.hpp:200-244 | The loop with its carried bits computes `Decode`, with the same rejections. |
| `Base64.DecodedNumber` | common/base64.hpp:200-244 | The decoded bytes are the number of the digits before the padding without its spare bits; there are six eighths as many, never more than the maximum decode size. |
| `Base64.RoundTrip` | common/base64.hpp:80-244 | Decoding encoded bytes gives them back, with either behaviour, if and only if the alphabets agree (or are detected) or no digit tells them apart; otherwise the text is rejected. |
| `Base64.PaddingIsChecked` | common/base64.hpp:200-244 | Readable digits, a padding character and a rest decode to the bytes of the digits if and only if the rest is padding or the behaviour is loose, and otherwise fail; without padding they decode as well. |
| `Base64.ForeignIsRefused` | common/base64.hpp:344-389 | A character of neither alphabet before the padding is refused under each behaviour. |
| `Base64.MixedIsRefused` | common/base64.hpp:344-389 | Digits that only one alphabet has, behind digits that only the other one has, are refused, with automatic detection as well. |
| `Base64.UnpackPack` | common/base64.hpp:200-244 | Digits decode and encode to themselves if and only if no lone digit is left and the spare bits are zero. |
| `Base64.DecodeInplace` | common/base64.hpp:294-313 | In place: accepted exactly when an untouched copy is; accepted or not, the front holds the bytes of the leading digits and everything behind them is unchanged. |
| `ToolResultOrder.OrderOfMeaning` | common/chat.cpp:1878-1886 | The map holds exactly the non-empty ids of the calls, each with its last position. |
| `ToolResultOrder.SortToolResults` | common/chat.cpp:1866-1927 | The loops compute `Adjust`. |
| `ToolResultOrder.OnlyResultsMove` | common/chat.cpp:1866-1927 | The messages are permuted, roles stay in place, and so does every message that is not a tool result. |
| `ToolResultOrder.RunsAreAdjusted` | common/chat.cpp:1895-1923 | Every maximal run of user and tool messages is adjusted by itself, with the calls in force before it. |
| `ToolResultOrder.LatestCalls` | common/chat.cpp:1876-1888 | The calls in force are those of the latest assistant message that has any. |
| `ToolResultOrder.ResultsFollowCalls` | common/chat.cpp:1876-1923 | In every maximal run the same messages remain, and the tool results are ordered by the last position of their id among the calls of the latest assistant message that has any (unknown and empty ids rank with the first call), ties in original order. |
| `ToolResultOrder.ResultsInOrder` | common/chat.cpp:1895-1923 | Of two tool results in one run the first never answers a later call. |
| `ToolResultOrder.AdjustIdempotent` | common/chat.cpp:1866-1927 | Adjusting twice is adjusting once. |
| `StableOrder.SortMeaning` | common/chat.cpp:1912-1918 | The stable sort is sorted and keeps the order of equal ranks. |
| `StableOrder.SortUnique` | common/chat.cpp:1912-1918 | There is only one sequence with these two properties. |
| `MessageSpans.FirstMatchMeaning` | common/chat.cpp:162-170 | The role found is that of the first delimiter in list order that matches, and none is found exactly when none matches. |
| `MessageSpans.Split` | common/chat.cpp:152-184 | For any skip map the loops compute the spans outside the honoured regions, and end even with regions of length zero. |
| `MessageSpans.HonouredDisjoint` | common/chat.cpp:155-161 | The honoured regions do not overlap, and are all regions exactly when no two regions overlap. |
| `MessageSpans.SpansMeaning` | common/chat.cpp:152-184 | A span starts at a position if and only if it lies outside the regions and some delimiter matches there; it has the first delimiter's role, and the spans reach without gap from the first start to the end. |
| `MessageSpans.AllHonoured` | common/chat.cpp:152-184 | The spans are those outside all regions if and only if no matching position is covered by forgotten regions only; always so for disjoint regions. |
| `MessageSpans.OverlapIsForgotten` | common/chat.cpp:155-161 | With two overlapping regions a delimiter inside the second one starts a span. |
| `LongestCommon.StringLcs` | common/common.cpp:471-490 | The table fill returns a contiguous piece of both texts; no common piece is longer, and none as long begins earlier in the first text. |
| `LongestCommon.SuffixMeaning` | common/common.cpp:478-488 | A table cell is the length of the longest common suffix of two prefixes. |
| `ProcessEscapes.ProcessInPlace` | common/common.cpp:646-681 | In place, the front of the buffer becomes the unescaped text of an untouched copy, never longer than it. |
| `ProcessEscapes.UnescapeEscape` | common/common.cpp:646-681 | Unescaping inverts escaping of newline, carriage return, tab, both quotes and backslash, for every text. |
| `ProcessEscapes.HexEscape` | common/common.cpp:659-671 | Two hexadecimal digits behind `\x`, in either case, become the byte they write. |
| `ProcessEscapes.OtherHexEscapes` | common/common.cpp:659-671 | One digit behind a blank or a sign is read as strtol reads it; with any other two characters the escape stays. |
| `ProcessEscapes.ControlEscapes` | common/common.cpp:653-655 | n, r and t behind a backslash become newline, return and tab. |
| `ProcessEscapes.QuoteEscapes` | common/common.cpp:656-658 | A backslash before a quote or a backslash goes. |
| `ProcessEscapes.OtherBackslashes` | common/common.cpp:672-674 | A backslash that begins no escape stays. |
| `ProcessEscapes.LoneBackslash` | common/common.cpp:651 | A backslash that ends the text stays. |
| `ProcessEscapes.UnchangedExactly` | common/common.cpp:646-681 | A text is left alone if and only if its length is. |

## Left out

- CatMeaning: where several positions meet an empty share the result depends on the entries of the factors, not only on their shapes; `SplitThenCat` covers the case of equal A, `EmptyShareTakesOver` shows the general one.
- Map: asks, like FromAst and RunConcat, that no node follows a current tool into a pending call that has been discarded; in the original that pointer is left dangling and reading it has no defined meaning.
- OutputMeaning: is about outputs whose contents are separated by thoughts and contain no delimiter, which is how the grammar cuts every output; outputs with malformed calls are left to `ForestLoses` and `StreamsExactly`.
- SharedSegmentsSplitOff: asks that the left side is not reported as a whole prefix, which the last rule does when it begins the right side.
- ReparsingStreams: in `StreamedParse`, asks that each node that says something adds to what was reported (a call is named once, a whole argument object comes before single arguments, only named calls are closed), that the mapper's steps over each partial parse have defined meaning, that a key is cut only at the white space around it, which `CutKeyExactly` makes exact, and that a raw value is cut where the rest takes nothing back, which `NormalizeMonotone` makes exact.
- SortToolResults: the library's stable sort is a function of the model, characterised by `SortMeaning` and `SortUnique`; fields of an unexpected JSON type, which raise exceptions, do not occur.
- MapTool: the chain of separate conditions on the tag of one node is written as one chain of alternatives.
- Ellipsis and tensors as subscripts, dtype conversion, contiguous, to and the keyword dispatch of torch functions.
- Tensor entries are integers: rounding of real tensors is not modelled.
- The PEG engine and the grammars, except for Gemma 4 with tools that may be called and reasoning that is extracted: elsewhere nodes are inputs, and how a partial parse relates to the complete one is a hypothesis.
- StreamsExactly: asks that no tool name contains a brace, under which a name ends where the arguments begin; `ChunksStream` does without. Tools whose names become the same rule name, and outputs where a call is required, are not part of it.
- Gemma4Parser and Gemma4Output compose sequences, choices and repetitions of the grammar by hand; only the leaf parsers are modelled as the loops they are.
- A chunk that ends inside the bytes of one character.
- Dumping text that is not valid UTF-8; text is a sequence of characters.
- The option of the server to hold back tool-call deltas without a name, and the initial prefill of a continued message.
- The reader of JSON text takes numbers and literal names as uninterpreted tokens without punctuation.
- Tokenisation of delimiters, the queries for user positions and the JSON form of spans.
- Character classes that depend on the locale are those of ASCII.
- strtol in two-digit hexadecimal escapes appears as an explicit test of two characters.
