# Six Advent of Code 2021 solutions, modelled and verified in Dafny

This project models the computational cores of six Advent of Code 2021 solutions.
Each solution gets one module. The proofs are stated against specification
functions that say what the Python code computes.

- **BeaconScanner** (`19.py`, beacon scanners):
  - the table of 24 orientations, proved to be 24 distinct proper rotations;
  - the vector sum and difference;
  - the aligner, which tallies candidate offsets per orientation and accepts the first orientation with an offset that gets 12 votes;
  - the worklist propagator, which places every scanner and rotates each scanner's beacon list in place, once;
  - the count of distinct beacons and the largest Manhattan distance.
- **PacketDecoder** (`16.py`, packet decoder):
  - the bit deque, as a class with a `seq` of bits;
  - hexadecimal expansion, big-endian reads, literal groups and the recursive reader of operator packets;
  - every reader is proved against a functional decoder into a packet tree, with its version sum and its value;
  - the decoder is proved to invert an encoder of well-formed packets.
- **TransparentOrigami** (`13.py`, transparent origami):
  - the `#`/`.` paper, as a class whose rows the folds overwrite and truncate in place;
  - building the paper from dots, folding left and up, and counting the dots;
  - the folds are also described as operations on the set of dots;
  - the parser of fold instructions.
- **ArithmeticLogicUnit** (`24.py`, arithmetic logic unit):
  - the five operations, with `div` truncating toward zero and `mod` flooring;
  - parsing instructions, and evaluating them on a register map;
  - the backtracking digit search with its failure cache, proved sound: a `True` answer is a completion, a `False` answer means no completion exists, and every cache entry records a dead state.
- **ReactorReboot** (`22.py`, reactor reboot):
  - cuboid sizes, interval overlap, the ±50 initialisation filter and the `x=L..R` range reader;
  - the on/off count, proved independent of step order and repetition;
  - the count is compared against the set of cubes the steps actually leave on.
- **ExtendedPolymerization** (`14.py`, extended polymerization):
  - the pair-insertion step on pair counts, independent of dictionary order, which doubles the total each step;
  - the element tallies, as doubled integers;
  - the spread between the most and the least common element.

Three helper modules support them:

- **Wrappers**: `Option` and `Result`.
- **Counters**: `defaultdict(int)` and `Counter` as maps, and sums over finite sets taken in any order.
- **PyText**: Python's `str.split()`, `str.split(sep)`, `str.find` and `int()`.

Python exceptions are modelled as error results. Each module's `Failure` datatype names the exceptions that module can raise.

## Model

| member | source | states |
|---|---|---|
| BeaconScanner.OrientationZeroIsIdentity | 19.py:9 | Entry 0 of the orientation table leaves every triple unchanged. |
| BeaconScanner.OrientInverse | 19.py:8-33 | Every entry has an inverse entry that undoes it on both sides, so every entry is a bijection on triples. |
| BeaconScanner.UndoOrient | 19.py:8-33 | The inverse of an entry's inverse is the entry itself. |
| BeaconScanner.OrientInjective | 19.py:8-33 | No two triples have the same image under an entry. |
| BeaconScanner.OrientIsProperRotation | 19.py:8-33 | Every entry permutes the three axes with signs, and its determinant is +1. |
| BeaconScanner.OrientationsDistinct | 19.py:8-33 | Any two different entries send (1, 2, 3) to different triples, so the table has 24 distinct transforms. |
| BeaconScanner.ImageIndex | 19.py:8-33 | The image of (1, 2, 3) identifies the entry that produced it. |
| BeaconScanner.Add | 19.py:36-37 | `coordinate_sum(a, b)` is the point from which subtracting either summand leaves the other. Adding the origin changes nothing. |
| BeaconScanner.Sub | 19.py:48-51 | The difference of two points is the origin exactly when they are equal. |
| BeaconScanner.SumOfDifference | 19.py:48-51 | `coordinate_sum(a - b, b) == a`, and subtracting `b` undoes adding it. |
| BeaconScanner.OrientSub | 19.py:63-65 | Rotating a difference is the difference of the rotated points. |
| BeaconScanner.OrientKeepsNorm | 19.py:8-33 | Every entry keeps the sum of absolute coordinates of a triple. |
| BeaconScanner.OrientKeepsDistance | 19.py:8-33 | Rotating two points by the same entry keeps their Manhattan distance. |
| BeaconScanner.RotatedInverse | 19.py:43-45 | Rotating a beacon list keeps its length, and rotating it back by the inverse entry restores it. |
| BeaconScanner.ChangeOrientation | 19.py:40-45 | Only scanner `k`'s list changes, and it becomes its rotated copy. |
| BeaconScanner.MatchesStep | 19.py:60-66 | Tallying one more beacon pair adds exactly that pair's vote, and to no other offset. |
| BeaconScanner.MatchesNextRow | 19.py:60-61 | Finishing a row of second beacons is starting the next first beacon. |
| BeaconScanner.TallyOffsets | 19.py:58-66 | For every offset, the vote map holds the number of (first, second) beacon pairs whose difference under the entry is that offset. An offset absent from the map has no votes. |
| BeaconScanner.SecondScannerPosition | 19.py:54-74 | Several outcomes: (a) A returned (offset, orientation) comes from the first orientation under which some offset gets 12 votes, and that offset is the only one to get them. (b) `None` means no orientation has such an offset. (c) An error means that at the first qualifying orientation two offsets qualify, so the assertion fails. |
| BeaconScanner.LayoutExtend | 19.py:84-93 | Placing an unplaced scanner at its parent's position plus the found offset, and rotating its beacons by the found orientation, keeps the layout invariant. |
| BeaconScanner.LayoutFrames | 19.py:93 | In a layout, every beacon list is either the original one or the original rotated, once, by its scanner's alignment. |
| BeaconScanner.LayoutKeys | 19.py:83-84 | The placed scanners are 0 and indices of `data`. |
| BeaconScanner.PlaceAgainst | 19.py:84-93 | Trying one scanner keeps the layout and changes no other beacon list. If the scanner is placed, it sits at `first`'s position plus the offset of the first qualifying orientation of its old beacons, with `first` as parent. If it is not placed, nothing changes, and either no orientation qualifies or the aligner's assertion failed at the first qualifying one. |
| BeaconScanner.AlignAgainst | 19.py:83-93 | Aligning every unplaced scanner against `first` keeps the layout and every earlier position. The newly placed scanners are reported and were unplaced before; no other beacon list changes. On success, no scanner left unplaced aligns with `first`. On an error, some scanner left unplaced makes the aligner's assertion fail against `first`. |
| BeaconScanner.WorklistStep | 19.py:82-89 | Popping a scanner and pushing the newly placed ones keeps the worklist apart from the processed scanners, and the processed set grows. That growth bounds the loop. |
| BeaconScanner.TriedStep | 19.py:83-93 | After aligning against `first`, every processed scanner, `first` included, aligns with none of the scanners still unplaced. |
| BeaconScanner.StuckWhenEmpty | 19.py:81-82 | When every placed scanner has been processed and some scanner is still unplaced, no placed scanner aligns with any unplaced one. The `KeyError` that `pop` then raises on the empty set is a real dead end. |
| BeaconScanner.WorklistAdvance | 19.py:82-93 | One pass of the outer loop keeps the worklist invariant: the placed scanners are those processed or still queued, and each processed one aligns with no unplaced scanner. The unprocessed-index set shrinks. |
| BeaconScanner.ProcessScanner | 19.py:82-93 | One pass of the outer loop either keeps the worklist invariant while processing one more scanner, or fails because some unplaced scanner, with its original beacons, makes the aligner's assertion fail against a placed one. |
| BeaconScanner.ScannerPositions | 19.py:77-95 | On success, exactly the indices of `data` are placed. Scanner 0 sits at the origin. Every other scanner sits at its parent's position plus the aligner's offset, and was aligned after its parent. Every beacon list is its original, rotated at most once by its scanner's alignment, whatever the outcome. An empty worklist (the `KeyError` of `pop`) is reported only when some placed scanners align with none of the unplaced ones, whose beacons are unchanged. An assertion failure is reported only when some unplaced scanner makes the aligner fail against a placed one. |
| BeaconScanner.BeaconCount | 19.py:98-107 | The result is the number of distinct points `beacon + positions[scanner]`, and it is at most the total number of beacons. |
| BeaconScanner.BeaconStep | 19.py:104-105 | Adding one more beacon adds its moved point to the set. |
| BeaconScanner.ScannerStep | 19.py:103-105 | Finishing a scanner's beacons starts the next scanner's, and the beacon total grows by the list's length. |
| BeaconScanner.ScannersDone | 19.py:103-107 | After the last scanner, the set holds every moved beacon. |
| BeaconScanner.ManhattanIsMetric | 19.py:110-111 | The Manhattan distance is symmetric, is zero exactly on equal points, and obeys the triangle inequality. |
| BeaconScanner.ManhattanDistance | 19.py:110-111 | The distance is zero exactly on equal points, and bounds the distance along each axis. |
| BeaconScanner.RaiseToFarthest | 19.py:118-121 | The running maximum never decreases. It ends at least every distance from `first`, and it is either unchanged or one of those distances. |
| BeaconScanner.LargestManhattanDistance | 19.py:114-123 | The result is at least every pairwise distance between positions. It is one of those distances, or 0 when there are no positions. |
| Counters.Add | 14.py:13 | `m[k] += q` on a `defaultdict(int)` creates `k`, adds `q` to its value, and changes no other key. |
| Counters.TotalAdd | 14.py:13-14 | `m[k] += q` adds `q` to the sum of all values. |
| Counters.SumSetRemove | 22.py:86 | A sum over a set does not depend on which element is taken first, so the order of a Python set's iteration does not matter. |
| Counters.SumSetNonNegative | 22.py:86 | A sum of non-negative terms over a set is not negative. |
| Numbers.Abs | 22.py:61 | `abs(n)` is a natural number equal to `n` or to `-n`. |
| PyText.Words | 24.py:18 | `str.split()` gives non-empty words without whitespace. |
| PyText.WordsUnwords | 24.py:18 | Splitting words that were joined by single spaces gives the words back. |
| PyText.JoinSplit | 22.py:41-42 | Joining the pieces of `s.split(sep)` with `sep` gives `s` back. |
| PyText.SplitPiecesFree | 22.py:41-42 | No piece of `s.split(sep)` contains `sep`. |
| PyText.SplitHead | 13.py:27 | `s.split(sep)` has a second piece exactly when `sep` occurs. The first piece is then followed by `sep` in `s` and holds no `sep`. |
| PyText.ParseShow | 22.py:44 | `int(str(n)) == n` for every integer. |
| ArithmeticLogicUnit.TruncDiv | 24.py:10 | `int(x / y)`: the remainder `x - q*y` is smaller than `y` in magnitude and has the sign of `x`, which is truncation toward zero. |
| ArithmeticLogicUnit.FloorMod | 24.py:11 | Python's `x % y`: `x == y*(x // y) + r`, with `r` in `[0, y)` for positive `y` and in `(y, 0]` for negative `y`. |
| ArithmeticLogicUnit.Apply | 24.py:7-13 | An unknown name raises `KeyError`, and a zero divisor of `div` or `mod` raises `ZeroDivisionError`. `eql` is 1 exactly on equal operands and 0 otherwise. A `div` result leaves a remainder smaller than the divisor, and a `mod` result recombines with `//`. |
| ArithmeticLogicUnit.ApplyValues | 24.py:7-13 | `add` is `x + y`, `mul` is `x * y`, `div` is `TruncDiv`, `mod` is `FloorMod`, and `eql` is 1 or 0 for `x == y`. |
| ArithmeticLogicUnit.TruncDivUnique | 24.py:10 | Any quotient whose remainder is smaller than the divisor and has the sign of the dividend is `TruncDiv`, so `div` rounds toward zero. |
| ArithmeticLogicUnit.FloorDivUnique | 24.py:11 | Any quotient whose remainder has the sign of the divisor and is smaller than it is `FloorDiv`, so `mod` goes with Python's `//`. |
| ArithmeticLogicUnit.TruncMatchesFloorOnNonNegative | 24.py:10-11 | On a non-negative dividend and a positive divisor, `div` is `//`, and `div` and `mod` recombine to the dividend. |
| ArithmeticLogicUnit.ParseInstruction | 24.py:17-21 | The instruction is the first three words of the line, and fewer than three words raise `IndexError`. |
| ArithmeticLogicUnit.ParseRepr | 24.py:17-24 | Parsing `repr(instruction)` gives the instruction back when its tokens have no whitespace. |
| ArithmeticLogicUnit.Operand | 24.py:27 | A token naming a register reads the register. Any other token is `int(token)`, and fails exactly when `int` does. |
| ArithmeticLogicUnit.Evaluated | 24.py:26-29 | On success the target register holds the operation applied to its old value and the operand. No other register changes, and no register is added. |
| ArithmeticLogicUnit.Evaluate | 24.py:26-29 | The register dict becomes `Evaluated`'s result. On an exception it is left as it was. |
| ArithmeticLogicUnit.RunPart | 24.py:50-51 | Running a part's instructions keeps the set of registers. |
| ArithmeticLogicUnit.RunDigit | 24.py:47-51 | The loop over a part from `w = digit`, `x = y = 0` and `z` gives the specification's step result. |
| ArithmeticLogicUnit.StepOutcome | 24.py:47-53 | One digit's pass raises exactly when one of the part's instructions raises, and with that exception. An empty part leaves `z` unchanged. |
| ArithmeticLogicUnit.DigitRaisesStep | 24.py:47-53 | A digit leads to an exception when its own part raises, or when its part runs and some later digits raise. |
| ArithmeticLogicUnit.DigitCanRaise | 24.py:42-57 | An exception reached through one digit of the order is an exception reachable from the state. |
| ArithmeticLogicUnit.CompletesAtEnd | 24.py:39-40 | With every part run, the inputs complete exactly when `z == 0`. |
| ArithmeticLogicUnit.CompletesCons | 24.py:47-54 | A digit of the order whose part succeeds, followed by a completion from the resulting `z`, is a completion. |
| ArithmeticLogicUnit.AllDigitsFail | 24.py:42-59 | When every digit of the order fails from a state, no completion exists from it. |
| ArithmeticLogicUnit.DigitSearch.constructor | 24.py:63-66 | The search starts with no inputs and an empty cache. |
| ArithmeticLogicUnit.DigitSearch.RunProgramPart | 24.py:32-59 | On `True`: the old inputs are kept as a prefix, the inputs have one digit per part, and the new digits drive `z` to 0. On `False`: the inputs are as on entry, and no sequence of digits completes from this depth and `z`. On an exception: some digits of the order, from this depth and `z`, make a part raise that exception. The cache stays sound, and it gains entries only at this depth or deeper. |
| ArithmeticLogicUnit.DigitSearch.TryDigit | 24.py:43-57 | One pass of the digit loop. On `False` the digit fails and the inputs are restored. On `True` the inputs are completed. On an exception, digits starting with this one make a part raise it. The cache grows only at this depth or deeper. |
| ArithmeticLogicUnit.DigitSearch.CacheHit | 24.py:43-45 | A cached triple at the current depth, not added by this loop, proves the whole state dead, so returning `False` at once is sound. |
| ArithmeticLogicUnit.DigitSearch.CacheAdded | 24.py:56 | Caching the digit that just failed keeps every entry a recorded failure. |
| ArithmeticLogicUnit.EdgeModelNumber | 24.py:63-67 | A returned digit sequence completes the program from `z = 0`. `None` means no sequence over the order completes. An exception means some digits of the order make a part raise it. |
| ArithmeticLogicUnit.DigitOrders | 24.py:4-5 | `range(9, 0, -1)` and `range(1, 10)` are the digits 9 to 1 and 1 to 9, each without repetition. |
| PacketDecoder.BigEndianBound | 16.py:32-39 | A number read from `w` bits is below `2^w`. |
| PacketDecoder.ToBitsInverse | 16.py:32-39 | Reading back the `w`-bit representation of `n < 2^w` gives `n`. |
| PacketDecoder.BigEndianInverse | 16.py:32-39 | Writing a bit sequence's value in as many bits gives the sequence back. |
| PacketDecoder.BigEndianAppend | 16.py:35-37 | Reading more bits shifts the value read so far left past them. |
| PacketDecoder.BitQueue.constructor | 16.py:43 | A new deque is empty. |
| PacketDecoder.BitQueue.Append | 16.py:27 | `append` adds the bit at the end. |
| PacketDecoder.BitQueue.PopLeft | 16.py:37 | `popleft` returns the first bit and removes it. |
| PacketDecoder.HexValue | 16.py:22 | A hexadecimal digit's value is below 16. |
| PacketDecoder.HexDigits | 16.py:22 | `int(letter, base=16)` accepts exactly the digits `0`-`9`, `a`-`f` and `A`-`F`, and gives each the position it has among the digits of its case. |
| PacketDecoder.AddHexToBits | 16.py:21-29 | A hexadecimal letter appends exactly its 4-bit big-endian value and leaves the earlier bits untouched. A letter that is not hexadecimal raises, which is reported as `valid` being false, and the deque is unchanged. |
| PacketDecoder.AppendNibble | 16.py:24-29 | The divisor loop appends the four bits of `h`, most significant first. |
| PacketDecoder.ReadBits | 16.py:32-39 | Exactly the first `count` bits are removed, and their big-endian value is returned. |
| PacketDecoder.ReadWrittenBits | 16.py:21-39 | Reading `w` bits back after writing `n` in `w` bits gives `n` and leaves what followed. With `w == 4` this is the hexadecimal round trip. |
| PacketDecoder.Decode | 16.py:55-79 | A decoded packet consumes at least its 6 header bits, which is the reader's termination measure. |
| PacketDecoder.DecodeGroups | 16.py:42-52 | Reading literal groups consumes at least one 5-bit group. |
| PacketDecoder.DecodeUntil | 16.py:66-72 | Length type 0 reads until no more than `stop` bits remain. |
| PacketDecoder.DecodeCount | 16.py:73-77 | Length type 1 reads exactly `n` sub-packets. |
| PacketDecoder.Min | 16.py:13 | `min` is an element that no other element undercuts. |
| PacketDecoder.Max | 16.py:14 | `max` is an element that no other element exceeds. |
| PacketDecoder.Apply | 16.py:10-18 | `OPERATORS[type](operands)` succeeds exactly for the types in the table, with at least one operand for `min`/`max` and at least two for the comparisons. `min` and `max` are extremes. The comparisons give 0 or 1. |
| PacketDecoder.ApplyValues | 16.py:10-18 | Type 0 is the sum and type 1 the product of the operands. Types 5, 6 and 7 give 1 exactly when the first operand is greater than, less than or equal to the second, and 0 otherwise. |
| PacketDecoder.SumProductSnoc | 16.py:11-12 | `sum` and `prod` fold from the left: one more operand adds to the sum and multiplies the product. |
| PacketDecoder.EvalAll | 16.py:70-77 | Evaluating sub-packets gives one operand per sub-packet. |
| PacketDecoder.GroupRead | 16.py:46-50 | A group led by 0 ends the literal after its 4 payload bits. A group led by 1 adds its payload and reads on. |
| PacketDecoder.ReadGroup | 16.py:47-50 | One pass of the group loop takes the lead bit and moves the 4 payload bits to `number_bits`. A short deque is drained and reported. |
| PacketDecoder.ReadNumber | 16.py:42-52 | The literal reader fails exactly when the groups run out before a group led by 0. Otherwise it returns the concatenated payloads as a big-endian number, and leaves the bits after the last group. |
| PacketDecoder.VersionSumAllAppend | 16.py:71 | Version sums add up over concatenated sub-packet lists. |
| PacketDecoder.EvalAllAppend | 16.py:72 | Evaluating concatenated sub-packet lists concatenates the operands, and the first failure wins. |
| PacketDecoder.UntilStep | 16.py:69-72 | One more pass of the length-type-0 loop reads one more sub-packet. |
| PacketDecoder.CountStep | 16.py:74-77 | One more pass of the length-type-1 loop reads one more sub-packet. |
| PacketDecoder.OperandStep | 16.py:70-72 | One more sub-packet adds its version sum to the running sum and its value to the operands. |
| PacketDecoder.FailedOperand | 16.py:70-77 | A sub-packet that raises makes the whole operator raise. |
| PacketDecoder.UntilFails | 16.py:66-72 | In the length-type-0 loop, a sub-packet that raises makes the whole operand list raise. |
| PacketDecoder.CountFails | 16.py:73-77 | In the length-type-1 loop, a sub-packet that raises makes the whole operand list raise. |
| PacketDecoder.InterpretOperatorPacket | 16.py:59-79 | A packet whose type is not 4 is read as an operator body. |
| PacketDecoder.OperatorBodyUnfold | 16.py:63-64 | After the length type and its 15- or 11-bit length field, the operator reads its sub-packets by that rule. |
| PacketDecoder.ReadOperandsByLength | 16.py:66-72 | The length-type-0 loop returns the sub-packets' version sum and values, and leaves the deque after them. It raises exactly when the decoding does. |
| PacketDecoder.ReadOperandsByCount | 16.py:73-77 | The same for the length-type-1 loop. |
| PacketDecoder.ReadOperands | 16.py:66-77 | The sub-packets are read by the length type's rule. |
| PacketDecoder.ReadOperator | 16.py:62-79 | An operator packet's body returns its version plus its sub-packets' version sums, and `OPERATORS[type]` of their values. |
| PacketDecoder.ReadPackets | 16.py:55-79 | `read_packets` returns the version sum and the value of the packet decoded from the deque, and leaves exactly the bits after it. It raises exactly when decoding or evaluating fails. |
| PacketDecoder.Nibbles | 16.py:85-86 | A hexadecimal line expands to four bits per letter. |
| PacketDecoder.Transmission | 16.py:83-88 | A line with a non-hexadecimal letter fails. Otherwise the result is the version sum and value of the packet its bits decode to, and it fails exactly when that does. |
| PacketDecoder.PayloadValue | 16.py:52 | The payloads of a literal's groups are its value in big-endian order. |
| PacketDecoder.GroupsDecode | 16.py:42-52 | Reading the groups a literal is written as gives its payloads and stops after the last group. |
| PacketDecoder.HeaderDecode | 16.py:56-57 | The 3-bit version and 3-bit type read back as written. |
| PacketDecoder.DecodeEncodeLiteral | 16.py:59-60 | Decoding an encoded literal packet gives it back. |
| PacketDecoder.OperatorHeaderDecode | 16.py:62-64 | An encoded operator header and length field read back and lead to its sub-packets. |
| PacketDecoder.DecodeEncodeOperator | 16.py:62-79 | An operator whose sub-packets read back reads back itself. |
| PacketDecoder.DecodeUntilEncodeAll | 16.py:66-72 | Length type 0 reads back exactly the encoded sub-packets and stops before what follows. |
| PacketDecoder.DecodeCountEncodeAll | 16.py:73-77 | Length type 1 reads back exactly the encoded sub-packets. |
| PacketDecoder.DecodeUntilEncodeCons | 16.py:66-72 | A packet that reads back, followed by sub-packets that read back under length type 0, read back together. |
| PacketDecoder.DecodeCountEncodeCons | 16.py:73-77 | A packet that reads back, followed by `n` sub-packets that read back under length type 1, are `n + 1` sub-packets that read back. |
| PacketDecoder.DecodeUntilStep | 16.py:69-72 | A packet followed by sub-packets up to the stop mark are all read by length type 0. |
| PacketDecoder.DecodeCountStep | 16.py:74-77 | A packet followed by `n - 1` sub-packets are `n` sub-packets for length type 1. |
| PacketDecoder.DecodeEncode | 16.py:55-79 | Decoding the bits of any well-formed packet, followed by anything, gives the packet and leaves what followed. |
| PacketDecoder.InterpretEncode | 16.py:55-79 | Reading an encoded packet returns its version sum (its own version plus its sub-packets') and its value, and raises exactly when evaluating it does. |
| TransparentOrigami.DotsMembership | 13.py:66-69 | `(x, y)` is a dot of the paper exactly when cell `[y][x]` exists and holds `#`. |
| TransparentOrigami.MarksAreDots | 13.py:66-69 | The number of `#` cells is the number of dots. |
| TransparentOrigami.MaxX | 13.py:4 | `max(x)` is at least every dot's x and is some dot's x. |
| TransparentOrigami.MaxY | 13.py:5 | `max(y)` is at least every dot's y and is some dot's y. |
| TransparentOrigami.Drawn | 13.py:7-13 | The grid has `height` rows of `width` cells. |
| TransparentOrigami.SheetDots | 13.py:4-13 | The paper has `max_y + 1` rows of `max_x + 1` cells, and its dots are exactly the given dots. |
| TransparentOrigami.BlankRow | 13.py:7-8 | One more loop pass adds one row of `.`. |
| TransparentOrigami.DrawStep | 13.py:10-13 | Setting a dot's cell to `#` draws that dot. |
| TransparentOrigami.BlankPaper | 13.py:7-8 | The first loop builds `height` rows of `width` cells of `.`. |
| TransparentOrigami.CreatePaper | 13.py:1-15 | No dots raise (`max` of an empty list). Otherwise a fresh paper is returned: `max_y + 1` rows of `max_x + 1` cells, with `#` exactly at the given dots. |
| TransparentOrigami.Paper.constructor | 13.py:2 | The paper holds the given rows. |
| TransparentOrigami.Paper.FoldLeft | 13.py:32-39 | After folding at `index`, the paper is the folded grid: every row has `index` cells, and cell `[y][c]` is `#` when it or cell `[y][2*index - c]` was. |
| TransparentOrigami.Paper.MirrorColumn | 13.py:33-36 | One pass of the outer loop marks cell `index - x` of every row where cell `index + x` is `#`. |
| TransparentOrigami.Paper.FoldUp | 13.py:42-48 | After folding at `index`, the paper is the folded grid: `index` rows, and row `r` has `#` where it or row `2*index - r` had it, across row 0's width. |
| TransparentOrigami.Paper.MirrorRow | 13.py:43-46 | One pass of the outer loop marks row `index - y` where row `index + y` has `#`. |
| TransparentOrigami.Paper.Fold | 13.py:51-56 | The instructions are applied in order. Axis `"x"` folds left, and any other axis folds up. |
| TransparentOrigami.Paper.CountDots | 13.py:66-69 | The counting loop returns the number of dots. |
| TransparentOrigami.Paper.FirstFoldDotCount | 13.py:59-71 | Only the first instruction, if any, is applied, and the result is the number of dots left. |
| TransparentOrigami.FoldLeftDots | 13.py:32-39 | Folding left keeps the dots left of the line and adds the mirror images of those right of it, up to twice the line. Dots on the line and beyond are lost. |
| TransparentOrigami.FoldedLeftCell | 13.py:33-39 | A cell of the folded paper is a dot exactly when it or its mirror cell was. |
| TransparentOrigami.FoldUpDots | 13.py:42-48 | Folding up keeps the dots above the line and adds the mirror images of those below it, within row 0's width. |
| TransparentOrigami.FoldedUpCell | 13.py:43-48 | A cell of the paper folded up is a dot exactly when it was one, or its mirror cell within row 0's width was. |
| TransparentOrigami.MirrorLeftStep | 13.py:35-36 | One more column pass: cell `index - x` takes the `#` of cell `index + x`, and cell `index + x` is not yet changed. |
| TransparentOrigami.MirrorLeftCut | 13.py:38-39 | Cutting a fully mirrored row to `index` cells gives the folded row. |
| TransparentOrigami.MirroredUpStep | 13.py:44-46 | A row whose cells have all been mirrored is one more row of the fold done. |
| TransparentOrigami.MirroredUpCut | 13.py:48 | Deleting the rows from the line on leaves the folded paper. |
| TransparentOrigami.CreateInstructionReads | 13.py:25-29 | `create_instruction("fold along A=N")` is `(A, N)` when `A` has no whitespace and no `=`. |
| TransparentOrigami.CreateInstructionShape | 13.py:25-29 | A line without words, or whose last word has no `=`, raises. A returned axis is the last word up to its first `=`, and holds no `=`. |
| TransparentOrigami.InstructionWords | 13.py:26 | An instruction line splits into the words `fold`, `along` and `A=N`. |
| ReactorReboot.CubeCount | 22.py:23-30 | `cube_count` is positive when every minimum is at most its maximum. |
| ReactorReboot.CubeCountPoints | 22.py:23-30 | `cube_count` is the number of cubes in the cuboid. |
| ReactorReboot.PointsOverlap | 22.py:47-55 | On well-formed intervals, `points_overlap` holds exactly when each interval starts no later than the other ends. |
| ReactorReboot.PointsOverlapSymmetric | 22.py:47-55 | `points_overlap` is symmetric in its two intervals. |
| ReactorReboot.PointsOverlapIntervals | 22.py:47-55 | On well-formed intervals, `points_overlap` holds exactly when each interval starts no later than the other ends, that is, when they share a value. |
| ReactorReboot.OverlapsSymmetric | 22.py:32-37 | `overlaps` is symmetric. |
| ReactorReboot.Overlaps | 22.py:32-37 | Cuboids that share a cube overlap. Well-formed cuboids overlap exactly when their extents meet on at least one axis. |
| ReactorReboot.OverlapsWithoutCommonCube | 22.py:32-37 | Two single cubes that share only their x coordinate `overlap` as written, yet have no cube in common. |
| ReactorReboot.IntersectsIffCommonCube | 22.py:32-37 | Overlap on every axis holds exactly when two well-formed cuboids share a cube, and it is symmetric. |
| ReactorReboot.InInitializationProcedure | 22.py:58-71 | The filter holds exactly when all six bounds lie in [-50, 50]. |
| ReactorReboot.InitializationBounds | 22.py:58-71 | The filter holds exactly when all six bounds lie in [-50, 50]. Then every cube of the step lies in the region. A well-formed step whose cubes all lie in the region passes. |
| ReactorReboot.ReadRange | 22.py:40-44 | `IndexError` is raised exactly when the line does not contain `coordinate=`. |
| ReactorReboot.ReadRangeReads | 22.py:40-44 | Reading `x` from a line holding `x=L..R,` as its first `x=` gives `(L, R)`. |
| ReactorReboot.RangePiece | 22.py:41-42 | The text after `x=` up to the comma is `L..R`, and it splits into `L` and `R`. |
| ReactorReboot.SumCubeCounts | 22.py:86 | The sum of cube counts over a set, in whatever order the set is iterated. |
| ReactorReboot.KeptSizesNonNegative | 22.py:80-86 | When every kept step is well-formed, the sum of the sizes of the distinct kept "on" (or "off") steps is not negative. |
| ReactorReboot.OnCount | 22.py:74-86 | With well-formed kept steps, the count is not negative when no "off" step is kept, and not positive when no "on" step is. |
| ReactorReboot.CubesOnCount | 22.py:74-86 | The result is the sum of the sizes of the distinct kept "on" steps minus that of the distinct kept "off" steps. |
| ReactorReboot.StepSetExtend | 22.py:80-84 | One more step adds itself to the "on" or "off" set, if the filter keeps it. |
| ReactorReboot.OnCountOrderFree | 22.py:77-86 | Two step lists with the same steps give the same count, whatever their order and repetitions. |
| ReactorReboot.NoFilterKeepsAll | 22.py:75-80 | Without a filter every step counts, as with a filter that keeps everything. |
| ReactorReboot.KeptSteps | 22.py:80 | `filter` keeps exactly the steps the filter accepts. |
| ReactorReboot.KeptAll | 22.py:80 | Without a filter, `filter` keeps every step in order. |
| ReactorReboot.LastCover | 22.py:74-86 | The last step holding a cube is found, and no later step holds it. |
| ReactorReboot.LitLastCover | 22.py:74-86 | A cube is on after the steps exactly when the last step that touches it switches it on. |
| ReactorReboot.OnCountCountsOverlapTwice | 22.py:74-86 | For two overlapping "on" steps, the count is 4 while 3 cubes are on. |
| ReactorReboot.OnCountOfDisjointOnSteps | 22.py:74-86 | When the steps are all "on" and pairwise share no cube, the count is the number of cubes on. |
| ExtendedPolymerization.PairFailure | 14.py:13-14 | A pair raises exactly when it has no rule or is shorter than two letters. It raises `KeyError` when its first letter exists and it has no rule. |
| ExtendedPolymerization.Grow | 14.py:13-14 | For a pair with a rule, lines 13-14 add exactly its left and right product pairs to the keys. |
| ExtendedPolymerization.GrowGet | 14.py:13-14 | Lines 13-14 for one pair add its quantity to the left and right pairs it produces. |
| ExtendedPolymerization.GrowKeys | 14.py:13-14 | Lines 13-14 for one pair create exactly the pairs it produces. |
| ExtendedPolymerization.GrowCommute | 14.py:12-14 | Two pairs can be processed in either order with the same result, so dictionary order does not matter. |
| ExtendedPolymerization.ExpandCounts | 14.py:10-14 | After the inner loop, the keys are the pairs produced. Every pair's quantity is the sum of what each processed pair contributed to it. |
| ExtendedPolymerization.InsertedOnePair | 14.py:12-14 | A pair `AB` with quantity `q` and rule `C` becomes `q` of `A+C` and `q` of `C+B`, and nothing else. |
| ExtendedPolymerization.ExpandTotal | 14.py:12-14 | Processing pairs that all have rules adds twice their quantity to the total. |
| ExtendedPolymerization.InsertedTotal | 14.py:12-16 | One step doubles the total pair quantity. |
| ExtendedPolymerization.ExpandOne | 14.py:13-14 | One more pass of the inner loop keeps the partial map equal to the expansion of the pairs done. |
| ExtendedPolymerization.ApplyRules | 14.py:10-16 | On success every pair had a rule, and the result is the step's specification. On failure some pair has no rule, and the error is the one its lookup raises. |
| ExtendedPolymerization.TemplateAfterSteps | 14.py:4-18 | Zero or negative steps return the template. The result is the specification's quantities after `steps` steps, and fails exactly when some step meets a pair without a rule. The total is `2^steps` times the template total. |
| ExtendedPolymerization.AfterStepsNext | 14.py:9-16 | A successful step advances the specification by one step and doubles the total. |
| ExtendedPolymerization.AfterStepsFails | 14.py:9-16 | A step that meets a pair without a rule makes every later number of steps fail. |
| ExtendedPolymerization.AfterStepsStuck | 14.py:9-16 | Once a step count fails, every larger one fails. |
| ExtendedPolymerization.TallyPair | 14.py:28-29 | Each letter of one more pair gains the pair's quantity (doubled). |
| ExtendedPolymerization.TallyPairs | 14.py:27-29 | The doubled tallies of every element are its occurrences across the pairs, weighted by quantity. |
| ExtendedPolymerization.TallyElements | 14.py:27-32 | The doubled tallies are the weighted occurrences across the pairs plus the occurrences in `corners`. |
| ExtendedPolymerization.DoubledUnique | 14.py:27-32 | Exactly one map of tallies fits that description. |
| ExtendedPolymerization.DoubledMissing | 14.py:27-32 | An element of neither the pairs nor the corners tallies 0. |
| ExtendedPolymerization.Extremes | 14.py:34 | `max` and `min` of the values are values, and bound every value. |
| ExtendedPolymerization.SpreadOfExtremes | 14.py:34 | Half the difference between the extremes is the spread, and it is not negative. |
| ExtendedPolymerization.PolymerSubtraction | 14.py:21-34 | The result exists exactly when the steps succeed and some element is tallied. It is `int(max/2 - min/2)` of the doubled tallies, and it is not negative. |
| ExtendedPolymerization.PairWeights | 14.py:40-41 | For the pair counts and the corners of a polymer, the weighted occurrences of an element are twice its occurrences in the polymer. |
| ExtendedPolymerization.DoubledCountsElements | 14.py:27-32 | The tallies of a polymer's pair counts and corners are twice each element's occurrences, which is why halving them counts elements. |

## Left out

- The file-reading blocks are input handling and are not modelled: 19.py:133-145, 22.py:89-101, 24.py:71-85, 13.py:81-93, 14.py:37-50. Of 16.py:82-90, only the expansion of one line (`Transmission`) is modelled.
- The printing functions only produce output and are not modelled: `print_ocean_statistics` (19.py:126-130), `print_paper` and `fold_all_and_print` (13.py:18-22, 13.py:74-78), and the printing and digit join of `print_edge_model_numbers` (24.py:68).
- BeaconScanner.ScannerPositions: the scanner `unprocessed.pop()` takes is a nondeterministic choice. The final positions are not proved independent of that choice.
- BeaconScanner: coordinates are triples. Tuples of other lengths, which the loader's assertion rules out, are not modelled.
- PacketDecoder.ReadBits: requires at least `count` bits. The callers check the length first and report `Malformed` for the `IndexError` that `popleft` raises on a short deque.
- PacketDecoder.BitQueue.PopLeft: requires a non-empty deque, for the same reason.
- PacketDecoder: all the exceptions reading a packet can raise (`IndexError`, `ValueError`, `KeyError`) are one `Malformed` failure.
- ArithmeticLogicUnit.TruncDiv: `int(x / y)` goes through a float in the source. It is modelled as exact truncation toward zero, so float rounding for operands beyond 2^53 is not modelled.
- ArithmeticLogicUnit.EdgeModelNumber: searches with a fresh cache, while the source shares one cache between the two digit orders (24.py:63-67). The sharing is not modelled. That the number found is the largest (or smallest) is not proved either.
- ArithmeticLogicUnit.DigitSearch.RunProgramPart: after an exception, the contents of `inputs` and `cache` are not stated.
- TransparentOrigami.Paper.Fold: requires every fold to fit the paper, with a non-negative line. The `IndexError` the source raises on a fold past the edge, and Python's negative indices, are not modelled.
- TransparentOrigami.Paper.FoldLeft: requires rows longer than twice the line, for the same reason.
- TransparentOrigami.Paper.FoldUp: requires more rows than twice the line, each except the line's own row at least as wide as row 0, for the same reason.
- TransparentOrigami.CreatePaper: coordinates are natural numbers. Negative ones, which Python reads as indices from the end, are not modelled.
- ExtendedPolymerization: the halves of 14.py:29 and 14.py:32 are modelled as doubled integer tallies, and the float precision limit is not modelled.
- ExtendedPolymerization: that a step on pair counts matches inserting into the polymer string is not proved. `PairWeights` and `DoubledCountsElements` relate the counts of a given polymer to its elements.
- ReactorReboot: the custom `__hash__` only speeds up hashing. Set membership uses the dataclass equality, which is datatype equality here.
- ReactorReboot: `filter(None, ...)` keeps truthy steps, and every `Cuboid` is truthy, so no filter is `None` and keeps everything.
- PyText: whitespace and digits are the ASCII ones. Python's Unicode whitespace and digits are not modelled.
- PacketDecoder.IsHexDigit: only ASCII hexadecimal digits are accepted. `int(letter, base=16)` also accepts the other Unicode decimal digits, and those are not modelled.
- PacketDecoder.HexValue: gives the value of ASCII hexadecimal digits only, for the same reason.

## Findings

| source | as written | input that shows it | evidently intended | confidence | as-written member | corrected member |
|---|---|---|---|---|---|---|
| 22.py:32-37 | `overlaps` holds when the intervals overlap on at least one axis | the single cubes (0,0,0) and (0,5,5): they overlap on x only, share no cube, and `overlaps` is true | two cuboids overlap when they share a cube, i.e. their intervals overlap on every axis | not executed | ReactorReboot.OverlapsWithoutCommonCube | ReactorReboot.IntersectsIffCommonCube |
| 22.py:74-86 | `cubes_on_count` adds the sizes of the distinct "on" steps and subtracts those of the "off" steps | `on x=0..1,y=0..0,z=0..0` then `on x=1..2,y=0..0,z=0..0`: the count is 4, but 3 cubes are on | the number of cubes on after the steps, where each cube takes the state of the last step that touches it | not executed | ReactorReboot.OnCountCountsOverlapTwice | ReactorReboot.LitLastCover |
