# Verified model of a BitTorrent client's core

This project models, in Dafny, the parts of a BitTorrent client written in Go that carry most of its logic, and
proves what they promise. The standards behind the code are BEP 3 ("bencoding" and "peer messages") and BEP 6.

- **The bencode codec.** A scanner reads one byte at a time, with a current-state function, a stack of open
  containers and a step size that may be zero. `Unmarshal` runs it twice: once to check the input, and once from
  `reset` while it decodes, without checking again. `Marshal` appends to a buffer and sorts the keys of maps.
- **The key comparators.** Three fast case-insensitive comparisons stand in for Unicode simple folding.
- **The piece bitmap and the peer manager.** Packed bits as index sets, bitfield messages, the choice of pieces, the
  block requests of a piece, and the frames on the wire.
- **The DHT routing table.** Buckets that split in place into overlapping ranges, and the distance between node ids.
- **The dominance pass.** Struct fields hidden by embedding are removed from a sorted slice, in place.

Objects that the Go code updates are classes here (`Scanner`, `DecodeState`, `EncodeState`, `Bitmap`, `Manager`,
`Peer`, `Conn`, `Bucket`, `Table`), and its loops are loops. Their methods are proved against pure functions of the old
state, and the theorems are about those functions.

## How to read it

| file | content |
|---|---|
| `Arithmetic`, `Bytes`, `Decimal`, `Trees` | byte strings and their order, decimal text, documents and the values they stand for |
| `ScanState`, `Validity`, `Skip` | the scanner as a transition function, `checkValid`, `skip` |
| `Scanner`, `Widths` | the scanner object; when its numbers fit in 64 bits |
| `Grammar`, `GrammarProofs` | the accepted language as a recursive descent, and the proof that the scanner accepts it |
| `Decoding`, `Decoder` | the decoder as total functions on every input, and the decoder object |
| `StrictDocuments`, `Lockstep` | the decoder on strictly written documents |
| `Descent`, `Heights`, `Tokens`, `DescentProofs`, `Exactness` | the decoder on every accepted input |
| `Encoding`, `Encoder`, `Canonical` | the encoder as a function, the encoder object, canonical documents |
| `Codec` | the laws that join encoder and decoder |
| `Format` | the format in numbers: which bytes are written and read, and what they decide |
| `Fold`, `Fields` | the key comparators, the dominance pass |
| `Bits`, `Bitmap`, `Blocks`, `Manager`, `Wire`, `Exchange` | bits, bitmaps, block requests, the manager, the wire, a bitfield from end to end |
| `Incoming`, `Misframed` | streams of standard messages in numbers; the frames that do not match their headers |
| `Distance`, `Splitting`, `RoutingTable`, `Hanging` | the metric on node ids, the routing table as values and as objects, a table that hangs |

## What the code does that one might not expect

Each of these is proved, and where a promise fails, the exact condition under which it does hold.

- `checkValid` runs for ever on zeros, a colon and a blank at top level (such as `0:` and a space), and on nothing
  else: `Validity.TerminatesExactly`.
- A top-level string is followed by bytes looked at in strides of its own length, and the top-level empty string is
  rejected: `Grammar.Document`, `GrammarProofs.AcceptExactly`, `Codec.TrailingBytes`.
- The scanner accepts leading zeros in lengths, a key without a length, a key without a value, and `0e` as the end of
  a container. The decoder then falls out of step; on which inputs it panics, and what it returns on the others, is
  `Exactness.UnmarshalExactly`. In a list, `00e` is an empty string and the end of the list.
- Marshalling what was unmarshalled gives back the input exactly on canonical bytes: `Codec.ReencodesExactly`.
- `Truncate` can keep one byte too many (from 9 bits to 8): `Bitmap.TruncateTight`.
- The block requests of a piece tile it only for some piece lengths: `Blocks.TilesExactly`.
- A bucket with a large first distance cannot split, because the shift overflows: `Splitting.MaySplitExactly`. And
  `addNode` can split the same range for ever; exactly when, and a table in which it does, are
  `Splitting.NeverEndsExactly` and `Hanging.Hangs`.
- The peer's test for the fast extension looks at a result that is still empty, and refuses nothing:
  `Wire.StreamFlagIsIgnored`. The messages on which `dispatch` does what the test is for are those of
  `Wire.DispatchObeysExactly`, and `Wire.HaveAllWithoutExtension` is one on which it does not.
- A bitfield longer than a frame may be is refused by the reader: `Exchange.FieldDelivered`.
- Some frames do not match their headers. A block is sent under the id of a cancel message and never arrives as a block
  (`Misframed.PieceIsCancel`); after a keep-alive, which is one byte and not four, nothing short is delivered any more
  (`Misframed.KeepAliveBreaks`); a port message closes the connection (`Misframed.PortCloses`); an allowed-fast message
  takes eight bytes of the next with it (`Misframed.AllowedFastSwallows`); and a suggestion is read as a length
  (`Misframed.SuggestIsLength`).
- A received block of fewer than four bytes is a nil pointer: `Incoming.PieceReceived`.
- The requests of a piece of whole blocks have one for no bytes among them: `Blocks.WholeBlocks`.

## Model

| member | source | states |
|---|---|---|
| Format.PrintIs | bencode/encode.go:276-281 | in numbers, the bytes written around an int, a string, a list and a dictionary |
| Format.PartsAre | bencode/encode.go:346-364 | items follow each other, and each key is a string before its value |
| Format.FirstByteDecides | bencode/scanner.go:116-138 | on every input: a dictionary is stored only if it begins with byte 100, a list only with 108, an int only with 105, a string only with 48 to 57 |
| Format.BlanksAfter | bencode/scanner.go:241-246 | after a document that is no string the bytes 32, 9, 13, 10 and 0 may follow and change nothing; any other byte makes it rejected |
| Format.IntIs | bencode/scanner.go:200-239 | after `i` the grammar takes a printed int and its `e`, and no other text |
| Format.IntInput | bencode/decode.go:177-225 | on every input that begins with `i`: it is rejected, or it is a printed int and white space, stored if it fits in 64 bits, else an error |
| Format.IntThenBytes | bencode/decode.go:177-225 | the same for every int and everything that may follow it |
| Format.IntInList | bencode/decode.go:655-670 | which bound, in numbers, an int in a list becomes, and when an error is saved |
| Format.TwoKeys | bencode/encode.go:346-364 | of two keys the one that comes first byte by byte is written first |
| Format.NeverReturnsExactly | bencode/scanner.go:8-25 | Unmarshal never returns exactly on bytes 48, a 58 and white space, followed by anything |
| Format.Example | bencode/decode_test.go:50-68 | the bytes of a document of every kind, marshalled and unmarshalled |
| Format.TestsRejected | bencode/scanner_test.go:11-16 | the inputs that the tests expect to be invalid are |
| Format.TestsAccepted | bencode/scanner_test.go:17-22 | and those that they expect to be valid |
| Format.TestsNested | bencode/scanner_test.go:23-25 | and the nested ones |
| Bytes.LessExactly | bencode/encode.go:356-356 | the recursive order is: a proper beginning comes first, and otherwise the first place that differs decides |
| Bytes.IncreasingExactly | bencode/encode.go:356-356 | what strictly increasing keys are, in those terms |
| ScanState.BeginValueInv | bencode/scanner.go:116-138 | a step that begins a value, with its calls to and from stateEndValue, keeps the scanner invariant, and the stack changes by the container opcode it returns; the mutual recursion on `e` ends |
| ScanState.EndValueInv | bencode/scanner.go:140-174 | the same for a step after a value: it never returns scanContinue, and with a container open it resets stepSize to 1 |
| ScanState.StepInv | bencode/scanner.go:72-256 | every step on every byte keeps the invariant (endTop means an empty stack; an error is set exactly in the error state; stringLen is nonzero only while a string is read), and a set error stays |
| ScanState.StepsInv | bencode/scanner.go:72-256 | over every run the invariant holds, and the stack height is the containers begun less those ended |
| Validity.LoopNeverEnds | bencode/scanner.go:8-25 | when the outcome is Loop, checkValid's loop is still running after any number of iterations |
| Validity.OtherwiseEnds | bencode/scanner.go:8-25 | with any other outcome the loop stops after some number of iterations, by remaining bytes and then a rank of the step function |
| Validity.ZerosRun | bencode/scanner.go:176-198 | after zeros, the scan loops exactly on a colon and a blank |
| Validity.NoEmptyTopEnds | bencode/scanner.go:140-147 | a scan that can no longer read an empty top-level string ends |
| Validity.LoopExactly | bencode/scanner.go:8-25 | checkValid loops exactly on the inputs zeros, colon, blank |
| Validity.TerminatesExactly | bencode/scanner.go:8-25 | checkValid terminates if and only if the input is not of that family |
| Scanner.Scanner.constructor | bencode/scanner.go:35-49 | a new scanner has no string length pending |
| Scanner.Scanner.Reset | bencode/scanner.go:72-78 | the state after reset, which keeps the pending string length |
| Scanner.Scanner.AtEof | bencode/scanner.go:80-95 | the opcode and the state at the end of the input, probed with a blank |
| Scanner.Scanner.PushParseState | bencode/scanner.go:97-99 | a container is pushed |
| Scanner.Scanner.PopParseState | bencode/scanner.go:101-110 | a container is popped, and the last one ends the top-level value |
| Scanner.Scanner.StateBeginValue | bencode/scanner.go:116-138 | the whole new state and opcode |
| Scanner.Scanner.StateEndValue | bencode/scanner.go:140-174 | the whole new state and opcode, through the call back to StateBeginValue |
| Scanner.Scanner.StateBeginString | bencode/scanner.go:176-191 | the whole new state and opcode |
| Scanner.Scanner.StateInString | bencode/scanner.go:193-198 | the whole new state and opcode |
| Scanner.Scanner.StateBeginInt | bencode/scanner.go:200-213 | the whole new state and opcode |
| Scanner.Scanner.StateNeg | bencode/scanner.go:215-221 | the whole new state and opcode |
| Scanner.Scanner.StateZero | bencode/scanner.go:223-229 | the whole new state and opcode |
| Scanner.Scanner.StateNum | bencode/scanner.go:231-239 | the whole new state and opcode |
| Scanner.Scanner.StateEndTop | bencode/scanner.go:241-246 | the whole new state, with the error set beside the opcode scanEnd |
| Scanner.Scanner.Error | bencode/scanner.go:252-256 | the error state |
| Scanner.Scanner.CallStep | bencode/scanner.go:36-36 | a call of the current step function is one transition |
| Scanner.CheckValid | bencode/scanner.go:8-25 | the imperative loop decides acceptance, terminates off the looping family, and leaves no string length pending when it accepts |
| Scanner.Valid | bencode/scanner.go:3-6 | whether the input is accepted by a new scanner |
| Scanner.EofClears | bencode/scanner.go:80-95 | a successful eof leaves stringLen 0, so that the decoder's reset scanner starts clean |
| Widths.StepFits | bencode/scanner.go:176-198 | on an input with no 19 digits in a row every step, of either pass, keeps string length and step size below 10^18 |
| Widths.LengthsFit | bencode/scanner.go:44-46 | so in every run on such an input they fit in 64 bits, as they do in the source |
| Skip.RunThroughSkip | bencode/decode.go:137-149 | from any state, checkValid goes on from where skip stops; where skip would run off the input, checkValid rejects |
| Skip.ErrorRunsOff | bencode/decode.go:137-149 | with an error set, skip runs off the end of the input |
| Grammar.BlankEveryByte | bencode/scanner.go:241-246 | with stride 1 the trailing bytes are white space, all of them |
| GrammarProofs.StringSkip | bencode/scanner.go:176-198 | scanning a string length and its content inside any containers comes to what the grammar reads there |
| GrammarProofs.IntSkip | bencode/scanner.go:200-239 | the same for an int |
| GrammarProofs.ItemSkip | bencode/scanner.go:116-174 | the same for any item of any container, at any depth, on any bytes |
| GrammarProofs.ListSkip | bencode/scanner.go:159-171 | the same for the rest of a list |
| GrammarProofs.FirstKeySkip | bencode/scanner.go:118-121 | the same for a dictionary from its first key, which may be empty or have no length |
| GrammarProofs.DictValueSkip | bencode/scanner.go:149-152 | the same for a dictionary from after a key, whose value may be missing |
| GrammarProofs.NextKeySkip | bencode/scanner.go:152-163 | the same for a dictionary from after a value |
| GrammarProofs.TrailRun | bencode/scanner.go:140-147 | after the top-level value, acceptance is white space at every stepSize-th byte, ending with the input |
| GrammarProofs.TopStringRun | bencode/scanner.go:176-198 | a top-level string is accepted exactly if it is not empty, is complete, and is followed by such white space |
| GrammarProofs.AcceptExactly | bencode/scanner.go:8-25 | on every input, checkValid accepts if and only if the input is a document of the independent grammar |
| GrammarProofs.BalancedAcceptance | bencode/scanner.go:101-174 | an input that begins with `d`, `l` or `i` is accepted if and only if it is one value and then white space only, and the container depth returns to zero exactly at the value's end |
| Decimal.DigitsRoundTrip | bencode/scanner.go:176-183 | the scanner's accumulation of a printed length gives the length back |
| Decimal.AtoiItoa | bencode/encode.go:277-277 | reading what was printed gives the int back, or the nearest bound and an error if it does not fit in 64 bits |
| Decimal.DigitAt | bencode/encode.go:277-277 | each printed digit is the decimal digit at its power of ten, in ASCII |
| Decimal.DigitCount | bencode/encode.go:277-277 | there are as many digits as the number needs |
| Decimal.DigitsOfAccumulated | bencode/scanner.go:176-183 | digits with no leading zero are the printed form of the number they are read as |
| StrictDocuments.TreeReads | bencode/scanner.go:116-239 | the grammar reads every strictly printed document exactly to its end |
| StrictDocuments.SloppyFails | bencode/scanner.go:152-158 | every other printed document, with an empty key after the first of a dictionary, is refused |
| Lockstep.StringLock | bencode/decode.go:645-653 | the decoder slices exactly a string's content, and has then read one byte on |
| Lockstep.IntLock | bencode/decode.go:655-659 | the decoder slices exactly an int's digits |
| Lockstep.IntInterfaceLock | bencode/decode.go:655-670 | the int is returned, or its bound with an error saved |
| Lockstep.ListLock | bencode/decode.go:603-618 | a list's items in order, ending on its `e` with the scanner one container out |
| Lockstep.DictLock | bencode/decode.go:620-643 | a dictionary's entries, the last of a repeated key, ending likewise |
| Lockstep.ValueLock | bencode/decode.go:584-601 | lockstep: inside any containers, on a strictly written document the decoder never panics, returns its value, and leaves off, opcode and scanner as after the document's last byte |
| Decoding.ValueInterface | bencode/decode.go:584-601 | on any bytes at all: a value is returned only where one has begun, and the offset has grown |
| Decoding.ScanNext | bencode/decode.go:151-159 | the offset never goes back inside the input, and a begun value moves it on |
| Decoding.ScanOn | bencode/decode.go:161-175 | the same for the scan to the next opcode |
| Decoding.StringInterface | bencode/decode.go:645-653 | on any bytes: the state after a string is proper, and the offset has grown |
| Decoder.DecodeState.Init | bencode/decode.go:110-117 | the decoder is at the beginning with no error saved |
| Decoder.DecodeState.Skip | bencode/decode.go:137-149 | the loop stops at the specified offset, opcode and scanner state, or runs off the input |
| Decoder.DecodeState.ScanNext | bencode/decode.go:151-159 | the new offset, opcode and scanner state |
| Decoder.DecodeState.ScanWhile | bencode/decode.go:161-175 | the same for the loop to the next opcode |
| Decoder.DecodeState.ValueInterface | bencode/decode.go:584-601 | the recursive methods over one scanner object give the value and the state of the specification, or panic where it does |
| Decoder.DecodeState.ListInterface | bencode/decode.go:603-618 | the same for lists |
| Decoder.DecodeState.DictInterface | bencode/decode.go:620-643 | the same for maps |
| Decoder.DecodeState.StringInterface | bencode/decode.go:645-653 | the same for strings |
| Decoder.DecodeState.IntInterface | bencode/decode.go:655-670 | the same for ints; the branch for a literal that is no number is dead |
| Decoder.IntItem | bencode/decode.go:661-663 | why it is dead: on any input, the text of an int that is not empty begins with a digit or a sign |
| Decoder.DecodeState.RawContainer | bencode/decode.go:279-285 | the slice handed to an Unmarshaler is from the container's first byte to where skip stops |
| Decoder.DecodeState.StoreValue | bencode/decode.go:177-225 | decoding into an empty interface; an int that does not parse stores nothing |
| Decoder.Unmarshal | bencode/decode.go:15-24 | the two passes over one scanner give the specified result on every input on which the first ends |
| Heights.ValueSinks | bencode/decode.go:584-601 | whatever the input, a decoder that returns leaves no more containers open than there were, so that a container lost is never regained |
| Tokens.HeadScan | bencode/scanner.go:176-183 | on accepted input a length with no leading zero is scanned to its colon as the descent reads it |
| Tokens.StringReads | bencode/decode.go:645-653 | on accepted input a string token, zeros included, is read as the descent reads it, or the decoder has lost a container or stops inside the string |
| Tokens.IntReads | bencode/decode.go:655-670 | on accepted input an int is always read |
| DescentProofs.ValueReads | bencode/decode.go:584-601 | on accepted input, at any point of any container, decoder and scanner-free descent give the same value and go on at the same byte, or both are lost |
| DescentProofs.ItemsRead | bencode/decode.go:603-618 | the same for the rest of a list |
| DescentProofs.EntriesRead | bencode/decode.go:620-643 | the same for the rest of a dictionary |
| Exactness.UnmarshalExactly | bencode/decode.go:15-24 | on every input: it never returns on zeros, a colon and a blank; else it rejects what is no document of the grammar, and of a document gives what the scanner-free descent gives, with a panic exactly where that is stuck |
| Exactness.PanicsExactly | bencode/decode.go:584-643 | the decoder panics if and only if the input is an accepted list or dictionary that the descent cannot read |
| Codec.StrictAccepted | bencode/scanner.go:8-25 | of all printed documents checkValid accepts exactly the strictly written ones, save the empty string |
| Codec.UnmarshalStrict | bencode/decode.go:15-24 | any printed document gives its value, with an error exactly if some int overflows, or is rejected for an empty key after the first or as the empty string |
| Codec.DecodeStrict | bencode/decode.go:584-670 | the scanner-free descent gives the same value |
| Codec.RoundTrip | bencode/encode.go:15-28 | unmarshalling what was marshalled gives back every value with 64-bit ints; only the empty string is rejected |
| Codec.TrailingString | bencode/decode.go:202-212 | what a top-level string becomes when white space follows it |
| Codec.TrailingBytes | bencode/decode.go:177-225 | with white space after the document the value is right except exactly after a string of two bytes or more |
| Codec.SkipExact | bencode/decode.go:137-149 | from just after a container's first byte, at any depth, skip stops just after its last, so the slice is the container's own text (the bytes of the info hash) |
| Codec.SkipIsDecode | bencode/decode.go:279-285 | skipping a container leaves offset, opcode and scanner exactly as decoding it does |
| Codec.UnmarshalFits | bencode/decode.go:655-670 | every int that is decoded fits in 64 bits, on any input |
| Codec.ReencodesExactly | bencode/decode_test.go:50-68 | decoding without error and encoding again gives back the input if and only if the input is canonical |
| Codec.LeadingZero | bencode/scanner.go:176-183 | `03:foo` is accepted and decoded as the empty string |
| Codec.TwoZeros | bencode/scanner.go:176-190 | `l00e` is accepted and decoded as a list of one empty string |
| Codec.KeyWithoutValue | bencode/decode.go:638-638 | `d1:ae` is accepted, and the decoder panics |
| Encoding.SortedKeysIncrease | bencode/encode.go:353-356 | the order of the keys is strictly increasing |
| Encoding.IncreasingIsSorted | bencode/encode.go:356-356 | and it is the only one, whatever sort is used |
| Encoding.EntriesInOrder | bencode/encode.go:346-364 | the entries written for a map are its keys with their own values, in byte-wise order |
| Encoding.ToTreeDenotes | bencode/encode.go:346-364 | the document written for a value is strict and stands for that value |
| Canonical.CanonicalRebuilds | bencode/encode.go:346-364 | encoding the value of a canonical document gives back that document |
| Canonical.CanonicalIsStrict | bencode/scanner.go:152-158 | a canonical document is strictly written: only its first key can be empty |
| Canonical.EncodedIsCanonical | bencode/encode.go:346-364 | the encoder writes canonical documents only |
| Canonical.DenotedAt | bencode/decode.go:638-638 | with increasing keys, each key of the decoded map has its own entry's value |
| Canonical.LastEntryWins | bencode/decode.go:638-638 | of entries with one key, in any order, the last gives the value |
| Canonical.DenotedItem | bencode/decode.go:603-618 | a list has its items' values, in order |
| Encoder.EncodeState.EncodeInt | bencode/encode.go:276-281 | the printed int is appended to the buffer |
| Encoder.EncodeState.EncodeString | bencode/encode.go:501-511 | the printed string is appended |
| Encoder.EncodeState.EncodeList | bencode/encode.go:418-425 | the printed list is appended |
| Encoder.EncodeState.EncodeMap | bencode/encode.go:346-364 | the printed map is appended, its keys in order |
| Encoder.SortKeys | bencode/encode.go:356-356 | the keys come out in byte-wise order, said without the recursion, and are the same keys |
| Encoder.Marshal | bencode/encode.go:15-28 | the bytes of the document written for the value |
| Fold.DecodeEncoded | bencode/fold.go:79-79 | decoding a rune undoes its UTF-8 encoding, whatever follows |
| Fold.Decoded | bencode/fold.go:79-79 | what is decoded from any bytes is a scalar value whose encoding is there, or U+FFFD of width 1 |
| Fold.DecodeExactly | bencode/fold.go:79-79 | and it is the first exactly if there is a scalar value whose encoding the bytes begin with |
| Fold.SingleKey | bencode/fold.go:22-25 | exactly which bytes match a key of one ASCII byte, in numbers |
| Fold.AsciiEqualFoldIs | bencode/fold.go:22-25 | for an ASCII key Unicode folding is decided by the letters' cases, the Kelvin sign and the long s |
| Fold.Bytewise | bencode/fold.go:101-104 | without `k` and `s`, folding against any bytes is a byte-wise comparison |
| Fold.FoldFunc | bencode/fold.go:29-51 | exactly which comparator is chosen for a key |
| Fold.EqualFoldRight | bencode/fold.go:57-99 | agrees with folding rune by rune, on any bytes |
| Fold.AsciiEqualFold | bencode/fold.go:105-123 | the same, for keys without `k` and `s` |
| Fold.SimpleLetterEqualFold | bencode/fold.go:129-139 | the same, for keys of other letters only |
| Fold.MatchKey | bencode/fold.go:29-51 | the comparator chosen for any key decides Unicode simple folding against any bytes, valid UTF-8 or not |
| Bitmap.CountIsSize | common/bitmap/bitmap.go:103-114 | the count over a range is the size of the set of indices on in it |
| Bitmap.CountZero | common/bitmap/bitmap.go:103-114 | the count is zero exactly if no index of the range is on |
| Bits.BitIs | common/bitmap/bitmap.go:89-89 | bit j of a byte is the binary digit of its value at 2^j |
| Bits.SetBitIs | common/bitmap/bitmap.go:63-63 | setting a bit that is off adds 2^j to the byte |
| Bits.ClearBitIs | common/bitmap/bitmap.go:71-71 | clearing a bit that is on takes 2^j away |
| Bits.BitAtIs | common/bitmap/bitmap.go:89-89 | an index is on exactly if its byte has the binary digit at 2^(7 - index mod 8), the high bit first |
| Bitmap.HighBitFirst | common/bitmap/bitmap.go:63-63 | the first index of a byte is written as 0x80, the last as 0x01 |
| Bitmap.TruncateTight | common/bitmap/bitmap.go:39-49 | exactly when truncation leaves no byte too many |
| Bitmap.Bitmap.NewEmpty | common/bitmap/bitmap.go:18-26 | no index on, no spare byte, no spare bit |
| Bitmap.Bitmap.NewBitmap | common/bitmap/bitmap.go:28-33 | eight indices for each byte, over the caller's own bytes |
| Bitmap.Bitmap.Truncate | common/bitmap/bitmap.go:39-49 | on any bitmap: the indices below the new size stay, and how many bytes are left |
| Bitmap.Bitmap.Assign | common/bitmap/bitmap.go:51-57 | the index set of the other bitmap, byte by byte as far as both go, or nothing if the sizes differ |
| Bitmap.Bitmap.SetBitOn | common/bitmap/bitmap.go:59-65 | adds one index; every other bit stays, spare bits too; in numbers, what it adds to which byte |
| Bitmap.Bitmap.SetBitOff | common/bitmap/bitmap.go:67-73 | removes one index; every other bit stays; in numbers, what it takes from which byte |
| Bitmap.Bitmap.SetRangeBitOn | common/bitmap/bitmap.go:75-83 | adds a range; every other bit stays |
| Bitmap.Bitmap.GetBit | common/bitmap/bitmap.go:85-93 | whether an index is on, as a set and as a binary digit, or out of range |
| Bitmap.Bitmap.CountBitOn | common/bitmap/bitmap.go:103-114 | the count over a range, or out of range |
| Bitmap.Bitmap.Not | common/bitmap/bitmap.go:127-133 | the complement among the indices, and of every spare bit, so that the result is clean exactly if all of them were on |
| Bitmap.Bitmap.And | common/bitmap/bitmap.go:135-144 | the intersection, or nil if the sizes differ |
| Bitmap.Bitmap.XOR | common/bitmap/bitmap.go:146-155 | the symmetric difference, or nil if the sizes differ |
| Blocks.CoversOnce | peer/manager.go:561-571 | every offset of a tiled piece is in exactly one requested block |
| Blocks.Contiguous | peer/manager.go:561-571 | each block begins where the one before it ends |
| Blocks.BackwardFibonacci | peer/manager.go:566-570 | near the end of a piece the lengths are consecutive Fibonacci numbers backwards, times one factor |
| Blocks.TilesExactly | peer/manager.go:529-571 | the requests, each of 0 to 16384 bytes, end and tile the piece if and only if its length is a multiple of 16384, or at least 32768 with a remainder of 8192 or 10240 |
| Blocks.WholeBlocks | peer/manager.go:561-571 | the requests of a piece of whole blocks: every block of 16384 bytes, and one of no bytes before the last |
| Manager.Manager.IsInterest | peer/manager.go:751-754 | true exactly if some needed piece is held by the peer |
| Manager.Manager.HandleField | peer/manager.go:600-615 | exactly which bitfields are taken; one taken becomes the peer's index set, any other closes the peer and changes nothing |
| Manager.Manager.ReceiveBitfield | peer/manager.go:477-478 | a bitfield message is taken exactly if it has the right number of bytes and no spare bit on; the index set as binary digits of the bytes; the interest mark |
| Manager.Manager.ReceiveHaveAll | peer/manager.go:487-490 | the peer then has every piece |
| Manager.Manager.ReceiveHaveNone | peer/manager.go:491-493 | the peer then has none |
| Manager.FieldFitsExactly | peer/manager.go:600-609 | the manager's test of sizes and counts says just that about the bytes |
| Manager.SentFieldFits | peer/protocol.go:225-230 | round trip: the bytes of a bitmap are taken by a peer with as many pieces, and stand for the same index set |
| Exchange.OctetBits | peer/protocol.go:225-230 | an index is on exactly if the byte on the wire has the binary digit at 2^(7 - index mod 8) |
| Exchange.FieldDelivered | peer/protocol.go:225-230 | the frame of a bitmap is delivered as its bytes, exactly if it is not over the maximum length |
| Exchange.SendField | peer/manager.go:600-615 | from a bitmap through frame, reader, dispatch and handler: a peer with as many pieces has then exactly the sender's index set and the interest mark that follows from it, unless the frame is too long |
| Exchange.SendPieces | common/bitmap/bitmap.go:59-65 | the same for a bitmap built index by index |
| Manager.Manager.SelectPiece | peer/manager.go:724-749 | for every start: -1 exactly if no rejected request is held by the peer and every piece is settled; else a rejected request it holds, or the first unsettled piece from the start; an expired request moves from requests to rejectRequest |
| Manager.TurnsReach | peer/manager.go:733-735 | the turns of the loop, modulo the number of pieces, reach each index once |
| Manager.Manager.NextRequest | peer/manager.go:561-571 | the next block of the piece |
| Manager.Manager.RequestPiece | peer/manager.go:529-559 | nothing for a peer with a request out; else what is sent and the whole record in each case; with a tiling piece length every record stays on the tiling, and each stays under its own index |
| Wire.Be32Is | peer/protocol.go:376-384 | a 32-bit field is four bytes, the high one first |
| Wire.Be32Value | peer/protocol.go:376-384 | the four bytes of a 32-bit field, high byte first, have its value |
| Wire.UnpackPacked | peer/protocol.go:395-401 | unpacking undoes packing, wherever the field stands |
| Wire.FrameIs | peer/protocol.go:82-136 | every frame is its length, its id and its body |
| Wire.BodyDispatched | peer/protocol.go:349-374 | dispatching the body of a message delivers that message |
| Wire.SwitchKnows | peer/protocol.go:354-367 | which ids are known, and that a delivery keeps its id |
| Wire.FlagIsIgnored | peer/protocol.go:350-352 | with or without the fast extension every message is dispatched alike |
| Wire.StreamFlagIsIgnored | peer/protocol.go:350-352 | and so is every stream |
| Wire.DispatchObeysExactly | peer/protocol.go:350-352 | dispatch refuses what the test is meant to refuse if and only if the flag is set, or the id is at most 9, or it is unknown |
| Wire.HaveAllWithoutExtension | peer/protocol.go:264-267 | a have-all frame from a peer without the extension is delivered |
| Wire.DeliveredInjective | peer/protocol.go:349-374 | different messages are delivered differently |
| Wire.FrameReceived | peer/protocol.go:322-347 | a frame at the head of any stream is delivered, unless it is over the maximum length |
| Wire.StreamReceived | peer/protocol.go:322-374 | every sequence of messages is received as it was sent, and every byte is read |
| Wire.Conn.ReadFull | peer/protocol.go:336-342 | the bytes asked for, or the end of the stream |
| Wire.Conn.ReadMessage | peer/protocol.go:322-347 | one message taken from the stream, and what that means for the rest |
| Wire.Conn.RecvMessage | peer/peer.go:102-125 | the loop delivers what the specification says, and stops where it says |
| Incoming.FrameWritten | peer/protocol.go:82-136 | every frame sent is that of the standard in numbers, and so is what is delivered for it |
| Incoming.PieceReceived | peer/protocol.go:386-393 | for every 32-bit index and offset and all data up to 16384 bytes, exactly that index, offset and data are delivered, or a nil block for fewer than four bytes; more closes the connection |
| Incoming.WholeBlock | peer/protocol.go:47-47 | a block of 16384 bytes is delivered, one of 16385 closes the connection |
| Incoming.IndexReceived | peer/protocol.go:357-359 | the index of a suggested or allowed-fast piece is delivered |
| Incoming.ItemReceived | peer/protocol.go:322-374 | one message of any kind at the head of any stream, empty ones too |
| Incoming.StreamOfAny | peer/protocol.go:322-374 | any sequence of messages, keep-alives and blocks among them, cut off anywhere in one more, is delivered in order, and the part is not |
| Incoming.UnknownCloses | peer/protocol.go:366-372 | an id that is not in use closes the connection |
| Incoming.Listen | peer/peer.go:102-125 | the loop of a connection on such a stream delivers just those messages |
| Misframed.PieceIsCancel | peer/protocol.go:241-248 | a block that is sent is delivered as a cancelled request, nil unless it has four bytes |
| Misframed.KeepAliveBreaks | peer/protocol.go:189-193 | after a keep-alive no message of fewer than 256 bytes, nor anything after it, is delivered |
| Misframed.PortCloses | peer/protocol.go:258-262 | a port message closes the connection, with two of its bytes unread |
| Misframed.AllowedFastSwallows | peer/protocol.go:287-290 | an allowed-fast message is delivered and takes the next eight bytes with it |
| Misframed.SuggestIsLength | peer/protocol.go:274-277 | the index of a suggestion is read as a length |
| Distance.ComputeDistance | dht/node.go:113-125 | the nested loop counts the bits that differ: the result is the size of the set of those positions |
| Distance.DifferencesIsSize | dht/node.go:113-125 | the count is the size of the set of positions that differ |
| Distance.DifferIs | dht/node.go:113-125 | which positions those are, as binary digits |
| Distance.Opposite | dht/node.go:113-125 | the distance is 160 exactly for an id and its complement |
| Distance.Symmetric | dht/node.go:113-125 | the distance is symmetric |
| Distance.Triangle | dht/node.go:113-125 | the triangle inequality |
| Distance.IsMetric | dht/node.go:113-125 | on all ids the distance is a metric, from 0 to 160 |
| Splitting.ShiftWraps | dht/table.go:75-77 | the shift is the 64-bit number that differs from 2 * 2^i by a multiple of 2^64 |
| Splitting.MaySplitExactly | dht/table.go:74-80 | exactly which ranges may split, with the overflow of the shift |
| Splitting.SumBelow | dht/table.go:83-89 | a part of a bucket's nodes has at most, and if any is missing strictly less than, their total |
| Splitting.MovedTotal | dht/table.go:81-89 | a split fills the new bucket as much as the old one exactly if every node moves |
| Splitting.SplitKeeps | dht/table.go:81-90 | whatever the ranges, a split loses no node and leaves no distance without a bucket |
| Splitting.AppendKeeps | dht/table.go:57-71 | adding a node where its distance belongs makes the table hold it, and loses no other |
| Splitting.TurnKeeps | dht/table.go:112-125 | after every turn of addNode's loop each accepted node is in a bucket whose range has its distance, and each distance from 0 to 160 has a bucket |
| Splitting.NeverStops | dht/table.go:115-122 | where every bucket that has the distance splits into itself in the end, the loop still runs after any number of turns |
| Splitting.Stops | dht/table.go:115-122 | one bucket that has the distance and does not is enough to stop the loop |
| Splitting.NeverEndsExactly | dht/table.go:112-125 | addNode never returns if and only if every bucket that has the distance is full, may split down to a range that begins in its own middle, and has all of its nodes above that, as has the distance |
| Splitting.TurnsEnd | dht/table.go:112-125 | every turn is a step toward the one ending of the call, or is that ending: the node is added if the bucket at which the loop stops has room, else dropped |
| Hanging.FillsUp | dht/table.go:112-125 | turn by turn, how the first bucket fills with nodes at distance 60, and what the table is in the end |
| Hanging.Hangs | dht/table.go:103-125 | a table that hangs: from a new table, 160 calls add a node at distance 60, and the next such call never ends |
| Hanging.SixtyApart | dht/node.go:113-125 | there are ids at that distance |
| RoutingTable.Bucket.AddNode | dht/table.go:57-71 | the node is appended to its list and count stays the total, or the bucket is full or the distance out of range |
| RoutingTable.Bucket.CopyList | dht/table.go:83-89 | the new bucket refuses no node of a list in its range |
| RoutingTable.Bucket.Split | dht/table.go:73-91 | the new range and its nodes, and the old bucket's, or no split |
| RoutingTable.Table.constructor | dht/table.go:103-110 | one bucket for all distances, with nothing but the own node |
| RoutingTable.Table.FindBucket | dht/table.go:127-134 | a bucket is always found, and it is the first with the distance in its range |
| RoutingTable.Table.SplitBucket | dht/table.go:115-122 | splitting loses no accepted node, leaves no distance without a bucket, and changes no other bucket |
| RoutingTable.Table.AddTurn | dht/table.go:112-125 | one turn of addNode's loop over the buckets themselves is the specified turn; no node is lost, and count is the number accepted |
| RoutingTable.Table.AddNode | dht/table.go:112-125 | wherever the loop is not endless: exactly when the node is added and what the table is then; no node is lost |
| Fields.IndexLess | bencode/encode.go:535-545 | the comparison is the lexicographic order of the indices, said without the recursion |
| Fields.OnePerName | bencode/encode.go:700-705 | at most one field of a name dominates |
| Fields.DominatesExactly | bencode/encode.go:700-714 | a field dominates if and only if every other of its name is deeper, or as deep without a tag where it has one |
| Fields.PriorIsBefore | bencode/encode.go:648-660 | the order of sorting puts the prior of two fields of one name first, then orders by index |
| Fields.NamesInOrder | bencode/encode.go:648-660 | and fields of different names by name, byte by byte |
| Fields.GroupDominance | bencode/encode.go:706-714 | in a sorted group exactly its first field can dominate, if it is alone or prior to the second |
| Fields.SecondOfGroup | bencode/encode.go:706-714 | dominantField's test of the first two fields decides that |
| Fields.Compact | bencode/encode.go:668-690 | the pass over its own backing array keeps exactly the fields that dominate all others of their name, in order |

## Left out

- CheckValid: asks that the input is not zeros, a colon and a blank, on which the source's loop never returns; Valid and Unmarshal ask the same. `Validity.TerminatesExactly` shows that this is every such input.
- Scanner.Scanner: `stringLen`, `stepSize` and offsets are unbounded naturals, so the wrap-around of a length of more than 63 bits is not modelled; `Widths.LengthsFit` shows that there is none on inputs with no 19 digits in a row.
- Scanner.Scanner.Error: the error's message and the `bytes` counter that is printed in it are left out.
- Decoding.Slice: a slice that ends past the input counts as a panic, whatever spare capacity the Go slice may have.
- Decoder.DecodeState.StoreValue: only destinations of type `interface{}`, and the raw text handed to an Unmarshaler; reflection, struct fields, pointers and text marshalers are not part of this model.
- Encoder.EncodeState.EncodeValue: ints, byte strings, lists and string-keyed maps; nil values, structs and the encoder cache are left out.
- Decimal.Atoi: `strconv`, `sort` and the order in which a Go map is walked are replaced by small routines with the same results, or by a nondeterministic choice.
- Fold.MatchKey: the Unicode tables are a parameter, of which only its values on ASCII runes are fixed.
- Bitmap.Bitmap.Truncate: asks for a size that is not larger; the source panics otherwise.
- Bitmap.Bitmap.Not: asks for a bitmap with no spare byte, as NewEmptyBitmap makes them, because the source may panic otherwise; And and XOR do so if the sizes are equal.
- Manager.Manager.HandleField: the interest message sent to the peer is left out.
- Manager.Manager.SelectPiece: the clock is read once and the random start is a parameter.
- Manager.Manager.RequestPiece: what is sent is recorded at the peer; its frame is that of `Wire.Frame`.
- RoutingTable.Table.AddNode: asks that its loop is not endless; `Splitting.NeverEndsExactly` shows that this is every case in which the source's loop does not return.
- RoutingTable.Bucket: the goroutine that removes nodes (it does not update `count`) is left out; channels and tasks are too.
- Wire.Message: piece, port, keep-alive, suggest and allowed-fast frames are not among its messages, because their bytes do not match their headers; they are modelled one by one in `Misframed`.
- Wire.Conn.RecvMessage: the closing channel, which may stop the loop at any message, and the time of the last keep-alive are left out.
- Wire.Conn: the stream is a byte sequence; sockets, the handshake and concurrent senders are left out.
- Fields.Compact: the sorts before and after the pass, and the walk over the struct's types, are left out; what the pass needs of the first sort is its precondition.
- Handlers of choke, have, cancel, piece and reject messages, unchoking, the fast set, the filesystem, the tracker, the HTTP parts and the command line are not part of this model.
