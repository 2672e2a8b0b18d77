# A Dafny model of the PDT driver's protocol library

The driver describes each of its messages by a format: a list of field descriptors with a name, a byte and bit
position, a length, a unit (bytes or bits) and, for a variable field, the name of the field that holds its length.
A protocol analyzer is a private copy of a format together with a 100-byte message buffer and a hash index over the
field names. It prints values into the buffer (generate) and reads them back (parse), and discovers the layout as it
goes: on reaching a variable field it fixes its length and moves everything behind it. The command handlers cut a
container into records and feed them to analyzers that are reused from one record to the next.

The project models that codec, the containers it rests on, and the commands built on it, and proves what they do for
all inputs. Code that updates memory in place is modelled by classes, arrays and loops, each method proved equal to a
specification on values; the theorems are lemmas about those specifications.

## Structure

| file | contents |
|---|---|
| `CTypes`, `Bits`, `BitStream` | C integer widths, bits of numbers, a buffer as one stream of bits |
| `FieldIO`, `BitFields` | the loops that move one field in and out of the buffer, and what they mean for each other |
| `Format` | descriptors, the name lookup, one pass of generate and parse on values |
| `RoundTrip`, `Messages` | layout and round trip of whole messages |
| `Reuse`, `ParseResult` | several messages through one analyzer; what a finished parse depends on |
| `ProtocolAnalyzer` | the analyzer itself: descriptors, buffer and index in memory |
| `HashTable`, `HashMap`, `NameIndex` | the chained hash map, as buckets of nodes and as linked memory, and its use as field index |
| `LinkList` | the circular list |
| `Numerals`, `Tables` | numeral parsing, building format tables, and the tables themselves |
| `Business` | the 0x3010 and 0x301b commands |
| `OnePass`, `Runs` | one parse as equations between places, lengths and bytes; any number of them through one analyzer |
| `Senders` | the repository's own senders, from setting values to the bytes of the message |
| `Records`, `Container3010`, `Container301b` | what the commands make of well-formed containers |
| `Drift301b`, `Placement301b` | when 0x301b reads its records right, and when it stays inside its memory |
| `Uevent` | the uevent parser |
| `Witnesses` | concrete inputs on which the code falls short |

## Main results

- A message generated from any well-formed format, mixing byte, buffer and bit fields, is parsed back by an analyzer of
  the same format: neither pass leaves its memory, every field is found where the sender had it, with its length
  (`Messages.MessageRoundTrip`), and its value is delivered exactly when the values sent leave the bit above it clear
  (`Messages.DeliveredIff`).
- Any 0x3054 messages packed into a 0x3010 command are decoded one for one by its single reused analyzer
  (`Container3010.ContainerRoundTrip`).
- For any well-formed 0x301b command, `Placement301b.Command301b` says exactly when the loop stays inside its memory, and
  that it then reads a record in the right place exactly when no earlier record of its kind moved a field.
- The hash map refines one stack of nodes per key over every run, with its cached begin cursor always on the first node;
  iteration and destruction visit every node of every bucket, none of them twice.
- The linked list refines a sequence over every run.
- The uevent parser is a last-wins fold over the segments of the message, key by key.
- A byte field's buffer or number stands in the message at its base position plus the lengths in front of it
  (`Messages.BufferInMessage`, `Messages.NumberBytesInMessage`), and the analyzer that generated an ackd message parses it
  (`Senders.SetGenerateParse`).

## Where the code falls short of its intent

Each of these is stated exactly, as a condition that holds if and only if the code behaves; `Witnesses` has a concrete
input for each.

- `pow` multiplies once too often, so the bit masks are one bit too wide. A bit field is read exactly if and only if it
  is 32 bits wide, begins at bit 7, or the bit above it is clear (`BitFields.ReadBitsExactly`); in a packed buffer that is
  decided by the values packed (`BitFields.PackedReadsExactlyIff`), and an ackd message is read exactly if and only if LB
  and PF are 0 and RI and ARC are even (`Tables.AckdReadsExactlyIff`). A write stays inside the field if and only if the
  value's surplus bit adds nothing (`BitFields.WriteBitsStaysInside`).
- `pa_reset_vlen_flag` does not move fields back. Over safe parses a reused analyzer finds a record in its place if and
  only if no earlier one moved a field (`Runs.PlacedInRunIff`). Only the last field of 0x3054 is variable, so 0x3010 is not
  affected; 0x301b is: a 0x3050 record is looked for in the right place if and only if the slc_info values of the earlier
  ones add up to a multiple of 256 (`Placement301b.Placed3050Iff`).
- So 0x301b can leave its 100-byte buffers on ordinary records. It stays inside them if and only if every record finds
  room behind the drift left by those in front of it (`Placement301b.Safe301bIff`); in particular the slc_info values of the
  0x3050 records must not add up to more than 87 (`Placement301b.SafeBoundsSlc`).
- `pa_set_buf` fills a field's buffer, but generate prints the number of a field of up to four bytes, which nobody sets. So
  data of one to four bytes is lost unless it is zero, and an analyzer that sends twice without a reset keeps the first
  length: a 0x3054 message is the one meant if and only if neither happens (`Senders.Send3054`).
- `print_info_list` shows a short field's old buffer if it has one. The data bytes printed for a 0x3010 record are those
  sent if and only if they are more than four, or no earlier record's were, or they equal the beginning of the last
  earlier data that was (`Container3010.PrintedAsSentIff`).
- The hash index finds the last of several fields with one name, the scan it replaced the first; they agree if and only
  if the name occurs at most once (`NameIndex.IndexAgreesWithScan`).
- Deleting the only list element leaves the `end` cursor on it. The cursor is right after a run if and only if no
  operation emptied the list (`LinkList.EndRightIffNeverEmptied`).
- `hexstr2num` knows no lower-case digits: up to eight digits of either case read as the number they denote if and only
  if none is lower case (`Numerals.HexReadRightIff`).

## Model

| member | source | states |
|---|---|---|
| FieldIO.Pow | driver/libproto_analyzer/protocol_analyzer.c:52-62 | the loop computes the power y + 1, not y, modulo 2^32 |
| FieldIO.PowerSplits | driver/libproto_analyzer/protocol_analyzer.c:52-62 | the power obeys the laws of powers, for every base and exponent |
| FieldIO.GetBitData | driver/libproto_analyzer/protocol_analyzer.c:63-66 | bit j of the result is bit bitPos + j of the data for j up to and including len: one bit more than asked |
| FieldIO.SetBitData | driver/libproto_analyzer/protocol_analyzer.c:67-71 | ors the low len + 1 bits of the data into the byte at bitPos, keeps every other bit and byte |
| FieldIO.SetProtocolBitData | driver/libproto_analyzer/protocol_analyzer.c:509-537 | the chunk loop ors the value into the field's run of the bit stream and, for a field not at bit 7, the bit above it; nothing else changes |
| FieldIO.GetProtocolBitData | driver/libproto_analyzer/protocol_analyzer.c:605-633 | the chunk loop returns the number spelled by the field's run and, for a field not at bit 7, the bit above it, modulo 2^32 |
| FieldIO.WriteAdvances | driver/libproto_analyzer/protocol_analyzer.c:520-536 | one chunk of the write: what is left shrinks, and after the first chunk the cursor is 7 |
| FieldIO.ReadAdvances | driver/libproto_analyzer/protocol_analyzer.c:616-630 | one chunk of the read: after the first chunk the 8-bit cursor is 7 modulo 8 although the test for a negative cursor can never succeed |
| FieldIO.SetProtocolByteData | driver/libproto_analyzer/protocol_analyzer.c:472-483 | overwrites the field's stretch with the big-endian bytes of the value and nothing else |
| FieldIO.GetProtocolByteData | driver/libproto_analyzer/protocol_analyzer.c:562-579 | returns the big-endian number in the field's stretch |
| FieldIO.ByteIsQuotient | driver/libproto_analyzer/protocol_analyzer.c:476-480 | byte i of a big-endian number is the number divided by the power of 256 behind it, modulo 256 |
| BitFields.ReadBitsValue | driver/libproto_analyzer/protocol_analyzer.c:605-633 | a bit field reads as its value plus 2^len times the bit above it, modulo 2^32 |
| BitFields.ReadBitsExactly | driver/libproto_analyzer/protocol_analyzer.c:605-633 | the read is exact if and only if len is 32, the field begins at bit 7, or the bit above is clear |
| BitFields.WriteBitsBit | driver/libproto_analyzer/protocol_analyzer.c:509-537 | which stream bits are set after a bit-field write, for every position and any value |
| BitFields.WriteBitsStaysInside | driver/libproto_analyzer/protocol_analyzer.c:509-537 | a write leaves everything outside the field alone if and only if bit len of the value is clear, cannot be reached, or is already set above the field |
| BitFields.WriteReadBits | driver/libproto_analyzer/protocol_analyzer.c:509-633 | writing then reading over cleared bits gives the value modulo 2^len plus the surplus of the neighbour bit |
| BitFields.WriteAllBit | driver/libproto_analyzer/protocol_analyzer.c:661-728 | after writing any list of fitting bit fields a stream bit is set if and only if it was or some field sets it |
| BitFields.PackingOrderIrrelevant | driver/libproto_analyzer/protocol_analyzer.c:509-537 | any permutation of fitting bit fields produces the same buffer |
| BitFields.PackedFieldReadsBack | driver/libproto_analyzer/protocol_analyzer.c:509-633 | of disjoint values packed into a cleared buffer each reads back itself, plus 2^len if another value sets the bit above it |
| BitFields.PackedReadsExactlyIff | driver/libproto_analyzer/protocol_analyzer.c:509-633 | a packed value reads exactly if and only if it is 32 bits wide or no other value sets the bit above it |
| Format.LastWith | driver/libproto_analyzer/protocol_analyzer.c:240-266 | the index answers the last field whose padded name is the key, or none if there is none |
| RoundTrip.ResolveSteps | driver/libproto_analyzer/protocol_analyzer.c:368-406 | in a well-formed format, fixing a variable field gives it its final length and moves exactly the fields behind it by that many bytes, without wrap |
| RoundTrip.StepKeepsWellFormed | driver/libproto_analyzer/protocol_analyzer.c:682-701 | every step of a pass leaves the remaining fields ordered, non-overlapping, inside the buffer and with usable length fields |
| RoundTrip.GenFromFrame | driver/libproto_analyzer/protocol_analyzer.c:661-728 | generating from field i on changes no bit in front of field i and no earlier descriptor |
| RoundTrip.WriteFieldFrame | driver/libproto_analyzer/protocol_analyzer.c:704-726 | writing one field changes only the bits of that field |
| RoundTrip.StepInLockstep | driver/libproto_analyzer/protocol_analyzer.c:764-772 | sender and receiver fix the same length and stay aligned |
| RoundTrip.RoundTripFrom | driver/libproto_analyzer/protocol_analyzer.c:634-792 | the induction behind the round trip, from any field on, with safety of every read |
| Messages.LayoutMidway | driver/libproto_analyzer/protocol_analyzer.c:368-406 | midway through generate field j stands at its base plus the lengths of the processed variable fields in front of it, and the rest is still well-formed |
| Messages.ParseLayoutMidway | driver/libproto_analyzer/protocol_analyzer.c:762-786 | midway through parse, too, field j stands at its base plus the processed lengths in front of it, and the lengths found are those sent |
| Messages.FinalLayoutOrdered | driver/libproto_analyzer/protocol_analyzer.c:661-728 | after generate the fields are in order, disjoint and inside the buffer |
| Messages.ReportedLength | driver/libproto_analyzer/protocol_analyzer.c:728 | in any well-formed format, whatever unit the last field has, its position plus length, which generate reports, is its base position plus everything moved in front of it plus its final length; for a bit field that is its number of bits |
| Messages.ReportedLengthIsEnd | driver/libproto_analyzer/protocol_analyzer.c:728 | with a byte field last that is the end of the message, inside the buffer and not cut |
| Messages.GenerateStaysInside | driver/libproto_analyzer/protocol_analyzer.c:661-726 | generating from a well-formed format never leaves the message buffer or a field's own buffer |
| Messages.BufferInMessage | driver/libproto_analyzer/protocol_analyzer.c:463-471 | the first bytes of a long byte field's buffer stand in the message at its base position plus the lengths in front of it |
| Messages.NumberBytesInMessage | driver/libproto_analyzer/protocol_analyzer.c:472-483 | a short byte field's number stands there, byte by byte, most significant first |
| Messages.MessageRoundTrip | driver/libproto_analyzer/protocol_analyzer.c:634-792 | any well-formed message parses safely, every length and position is discovered, every value recovered |
| Messages.SentMessageBits | driver/libproto_analyzer/protocol_analyzer.c:661-728 | a bit of the finished message is set if and only if some value sent sets it |
| Messages.DeliveredIff | driver/libproto_analyzer/protocol_analyzer.c:634-792 | in any well-formed message a fitting value is delivered if and only if its field is a byte field, is 32 bits wide, or no value sent sets the bit above it |
| ParseResult.ParseReadsOff | driver/libproto_analyzer/protocol_analyzer.c:762-786 | however the layout came about, each field ends up holding what the message has at the place the field ends up at |
| ParseResult.ParseLocal | driver/libproto_analyzer/protocol_analyzer.c:762-786 | bytes behind the last field make no difference to a parse |
| Reuse.PassMoves | driver/libproto_analyzer/protocol_analyzer.c:397-400 | one pass moves each field by the lengths discovered in front of it, modulo 256, and by nothing else |
| Reuse.Drift | driver/libproto_analyzer/protocol_analyzer.c:793-819 | after any rounds of parse and reset each field has moved by everything ever discovered in front of it; flags are re-armed |
| Reuse.DriftIsHarmlessIff | driver/libproto_analyzer/protocol_analyzer.c:793-819 | after any buffers whatever a field is at its base position if and only if the lengths found in front of it add up to a multiple of 256 |
| Reuse.SameLayoutSameValues | driver/libproto_analyzer/protocol_analyzer.c:762-786 | two analyzers laid out alike read the same values whatever they held before |
| Reuse.ReusedReadsAsFresh | driver/libproto_analyzer/protocol_analyzer.c:762-819 | without drift a reused analyzer reads any buffer as a fresh one does |
| OnePass.MeasuredLengths | driver/libproto_analyzer/protocol_analyzer.c:368-406 | a variable field ends up with the length its length field ends up holding |
| OnePass.SafeIffWithin | driver/libproto_analyzer/protocol_analyzer.c:762-786 | a parse of byte fields is safe if and only if every field ends up inside the message |
| OnePass.Pass | driver/libproto_analyzer/protocol_analyzer.c:762-786 | a parse by any analyzer of a byte table, drifted or not: every place, length and number as an equation, and the analyzer armed again after reset |
| Runs.PlacedInRunIff | driver/libproto_analyzer/protocol_analyzer.c:732-819 | for any byte table and any number of safe parses, record i is looked for in the right place if and only if no earlier one moved a field |
| ProtocolAnalyzer.CopyFormat | driver/libproto_analyzer/protocol_analyzer.c:103-150 | a format copy has the same order and contents, in new nodes, none twice |
| ProtocolAnalyzer.Analyzer.constructor | driver/libproto_analyzer/protocol_analyzer.c:268-287 | a new analyzer has the template's fields, a zeroed 100-byte buffer and a complete index of ten buckets, and shares nothing with the template |
| ProtocolAnalyzer.Analyzer.BuildIndex | driver/libproto_analyzer/protocol_analyzer.c:151-204 | inserting every descriptor makes the index answer every key as the last field with that key |
| ProtocolAnalyzer.Analyzer.FindKey | driver/libproto_analyzer/protocol_analyzer.c:240-266 | for names shorter than ten characters returns the node of the last field with that name, or null |
| ProtocolAnalyzer.Analyzer.RecomputeBytePos | driver/libproto_analyzer/protocol_analyzer.c:368-406 | the field takes the number in its length field as its length, cut to 16 bits, and everything behind it moves by that many units, in 8 bits; -1 and no change if there is no length field |
| ProtocolAnalyzer.Analyzer.ResolveField | driver/libproto_analyzer/protocol_analyzer.c:682-701 | a variable field gets its length and is disarmed, whether or not its length field exists |
| ProtocolAnalyzer.ProtoInfo.GetProtocolBuf | driver/libproto_analyzer/protocol_analyzer.c:538-561 | the field's buffer starts with the message bytes and records their number; memory that was large enough keeps its rest, other memory is replaced |
| ProtocolAnalyzer.SetProtocolBuf | driver/libproto_analyzer/protocol_analyzer.c:463-471 | copies the buffer into the message and changes nothing else |
| ProtocolAnalyzer.ProtoInfo.Read | driver/libproto_analyzer/protocol_analyzer.c:774-785 | one field of parse: a long byte field gets the message bytes in its buffer, a short one or a bit field its number, any other unit nothing |
| ProtocolAnalyzer.ProtoInfo.Write | driver/libproto_analyzer/protocol_analyzer.c:704-726 | one field of generate: a long byte field at bit 0 puts its buffer into the message, away from bit 0 nothing, a short one or a bit field its number, any other unit nothing |
| ProtocolAnalyzer.Analyzer.Parse | driver/libproto_analyzer/protocol_analyzer.c:732-792 | refines the parse pass; -1 and no change for an empty message |
| ProtocolAnalyzer.Analyzer.Generate | driver/libproto_analyzer/protocol_analyzer.c:634-731 | refines the generate pass on descriptors and buffer; the length reported is position plus length of the last field, and for a well-formed format its base position plus everything moved plus its final length, modulo 2^16 |
| ProtocolAnalyzer.Analyzer.ResetVlenFlag | driver/libproto_analyzer/protocol_analyzer.c:793-819 | re-arms exactly the fields marked variable, changes nothing else |
| ProtocolAnalyzer.Analyzer.SetBuf | driver/libproto_analyzer/protocol_analyzer.c:298-336 | the named field's buffer begins with the bytes; its recorded length is their number if the memory was absent or too small and stays otherwise; every other attribute and field, or everything for an unknown name, stays |
| ProtocolAnalyzer.Analyzer.SetValue | driver/libproto_analyzer/protocol_analyzer.c:337-356 | changes the named field's number only |
| ProtocolAnalyzer.Analyzer.SetVariableLengthValue | driver/libproto_analyzer/protocol_analyzer.c:448-462 | changes the named field's number only; -1 and no change for an unknown name |
| ProtocolAnalyzer.Analyzer.GetValue | driver/libproto_analyzer/protocol_analyzer.c:357-367 | the named field's number as a signed int, -1 for an unknown name |
| ProtocolAnalyzer.IndexGrows | driver/libproto_analyzer/protocol_analyzer.c:185-194 | one insertion extends the index by one field |
| NameIndex.PaddingInjective | driver/libproto_analyzer/protocol_analyzer.c:247-250 | zero-padding to ten bytes confuses no short key with any name |
| NameIndex.PaddedKey | driver/libproto_analyzer/protocol_analyzer.c:156-247 | a key is the first ten characters of a name with zeros behind it |
| NameIndex.NamedLookup | driver/libproto_analyzer/protocol_analyzer.c:240-266 | a short name is found at its last occurrence |
| NameIndex.IndexAgreesWithScan | driver/libproto_analyzer/protocol_analyzer.c:207-266 | index and disabled scan agree on a short key if and only if the name occurs at most once |
| NameIndex.IndexFindsLastScanFirst | driver/libproto_analyzer/protocol_analyzer.c:207-266 | with duplicates the scan finds the first and the index the last |
| HashTable.DefaultHash | driver/include/libdata_structure/hash_list.h:49-57 | the bucket is the 32-bit sum modulo the number of buckets, and at every position of the key the sum grows by its character, modulo 256 and 2^32 |
| HashTable.HashAppend | driver/include/libdata_structure/hash_list.h:49-57 | modulo 2^32 the hash of a key is the sum of the hashes of its parts |
| HashTable.HashOfDcInfo | driver/include/libdata_structure/hash_list.h:49-57 | the field name dc_info, padded to ten bytes, sums to 722 and goes to bucket 2 of 10 |
| HashTable.StepRefinesStack | driver/libdata_structure/hash_map/hash_list.c:113-243 | an insertion pushes on its key's stack, a deletion removes from its key's stack, other keys are untouched |
| HashTable.RunRefinesStack | driver/libdata_structure/hash_map/hash_list.c:113-243 | the same over every run |
| HashTable.BeginStaysFirstOnInsert | driver/libdata_structure/hash_map/hash_list.c:151-154 | the insert test keeps begin on the first node of the lowest non-empty bucket |
| HashTable.BeginStaysFirstOnDelete | driver/libdata_structure/hash_map/hash_list.c:224-230 | so does the delete test, for any live position |
| HashTable.InsertKeepsSound | driver/libdata_structure/hash_map/hash_list.c:139-150 | every node stays in the bucket its key hashes to, once |
| HashTable.RestOfFirst | driver/libdata_structure/hash_map/hash_list.c:311-322 | starting at begin, everything is still to be visited, in bucket order |
| HashTable.RestOfNext | driver/libdata_structure/hash_map/hash_list.c:261-296 | a step of iteration visits exactly the current node |
| HashTable.FlattenIsEachOnce | driver/libdata_structure/hash_map/hash_list.c:311-322 | the iteration order lists every node of every bucket, none of them twice |
| HashTable.FlattenInOrder | driver/libdata_structure/hash_map/hash_list.c:311-322 | the iteration order goes through the buckets in ascending order of hash |
| HashTable.NoFirstNoNodes | driver/libdata_structure/hash_map/hash_list.c:244-260 | begin is null only when every bucket is empty |
| HashMap.Map.constructor | driver/libdata_structure/hash_map/hash_list.c:49-91 | a new map has empty buckets and a null begin |
| HashMap.Map.BucketInMemory | driver/libdata_structure/hash_map/hash_list.c:139-150 | a valid map in memory: bucket pointers, next and back pointers of every chain, and every key in the bucket it hashes to |
| HashMap.Map.BeginInMemory | driver/libdata_structure/hash_map/hash_list.c:151-154 | its begin pointer is the first node of the lowest non-empty bucket, null if and only if there is none |
| HashMap.Map.AddHead | driver/include/libdata_structure/list.h:720-728 | the node becomes the bucket's first, all back-links name the pointer that reaches their node |
| HashMap.Map.UnlinkNode | driver/include/libdata_structure/list.h:650-664 | a node is cut out of its chain through its back-link, and poisoned |
| HashMap.Map.Insert | driver/libdata_structure/hash_map/hash_list.c:113-166 | keeps the representation invariant; the new node becomes the first of the bucket its key hashes to, and no other chain changes |
| HashMap.Map.Search | driver/libdata_structure/hash_map/hash_list.c:167-209 | answers the first node with the key in the bucket it hashes to, the top of the key's stack, or null if there is none |
| HashMap.Map.PosNext | driver/libdata_structure/hash_map/hash_list.c:261-296 | moves from any live position to the next one in bucket order, or to the end |
| HashMap.Map.Delete | driver/libdata_structure/hash_map/hash_list.c:210-243 | keeps the representation invariant, cuts out exactly the node at the position and refines the deletion step |
| HashMap.Map.ForEach | driver/libdata_structure/hash_map/hash_list.c:311-322 | visits the bucket chains one after the other: every node of every bucket, none twice |
| HashMap.Map.Destroy | driver/libdata_structure/hash_map/hash_list.c:244-260 | releases every node of every bucket, none twice, in iteration order, and leaves every bucket empty before the bucket array goes |
| LinkList.EndRightIffNeverEmptied | driver/libdata_structure/link_list/link_list.c:163-167 | over every run the end cursor is right if and only if it was and no deletion emptied the list |
| LinkList.InsertThenDelete | driver/libdata_structure/link_list/link_list.c:124-179 | a deletion undoes an insertion, the end cursor excepted when the list was empty |
| LinkList.ListAdd | driver/include/libdata_structure/list.h:59-86 | splices one node in behind another |
| LinkList.ListDel | driver/include/libdata_structure/list.h:171-190 | joins the neighbours and poisons the entry |
| LinkList.List.constructor | driver/libdata_structure/link_list/link_list.c:86-123 | an empty circle with begin and end on head |
| LinkList.List.CircleInMemory | driver/libdata_structure/link_list/link_list.c:86-179 | a valid list in memory: next and back pointers of every element and of the head, begin, count and end |
| LinkList.List.Insert | driver/libdata_structure/link_list/link_list.c:124-152 | inserts behind a position: one circle, begin is head.next, count is the length, end follows if it was right |
| LinkList.List.Delete | driver/libdata_structure/link_list/link_list.c:153-179 | removes the element at a position, for lists of one element too |
| LinkList.List.LeaveCursors | driver/libdata_structure/link_list/link_list.c:163-167 | begin moves on, end moves back only when the element is not also the first |
| LinkList.List.Detach | driver/libdata_structure/link_list/link_list.c:181-205 | like delete, but hands the unlinked node out |
| LinkList.List.PushFront | driver/libdata_structure/link_list/link_list.c:206-209 | puts an element in front |
| LinkList.List.PushBack | driver/libdata_structure/link_list/link_list.c:210-213 | puts an element at the end, when the end cursor is right |
| LinkList.List.PopFront | driver/libdata_structure/link_list/link_list.c:219-222 | removes the first element |
| LinkList.List.PopBack | driver/libdata_structure/link_list/link_list.c:215-218 | removes the last element, when the end cursor is right |
| LinkList.List.ForEach | driver/libdata_structure/link_list/link_list.c:260-273 | visits the elements in order |
| LinkList.List.Destroy | driver/libdata_structure/link_list/link_list.c:232-254 | releases every element exactly once in order, then the head, from any list with intact links |
| Numerals.Atoi | driver/libproto_analyzer/protocol_format_set.c:79-103 | the signed value modulo 2^32, -1 for NULL and for anything that is not an optionally signed digit string |
| Numerals.AtoiDigits | driver/libproto_analyzer/protocol_format_set.c:79-103 | no digits are 0, a further digit multiplies by ten and adds, in 32 bits |
| Numerals.AtoiSigns | driver/libproto_analyzer/protocol_format_set.c:79-103 | a plus changes nothing, a minus negates, anything else gives -1 |
| Numerals.HexStr2Num | driver/libproto_analyzer/protocol_format_set.c:53-78 | -1 without a prefix or beyond ten characters, otherwise the shift-or of the digits |
| Numerals.Str2Num | driver/libproto_analyzer/protocol_format_set.c:104-117 | hexadecimal with a prefix, decimal without |
| Numerals.HexFoldIsValue | driver/libproto_analyzer/protocol_format_set.c:68-76 | shift-or over up to eight upper-case digits is their positional value, no bit is lost |
| Numerals.HexRoundTrip | driver/libproto_analyzer/protocol_format_set.c:53-117 | every 32-bit number survives its upper-case hexadecimal text, with either prefix |
| Numerals.HexDigitsRoundTrip | driver/libproto_analyzer/protocol_format_set.c:53-78 | any upper-case digit string: its value up to eight digits, -1 beyond |
| Numerals.HexReadRightIff | driver/libproto_analyzer/protocol_format_set.c:70-73 | digits of either case read as the number they denote if and only if none is lower case |
| Numerals.DecRoundTrip | driver/libproto_analyzer/protocol_format_set.c:79-117 | every int of magnitude below 2^31 survives its decimal text |
| Tables.SetProtoInfoAttribs | driver/libproto_analyzer/protocol_format_set.c:315-364 | the effect of each attribute on a descriptor, cut to its width, including NULL and empty length indices |
| Tables.PfsSetProtoInfo | driver/libproto_analyzer/protocol_format_set.c:386-413 | a new descriptor with its six attributes at the end of the list |
| Tables.PfsSetProtoFormat3054 | driver/libproto_analyzer/test/pdt_drv_proto_format.c:143-166 | the builder produces the 0x3054 table |
| Tables.Places3054 | driver/libproto_analyzer/test/pdt_drv_proto_format.c:154-159 | by name, where each field of 0x3054 stands and how long it is |
| Tables.Places3050 | driver/libproto_analyzer/test/pdt_drv_proto_format.c:90-102 | the same for 0x3050, except sync_index, whose name the index cannot look up |
| Tables.Places3052 | driver/libproto_analyzer/test/pdt_drv_proto_format.c:122-135 | the same for 0x3052 |
| Tables.Built3050 | driver/libproto_analyzer/test/pdt_drv_proto_format.c:79-109 | the attribute strings of the 0x3050 builder denote the 0x3050 table |
| Tables.Built3052 | driver/libproto_analyzer/test/pdt_drv_proto_format.c:111-142 | the attribute strings of the 0x3052 builder denote the 0x3052 table |
| Tables.BuiltAckd | test/src/pdt_pdu/pdt_pdu_proto_format.c:42-50 | the attribute strings of the ackd builder denote the nine-field bit table |
| Tables.FilledTableWellFormed | driver/libproto_analyzer/test/pdt_drv_proto_format.c:79-166 | any fitting values in an ordered byte table make a well-formed message |
| Tables.TableRoundTrip | driver/libproto_analyzer/test/pdt_drv_proto_format.c:79-166 | for the 0x3050, 0x3052 and 0x3054 tables every message of at most 100 bytes is generated within bounds and read back exactly |
| Tables.AckdDisjoint | test/src/pdt_pdu/pdt_pdu_proto_format.c:42-50 | the nine fields of the ackd table do not overlap |
| Tables.AckdRoundTrip | test/src/pdt_pdu/pdt_pdu_proto_format.c:42-50 | every fitting value reads back as itself, plus 2^len where LB, PF, RI or ARC sets the bit above it |
| Tables.AckdReadsExactlyIff | test/src/pdt_pdu/pdt_pdu_proto_format.c:42-50 | all nine values read exactly if and only if LB and PF are 0 and RI and ARC are even |
| Tables.AckdFlagTakesNeighbour | test/src/pdt_pdu/pdt_pdu_proto_format.c:42-43 | the PF flag reads as itself plus twice the LB flag |
| Tables.GenerateIsWriteAll | driver/libproto_analyzer/protocol_analyzer.c:661-728 | on a table of bit fields generate is one bit-field write after the other |
| Senders.AckdLength | test/src/pdt_pdu/test_pdt_pdu_proto_analyzer.c:67-70 | whatever the nine values, generating and parsing an ackd message is safe and the length reported is 31 |
| Senders.SameMessageCut | driver/libproto_analyzer/protocol_analyzer.c:509-537 | a value too wide for a bit field that begins at bit 7 makes the same message as the value cut to its width |
| Senders.AckdNumbers | test/src/pdt_pdu/test_pdt_pdu_proto_analyzer.c:67-70 | the nine numbers read back, in numbers |
| Senders.SetGenerateParse | test/src/pdt_pdu/test_pdt_pdu_proto_analyzer.c:48-70 | create, nine pa_set_value, generate and parse on one analyzer: both succeed, and every field holds its value plus what the value above adds |
| Senders.Init3054 | driver/libproto_analyzer/test/pdt_drv_proto_analyzer.c:370-382 | the four numbers and the buffer of a 0x3054 message, on an analyzer that may have sent before |
| Senders.Send3054 | driver/libproto_analyzer/test/pdt_drv_proto_analyzer.c:441-448 | init and generate: header and length of the message; its data is the data meant if and only if the field still has the length meant and the data is longer than four bytes or all zero |
| Business.ShownRightIff | driver/libproto_analyzer/protocol_format_set.c:130-176 | a byte field's line shows the value's bytes if and only if they are more than four, or it has no buffer, or the buffer begins with them |
| Business.PrintListForEach | driver/libproto_analyzer/protocol_format_set.c:258-276 | one line per descriptor, in order, with its name and its number, or the first bytes of its buffer when it is a byte field that has one |
| Business.LoadRecord | driver/business/business.c:148-151 | the buffer holds the identifier and the record, the rest stays from before |
| Business.DoRecord | driver/business/business.c:148-159 | load, parse, print and reset of one record: a line for every descriptor, in order |
| Business.DoCommand0x3010 | driver/business/business.c:134-163 | the loop decodes exactly the records at offsets 6 + sum of (length + 3), with one analyzer reset in between, prints a block for each with a line for every descriptor that shows its name and number or buffer, and leaves the template alone |
| Business.DoPdu | driver/business/business.c:183-199 | a record loads, parses, prints and resets the analyzer it is routed to and leaves the other one's descriptors and buffer alone |
| Business.Turn301b | driver/business/business.c:180-200 | one turn of the loop decodes one record and leaves the rest of the container to be decoded safely from the next offset |
| Business.DoCommand0x301b | driver/business/business.c:164-203 | the loop decodes exactly the records at the offsets given by their own sizes, each on the analyzer its flag selects, and prints a block for each with a line for every descriptor that shows its name and number or buffer |
| Records.RecordDelivered | driver/business/business.c:148-154 | a buffer that merely starts with a record's message is parsed safely, in the right places and to the values sent, by any analyzer laid out as new |
| Records.AsNewAgainIff | driver/business/business.c:155-159 | after that record and a reset the analyzer is laid out as new if and only if the record moved no field |
| Records.SecondPlacedIff | driver/libproto_analyzer/protocol_analyzer.c:793-819 | for any byte table, and whether or not the parses are safe, a second record is looked for in the right place if and only if the first moved no field |
| Container3010.SizeByte3054 | driver/business/business.c:147-150 | the third byte of a packed record plus three is its size |
| Container3010.ContainerRoundTrip | driver/business/business.c:134-163 | any packed 0x3054 messages are unpacked in number, order and value, as a fresh analyzer reads them, without leaving the container |
| Container3010.TurnShows | driver/libproto_analyzer/protocol_format_set.c:134-163 | one record's lines, byte for byte: fixed fields as sent; data as sent if and only if it is long, nothing is left over, or what is left over begins with it |
| Container3010.PrintedAsSentIff | driver/business/business.c:145-161 | of the blocks and lines the command prints, line j of block i shows the bytes sent in field j of record i, except that the data line does if and only if the data exceeds four bytes, or no earlier record's did, or it begins the last earlier data that did |
| Container301b.PduHead | driver/business/business.c:181-182 | a packed record starts with its own size and the flag that routes it |
| Placement301b.Command301b | driver/business/business.c:164-203 | for any packed records: as many decoded; safe if and only if each has room; in a safe command each placed if and only if no earlier one of its kind moved a field, and then delivered |
| Placement301b.Placed3050Iff | driver/business/business.c:180-200 | a 0x3050 record is looked for in the right place if and only if the slc_info values of the earlier ones add up to a multiple of 256, and then delivered |
| Placement301b.Placed301bIff | driver/business/business.c:180-200 | in a safe command a record of either kind is looked for in the right place if and only if no earlier one of its kind moved a field |
| Placement301b.Safe301bIff | driver/business/business.c:180-200 | the loop stays inside its memory if and only if, given the drift so far, the fields behind slc_data and lc_data and the data behind them fit 100 bytes |
| Placement301b.SafeBoundsSlc | driver/business/business.c:180-200 | a safe command has at most 87 bytes of slc_data in its 0x3050 records up to any of them |
| Drift301b.Arrival50 | driver/libproto_analyzer/test/pdt_drv_proto_format.c:79-109 | a 0x3050 record at an analyzer drifted by d is found if and only if d is a multiple of 256, and adds exactly its slc_info to the drift |
| Drift301b.Arrival52 | driver/libproto_analyzer/test/pdt_drv_proto_format.c:111-142 | a 0x3052 record at a drifted analyzer: when the parse is safe, whether the record is found, and what it adds to the two drifts |
| Container301b.FirstOfKindDelivered | driver/business/business.c:180-200 | the first record routed to each analyzer is always delivered |
| Container301b.QuietRecord3050 | driver/libproto_analyzer/test/pdt_drv_proto_format.c:79-109 | a 0x3050 record moves no field if and only if its slc_info is zero |
| Container301b.QuietRecord3052 | driver/libproto_analyzer/test/pdt_drv_proto_format.c:111-142 | a 0x3052 record moves no field if and only if slc_info and lc_info are zero |
| Container301b.EachAnalyzerItsOwnRounds | driver/business/business.c:180-200 | for any container each analyzer goes through rounds for exactly the messages routed to it |
| Container301b.CommandDriftIff | driver/business/business.c:164-203 | after a command of any bytes whatever a field of either analyzer is at its base position if and only if the lengths found in front of it add up to a multiple of 256 |
| Container3010.FittingIsSendable | driver/libproto_analyzer/test/pdt_drv_proto_format.c:154-159 | any data of up to 95 bytes makes a message the container theorem applies to |
| Witnesses.ReadTakesBitAbove | driver/libproto_analyzer/protocol_analyzer.c:605-633 | a one-bit field under a set bit reads as 3 |
| Witnesses.WriteSpills | driver/libproto_analyzer/protocol_analyzer.c:509-537 | the value 2 in a one-bit field at bit 6 of a clear byte sets bit 7 |
| Witnesses.SecondRecordMisread | driver/business/business.c:180-200 | a concrete 0x301b command of two equal records whose second is looked for in the wrong place and misread |
| Witnesses.TwoFiftiesAreUnsafe | driver/business/business.c:180-200 | a 0x301b command of two records with 50 bytes of slc_data each leaves the 100-byte buffer |
| Witnesses.ShortAfterLongIsMisprinted | driver/business/business.c:145-161 | a concrete 0x3010 command whose second data line shows a byte of the first record's data |
| Witnesses.ShortDataLost | driver/libproto_analyzer/test/pdt_drv_proto_analyzer.c:370-382 | a 0x3054 message prepared with the single data byte 7 is generated with a 0 in its place |
| Witnesses.DuplicateName | driver/libproto_analyzer/protocol_analyzer.c:207-266 | two fields of one name: the index answers the second, the scan the first |
| Witnesses.EmptiedList | driver/libdata_structure/link_list/link_list.c:163-167 | one insertion and one deletion leave end on the removed element |
| Witnesses.LowerCaseDigit | driver/libproto_analyzer/protocol_format_set.c:70-73 | "0xa" is read as 49 |
| Uevent.ParseEvent | udev1.c:68-107 | takes any message apart into its segments, ends on the NUL behind them, and leaves the text behind the last ACTION=, DEVPATH=, SUBSYSTEM= and FIRMWARE= and the number behind the last MAJOR= and MINOR=; no read goes past the two terminators |
| Uevent.LastKeyWins | udev1.c:78-102 | every output is the value of the last segment with its key, or its initial value |
| Uevent.SegmentsOfSerialised | udev1.c:99-101 | a serialised list is seen as that list, and nothing behind the first empty segment is looked at |
| Uevent.ParseOfSerialised | udev1.c:68-102 | parsing a serialised list of segments is a last-wins fold |
| Uevent.ParsedText | udev1.c:78-102 | of a serialised list, the text v behind the last of each of the six keys, key by key, is what the output of that key holds |
| Uevent.AbsentKey | udev1.c:70-75 | a key that begins no segment leaves its output at the initial value |
| Uevent.OtherSegmentIgnored | udev1.c:78-102 | a segment that begins with none of the six keys might as well not be there |

## Left out

- Locks, allocation failure and debug output: locks are stubs in the repository, allocation is taken to succeed.
- do_command_0x3008 and driver/task_admin: a single parse followed by hand-over to a table whose lookup key is built from
  a value where an address is expected; the 0x3008 and 0x3019 tables, which add no new kind of field.
- Straight-line table builders other than the one for 0x3054: their attribute strings are kept as row lists.
- The number check and table of formats of protocol_format_set_t: a caller hands the format's descriptor list over.
- vlenth_value_flag and its companions, bit_len and free_mem: they feed a warning or nothing.
- The descriptor list inside an analyzer is a sequence of nodes; the circular list it is built with is modelled separately
  in LinkList, with data of any type in place of enclosing structures.
- Value buffers are sequences held by their field, so two fields sharing one buffer are not modelled; likewise the address
  stored as four bytes in the hash index is a node reference.
- ProtocolAnalyzer.Analyzer.FindKey: for names of ten or more characters the key buffer is uninitialised stack memory,
  modelled as an arbitrary string, so the contract promises nothing about them.
- The 0x3050 and 0x3052 senders: the first sets sync_index, a name of ten characters, to which the line above applies; the
  second is of the same kind as the 0x3054 sender.
- Senders.SetGenerateParse: for values too wide for PF, CSBKO, ARC or RSVD, which then set a neighbour's bit, only the
  length is promised.
- Senders.Send3054: at most 95 bytes of data, as many as fit the analyzer's buffer.
- FieldIO.GetProtocolBitData: the C code keeps the byte position in a signed char; positions of 128 and more, which a
  100-byte message does not have, are not modelled.
- FieldIO.GetProtocolByteData: byte fields longer than four bytes never reach it.
- FieldIO.Pow: the exponent has eight bits, as both callers pass.
- Bit fields longer than 32 bits or with a bit position above 7, and strings longer than the descriptors' name arrays.
- Signed overflow in atoi, undefined in C, wraps at 32 bits.
- LinkList.EndRightIffNeverEmptied: a removed node is taken to be different from every later one; a C allocator may hand
  out its address again, and a stale end is then right by accident.
- Reuse.DriftIsHarmlessIff: its condition is in lengths found, because it is about arbitrary buffers; for messages that
  were sent Runs and Placement301b state it in the values sent. The same holds for the next line.
- Container301b.CommandDriftIff: likewise about arbitrary bytes.
- Records.SecondPlacedIff: one earlier record, without assuming safe parses; any number of them in Runs and Placement301b.
- Placement301b.Placed3050Iff: in an unsafe command it says where fields are looked for; what C reads outside the buffer is
  not modelled.
- LinkList.List.PushBack: stated for a right end cursor; with a stale one the C code links behind a released node.
- LinkList.List.PopBack: stated for a right end cursor, for the same reason.
- The netlink socket of udev1.c and the libc atoi it calls, which is a parameter; the RCU, splice and move variants of
  list.h.
