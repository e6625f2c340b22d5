# GPSBabel: verified models of its algorithms and formats

This project models the parts of GPSBabel that hold an algorithm or a protocol of their own, in Dafny 4.11,
and proves what they are for. `dafny verify dfyconfig.toml` checks all of it.

- **AVL tree** (`AvlShape`, `AvlTable`, `AvlTree`, `CString`). Nodes live on the heap and are rewired in place;
  every operation is proved to do to the tree's value what a function of `AvlShape` does, and those functions are
  proved to keep exact balance fields and to act on the sorted table of entries as insertion, removal and lookup.
- **Garmin GPI files** (`GpiModel`, `GpiSplit`, `GpiBlocks`, `GpiFormat`, `GpiPasses`, `GpiReader`, `GpiFile`,
  `GpiRoundTrip`). The quadrant split of waypoints, the size pass and the write pass over the resulting blocks, the
  recursive reader, and the round trip through all of them.
- **DeLorme protocol** (`DelbinFrame`, `DelbinStream`, `DelbinLink`, `DelbinBatch`, `DelbinDelivery`,
  `DelbinChunks`, `DelbinRoutes`). Checksummed frames cut into packets by borrowing bytes of the message buffer,
  reassembly and resynchronisation, the stop-and-wait sender and the batch collector, both layers together, notes
  and routes cut into messages.
- **Exif segments** (`ExifLayout`, `ExifModel`, `ExifPass`, `ExifKept`, `ExifRead`, `ExifWhole`, `ExifApp`,
  `ExifFile`, `ExifExample`). The pass that computes offsets, the writer, the reader, in both byte orders.
- **Character sets** (`Utf8`, `Utf8Strings`, `Charset`). UTF-8 of up to six bytes as in section 2 of RFC 2279, with
  the decoder's retries, and the table-driven 8-bit sets.
- **Files** (`Streams`, `Lines`). The growing memory stream and the pushback over a read-only source, both as a byte
  sequence with a position, and line reading on top.
- **Duplicate filter** (`SearchTree`, `Duplicate`).
- **Sorting** (`StableSort`, `QueueSort`). The merge sort of the program's queues, on linked rings in place, against
  the stable sort that the other parts use as its specification.

`Bytes`, `Sequences`, `OutStream` and `Wrappers` are shared.

## Findings

Where the code does not do what one would expect of it, the model follows the code; these members say exactly when
it does.

- A duplicated AVL tree has the keys and the shape of the original but NULL data; it equals the original exactly
  if that carries no data (`AvlTable.BlankMeaning`, gpsbabel/avltree.c:643-660; one that does: `AvlTable.DataIsDropped`).
- The UTF-8 decoder accepts some ill-framed input. It accepts exactly the plain bytes and the staircases of broken,
  ever longer frames that end in a complete one (`Utf8.DecoderAccepts`, with an input in `Utf8.IllFormedAccepted`).
- Seeking a memory stream from its end starts at the current position; the outcome is the right one exactly at the
  end or where both positions are outside the data (`Streams.SeekEndIsRelative`, with an input in
  `Streams.SeekEndStays`).
- Notes sent with a zero byte at the end of a message lose it when they are put together; they come back exactly if
  no message but the last ends in one (`DelbinChunks.ReassemblyIsExact`, with an input in `DelbinChunks.NulIsLost`).
- A route's waypoints all travel in order, but each as what it is exactly if the route does not begin with a shape
  point (`DelbinRoutes.WriteRoute`, with an input in `DelbinRoutes.ShapeFirst`).
- The last count of shape points is read one slot behind the array exactly if no shape point stands behind a route
  point (`DelbinRoutes.CountsFit`, with inputs in `DelbinRoutes.OnlyShapes` and `DelbinRoutes.ShapeFirst`). If
  what stands there is not 0, waypoints behind the list are read too (`DelbinRoutes.WriteRoute`).
- An Exif directory has the size that was computed for it exactly if all its out-of-line values are of types the
  writer knows; values of other types go to the wrong stream (`ExifLayout.BodyEndsAtStart`, with an input in
  `ExifModel.UnknownTypeFallsShort`).
- The offset pass counts in 16 bits. Its position for a directory is where that directory is written, all values
  being written, exactly if the sum of the sizes before it is below 65536 (`ExifPass.PassedIsWritten`, with an input
  in `ExifPass.LongValuesOverflow`).
- In a big-endian Exif segment two 16-bit numbers in an entry change places when written and read
  (`ExifRead.InlineComesBack`), and the link to the second directory is read as 0 (`ExifRead.LinkComesBack`). An image
  comes back whole exactly if the order is little-endian or it has neither (`ExifRead.AllComesBack`).
- In a tree that ignores case, a key that goes on with a byte of 128 or more comes before its own beginning, since
  characters are signed (`CString.CompareMeaning`, with keys in `CString.PrefixComesLater`).
- An alert's proximity of a metre or more is kept in 16 bits with a sign and comes back exactly if it is below 32768
  metres (`GpiRoundTrip.AlertComesBack`).

## Model

| member | source | states |
|---|---|---|
| CString.CompareIsPreorder | gpsbabel/avltree.c:663-676 | every order a tree can be created with is total, antisymmetric in sign and transitive through equal keys |
| CString.CompareMeaning | gpsbabel/avltree.c:73-84 | which key is the lower one in each of the four orders, by the bytes at the first difference, and which keys count as equal |
| CString.PrefixComesLater | gpsbabel/util.c:475-484 | two keys of which the longer comes first |
| AvlShape.LiftRight | gpsbabel/avltree.c:318-346 | rebalancing a node at balance +2 gives a balanced tree with the same entries in order, one lower unless the child was even |
| AvlShape.LiftLeft | gpsbabel/avltree.c:347-375 | the mirror image at balance -2 |
| AvlTree.RotateRight | gpsbabel/avltree.c:318-346 | the pointers and balances of both nodes after a single rotation; no other node is touched |
| AvlTree.RotateLeft | gpsbabel/avltree.c:347-375 | the mirror image |
| AvlTree.RotateLeftRight | gpsbabel/avltree.c:376-407 | the double rotation in place: same nodes, the shape of the specification |
| AvlTree.RotateRightLeft | gpsbabel/avltree.c:408-439 | the mirror image |
| AvlTree.LeftGrew | gpsbabel/avltree.c:441-512 | after the left subtree grew: new balance, rotation if needed, whether the growth goes on; the "Invalid balance" case is unreachable |
| AvlTree.RightGrew | gpsbabel/avltree.c:441-512 | the mirror image |
| AvlTree.LeftShrank | gpsbabel/avltree.c:516-640 | after the left subtree shrank: the same questions for deletion, where an even child decides whether the change stops |
| AvlTree.RightShrank | gpsbabel/avltree.c:516-640 | the mirror image |
| AvlTree.SwapWithSuccessor | gpsbabel/avltree.c:583-594 | the leftmost entry of the right subtree is handed out and replaced in place, no pointer changes |
| AvlTree.AvlTree.InsertNode | gpsbabel/avltree.c:441-512 | the recursion on the heap: new shape, "changed", count and the fatal case of a paranoiac tree |
| AvlTree.AvlTree.DeleteNode | gpsbabel/avltree.c:516-640 | the same for deletion, with the successor swap |
| AvlTree.AvlTree.Insert | gpsbabel/avltree.c:229-240 | the tree's table gains exactly the key if it is new and is untouched otherwise; the result says which |
| AvlTree.AvlTree.Delete | gpsbabel/avltree.c:133-144 | the tree's table loses exactly the entry with an equal key, no node is added |
| AvlTree.AvlTree.Find | gpsbabel/avltree.c:167-190 | finds the key exactly if it is there, with its data, in at most twice the binary logarithm of the number of keys plus one steps |
| AvlTree.AvlTree.First | gpsbabel/avltree.c:195-210 | the least key by its bytes, or the greatest of a descending tree, and its data, remembered for a later step |
| AvlTree.AvlTree.Next | gpsbabel/avltree.c:248-271 | the least key above a given one, which may have been deleted; none exactly if no key is above |
| AvlTree.AvlTree.FindNext | gpsbabel/avltree.c:677-709 | the pointer walk for that key, with the last left turn as fallback |
| AvlTree.AvlTree.Traverse | gpsbabel/avltree.c:195-271 | first and next visit every entry exactly once, in the order of the keys' bytes that the options ask for |
| AvlTree.AvlTree.Drain | gpsbabel/avltree.c:712-719 | deleting the current key before each step still visits every entry once and leaves the tree empty |
| AvlTree.AvlTree.HeightOf | gpsbabel/avltree.c:215-224 | the walk guided by balance fields returns the true height |
| AvlTree.AvlTree.Clear | gpsbabel/avltree.c:92-108 | the tree is empty and the number of entries dropped is returned |
| AvlTree.AvlTree.Dupe | gpsbabel/avltree.c:150-162 | a valid tree of fresh nodes with the original's shape and keys |
| AvlTree.DupeNode | gpsbabel/avltree.c:643-660 | the recursive copy, leaving the data out |
| AvlTable.WithMeaning | gpsbabel/avltree.c:441-512 | insertion into the sorted table keeps it sorted and adds one entry exactly if no equal key was there |
| AvlTable.WithoutMeaning | gpsbabel/avltree.c:516-640 | removal keeps it sorted and takes out exactly the entries with an equal key, at most one |
| AvlTable.InsertIsWith | gpsbabel/avltree.c:441-512 | tree insertion with all four rotations is table insertion |
| AvlTable.DeleteIsWithout | gpsbabel/avltree.c:516-640 | tree deletion, also through the successor swap, is table removal |
| AvlTable.InsertEffect | gpsbabel/avltree.c:407-512 | balance fields stay exact and within -1..1, "changed" is true exactly if the tree became one higher, the size grows exactly for a new key |
| AvlTable.DeleteEffect | gpsbabel/avltree.c:516-640 | the same for deletion, "changed" meaning one lower |
| AvlTable.InsertThenDelete | gpsbabel/avltree.c:441-640 | deleting a key just inserted restores the entries, whatever rotations happened |
| AvlTable.SearchIsLookup | gpsbabel/avltree.c:167-190 | one root-to-leaf path decides membership in the table |
| AvlTable.SearchNextIsAbove | gpsbabel/avltree.c:677-709 | the successor walk gives the first table entry above the key |
| AvlTable.SortedByKeys | gpsbabel/avltree.c:73-84 | a table is sorted for the tree exactly if its keys ascend, or descend, by their bytes or letters |
| AvlTable.AboveMeaning | gpsbabel/avltree.c:677-709 | the entry stepped to is the least of those above the key |
| AvlTable.BlankMeaning | gpsbabel/avltree.c:643-660 | the duplicate's keys are the original's in order; it is equal exactly if all data is NULL |
| AvlTable.DataIsDropped | gpsbabel/avltree.c:643-660 | a tree with data that its duplicate differs from |
| AvlTable.FibonacciSize | gpsbabel/avltree.c:305-315 | a balanced tree of height h holds at least Fib(h + 2) - 1 keys |
| AvlTable.HeightIsLogarithmic | gpsbabel/avltree.c:305-315 | its height is at most about twice the binary logarithm of its size |
| AvlTable.WalkIsHeight | gpsbabel/avltree.c:304-315 | following balance fields along one path measures the height |
| GpiModel.SemicircleRange | gpsbabel/garmin_gpi.c:938-939 | positions on the globe fit the signed 32-bit field |
| GpiModel.SemicirclesAre | gpsbabel/jeeps/gpsmath.c:251-254 | a position is cut towards zero to a whole multiple of 180 / 2^31 degrees |
| GpiModel.DegreesComeBack | gpsbabel/jeeps/gpsmath.c:251-270 | back in degrees it is less than one multiple away from what it was |
| GpiSplit.MeanDivides | gpsbabel/garmin_gpi.c:744-767 | the deviations from the mean cancel out; unless all points agree in a coordinate some lie below it and some do not |
| GpiSplit.SplitShrinks | gpsbabel/garmin_gpi.c:728-781 | every quadrant has strictly fewer points, so the recursion ends |
| GpiSplit.SplitIsOrganised | gpsbabel/garmin_gpi.c:718-781 | no waypoint is lost or doubled; a block is split exactly if it would hold more than 128 that are not all in one place, and sorted by name otherwise; quadrants lie around one point, north first, west first; bounds are the narrowest around all points below |
| GpiBlocks.WriterData.AddWpt | gpsbabel/garmin_gpi.c:718-724 | a queue gains the waypoint at its end, counted, its bounds extended |
| GpiBlocks.Distribute | gpsbabel/garmin_gpi.c:753-775 | every queued waypoint moves to the quadrant on its side of the means, the block's queue empties |
| GpiBlocks.Check | gpsbabel/garmin_gpi.c:727-781 | the blocks made on the heap are the tree of the specification |
| GpiPasses.ComputeSize | gpsbabel/garmin_gpi.c:784-895 | the size pass stores in every block the size the format asks for and annotates every waypoint |
| GpiPasses.ComputeWaypoint | gpsbabel/garmin_gpi.c:798-884 | one waypoint's annotation and the size of its record, from the options |
| GpiPasses.ComputeAddress | gpsbabel/garmin_gpi.c:833-878 | the address mask and size, field by field |
| GpiPasses.WriteWaypoint | gpsbabel/garmin_gpi.c:916-1003 | the bytes of one waypoint's record |
| GpiPasses.Write | gpsbabel/garmin_gpi.c:898-1009 | the write pass emits the block's record and those below it, byte for byte as the format function says |
| GpiPasses.WriteGroup | gpsbabel/garmin_gpi.c:1012-1036 | the whole category: both passes and the image record |
| GpiFormat.AddressIsSized | gpsbabel/garmin_gpi.c:846-879 | the address size counts the mask and exactly the strings it announces |
| GpiFormat.PoiIsSized | gpsbabel/garmin_gpi.c:926-1002 | the outer size of a waypoint counts all that follows it, the inner one its fixed part, and the size pass foresaw both |
| GpiFormat.BlockIsSized | gpsbabel/garmin_gpi.c:784-1009 | for every tree, options and waypoints the stored size is the number of bytes written behind it, at every nesting depth |
| GpiFormat.CategoryIsSized | gpsbabel/garmin_gpi.c:1012-1036 | the group sizes with and without a bitmap |
| GpiFormat.CategoryIs | gpsbabel/garmin_gpi.c:1012-1036 | a category's record byte for byte around its block |
| GpiFormat.BlockIs | gpsbabel/garmin_gpi.c:898-914 | a block's record byte for byte, its bounds from north and east to south and west, the four quadrants in order |
| GpiFormat.ExampleRecord | gpsbabel/garmin_gpi.c:916-1003 | one waypoint with everything, 149 bytes written out |
| GpiFormat.TextsAre | gpsbabel/garmin_gpi.c:833-856 | which text becomes the description and which the address line |
| GpiFormat.AlertsAre | gpsbabel/garmin_gpi.c:806-831 | where speed and proximity of an alert come from |
| GpiFile.Reader.GetString | gpsbabel/garmin_gpi.c:213-258 | strings with and without a language header, NULL for a length of zero or less |
| GpiFile.Reader.GetAddress | gpsbabel/garmin_gpi.c:538-566 | the address strings in their stored order, as the mask announces them |
| GpiFile.Reader.GetDetail | gpsbabel/garmin_gpi.c:468-604 | the tags that change a waypoint, one case each |
| GpiFile.Reader.HandleOne | gpsbabel/garmin_gpi.c:450-637 | a record is handled and left by seeking to the end its size announces; an unknown tag is left where it is |
| GpiFile.Reader.TagLoop | gpsbabel/garmin_gpi.c:353-356 | the loop over nested records refines the recursive specification |
| GpiFile.Reader.GetPoi | gpsbabel/garmin_gpi.c:326-369 | one waypoint with its options is added to the list |
| GpiFile.Reader.GetList | gpsbabel/garmin_gpi.c:373-407 | a nested list |
| GpiFile.Reader.GetGroup | gpsbabel/garmin_gpi.c:410-440 | a group with its name |
| GpiFile.Reader.GetFile | gpsbabel/garmin_gpi.c:1369-1377 | all records up to the final tag |
| GpiFile.ReadCategory | gpsbabel/garmin_gpi.c:1369-1377 | run on the bytes the writer wrote, the reader returns exactly the waypoints in the order of the blocks |
| GpiRoundTrip.ReadsPoi | gpsbabel/garmin_gpi.c:326-369 | a written waypoint record reads back as its position, name, description, address fields and alert |
| GpiRoundTrip.ReadsBlock | gpsbabel/garmin_gpi.c:373-407 | a written block reads back as everything in and below it, in order |
| GpiRoundTrip.ReadsCategory | gpsbabel/garmin_gpi.c:410-440 | the same for a category, with or without a bitmap |
| GpiRoundTrip.TreeInOrder | gpsbabel/garmin_gpi.c:1005-1008 | the order read is the order in which the tree lists its points |
| GpiRoundTrip.RoundTrip | gpsbabel/garmin_gpi.c:1012-1036 | split, size, write and read, with or without alerts: the same waypoints, each once, in the order of the blocks, positions in degrees to within 180 / 2^31, texts as they were |
| GpiRoundTrip.AlertComesBack | gpsbabel/garmin_gpi.c:469-491 | a proximity comes back in whole metres exactly if its field holds it, a speed unless the name has an '@' already |
| DelbinFrame.ChecksumCancels | gpsbabel/delbin.c:475-488 | over 65535 bytes the accumulator stays below 2^31 and the words and their checksum sum to 0 modulo 2^16 |
| DelbinFrame.SumOfBytes | gpsbabel/delbin.c:475-488 | the words add up to the bytes, those at odd places times 256, the last byte of an odd number included |
| DelbinFrame.OddLastByte | gpsbabel/delbin.c:484-486 | an odd last byte counts as if a zero stood behind it |
| DelbinFrame.WordErrorDetected | gpsbabel/delbin.c:475-488 | a different word at one place, or a different odd last byte, gives a different checksum |
| DelbinFrame.AlteredBodyFails | gpsbabel/delbin.c:718-725 | a body with one word or its odd last byte altered fails against its trailer |
| DelbinFrame.PayloadsOfPackets | gpsbabel/delbin.c:630-648 | packets are marked and counted, all but the last are full, and their payloads concatenate to the frame |
| DelbinFrame.FrameIs | gpsbabel/delbin.c:605-629 | a frame byte for byte, both checksums by what they make the sums |
| DelbinLink.ComputeChecksum | gpsbabel/delbin.c:475-488 | the loop computes the checksum, the odd last byte included |
| DelbinLink.MessageWrite | gpsbabel/delbin.c:605-650 | the packets sent are those of the frame, and the bytes borrowed for their starts are restored |
| DelbinLink.Receiver.ReadDepacketize1 | gpsbabel/delbin.c:652-675 | at most n bytes of one packet, with the static cursor moved behind them |
| DelbinLink.Receiver.ReadDepacketize | gpsbabel/delbin.c:677-688 | exactly n bytes across packets, written where asked and nowhere before |
| DelbinLink.Receiver.SeekHeader | gpsbabel/delbin.c:701-709 | tries the current position, then the beginning of each following packet |
| DelbinLink.Receiver.MessageRead1 | gpsbabel/delbin.c:691-734 | the message read is that of the specification; a damaged copy of the wanted one is a failure, of another one skipped |
| DelbinStream.ReadAligned | gpsbabel/delbin.c:691-734 | a frame is extracted wherever it starts in the payloads, if its header lies in one packet |
| DelbinStream.AlteredNeverReturned | gpsbabel/delbin.c:710-734 | a message with one word altered is never handed out |
| DelbinStream.SkipJunk | gpsbabel/delbin.c:699-709 | packets that do not look like a header are dropped |
| DelbinStream.MessageRoundTrip | gpsbabel/delbin.c:605-734 | what was sent is received, also behind junk, leaving exactly the packets that follow |
| DelbinStream.AllMessagesArrive | gpsbabel/delbin.c:605-734 | any list of messages arrives with the same ids and bodies in order, for every packet size that holds a header |
| DelbinBatch.Device.GetBatch | gpsbabel/delbin.c:788-845 | on success the batch is exactly the data messages before "transfer complete", in order, each acknowledged |
| DelbinBatch.DataMeaning | gpsbabel/delbin.c:808-826 | which messages a batch keeps, by their numbers |
| DelbinBatch.Device.MessageRead | gpsbabel/delbin.c:763-786 | the wait ends at the first message that is wanted, late, an error or a damaged copy; the others are acknowledged in order |
| DelbinBatch.SendQueue.AddToBatch | gpsbabel/delbin.c:854-874 | a message goes behind the others, the array doubling when full |
| DelbinBatch.SendQueue.SendBatch | gpsbabel/delbin.c:877-939 | what is written and heard, and how it ends, as the events decide; then the wait for "transfer complete" |
| DelbinBatch.SendingMeans | gpsbabel/delbin.c:891-926 | for all events: exchange by exchange until one is given up at its second late navigation message or nothing comes any more; every exchange begins with its message and repeats it right behind the first late navigation message only |
| DelbinBatch.SentExactly | gpsbabel/delbin.c:891-926 | the queue is sent whole exactly if the events begin with an answer to each message |
| DelbinBatch.ExchangesMeaning | gpsbabel/delbin.c:877-936 | in a complete run messages go out in queue order, each once or twice, none before the acknowledgement of the one before |
| DelbinBatch.RunIsSafe | gpsbabel/delbin.c:877-936 | the same at every moment of every run |
| DelbinDelivery.QueueArrives | gpsbabel/delbin.c:605-939 | over the packets of the lower layer the other side reads the queue's messages only, in queue order, each once or twice, for every packet size |
| DelbinChunks.WriteNotes | gpsbabel/delbin.c:1241-1276 | exactly the rounded-up number of messages, numbered from 1, each with the waypoint's name, whose texts concatenate to the notes |
| DelbinChunks.NoteIsFound | gpsbabel/delbin.c:1060-1062 | a message's text is found in its bytes behind the name, whatever the name |
| DelbinChunks.NoteBodyIs | gpsbabel/delbin.c:1250-1275 | a message's body in numbers, field by field |
| DelbinChunks.ReadNotes | gpsbabel/delbin.c:1059-1083 | the reassembly loop |
| DelbinChunks.ReassemblyIsExact | gpsbabel/delbin.c:1059-1083 | it returns the text less a final NUL exactly if no earlier message ends in a NUL |
| DelbinChunks.NulIsLost | gpsbabel/delbin.c:1059-1083 | two messages whose text does not come back |
| DelbinChunks.NotesRoundTrip | gpsbabel/delbin.c:1059-1276 | a C string sent with its terminator comes back whole |
| DelbinRoutes.CountShapes | gpsbabel/delbin.c:2029-2040 | shape points counted by the number of route points before them |
| DelbinRoutes.CountsFit | gpsbabel/delbin.c:1987-1988 | the last count read lies inside the array exactly if some shape point stands behind a route point |
| DelbinRoutes.WriteShapePoints | gpsbabel/delbin.c:1940-1969 | groups of at most 25, numbered, in order |
| DelbinRoutes.WriteRoute | gpsbabel/delbin.c:1971-2014 | every waypoint is sent once and in order, unless waypoints behind the list are read; each shape run behind its own route point exactly if the route begins with one |
| DelbinRoutes.OnlyShapes | gpsbabel/delbin.c:1987-1988 | a route whose first count is read behind the array |
| DelbinRoutes.ShapeFirst | gpsbabel/delbin.c:1971-2014 | a route whose shape point is sent as a route point, and whose second count is read behind the array |
| DelbinRoutes.UploadInKind | gpsbabel/delbin.c:1971-2014 | shape points travel as shape points and route points as route points exactly for such routes |
| DelbinRoutes.GroupsAreNumbered | gpsbabel/delbin.c:1940-1969 | each message of a run says how many points there are and which it begins with, and all but the last hold 25 |
| DelbinRoutes.UploadIsNumbered | gpsbabel/delbin.c:1971-2014 | every route point has its number and announces the shape points that follow it |
| ExifLayout.DirFillsItsSize | gpsbabel/exif.c:318-335 | a directory takes the bytes the size pass foresaw exactly if all its out-of-line values are written |
| ExifLayout.BodyEndsAtStart | gpsbabel/exif.c:1117-1134 | the first k directories end where the sum of their sizes says under exactly that condition |
| ExifModel.UnknownTypeFallsShort | gpsbabel/exif.c:1063-1065 | a directory that falls short of its size |
| ExifLayout.DirAtStart | gpsbabel/exif.c:1124-1134 | every directory begins at its computed position |
| ExifLayout.ThumbnailAt | gpsbabel/exif.c:1136-1144 | the thumbnail lies four bytes behind the last directory |
| ExifLayout.ValueIsWhereItSays | gpsbabel/exif.c:1007-1073 | the offset in an entry is where its value lies, even, behind all entries and inside the directory |
| ExifLayout.ValuesAreDisjoint | gpsbabel/exif.c:1007-1073 | values of one directory do not overlap |
| ExifLayout.DirsAreDisjoint | gpsbabel/exif.c:1097-1134 | no value reaches into a later directory |
| ExifPass.PutPointer | gpsbabel/exif.c:824-906 | storing a pointer sets it and moves nothing |
| ExifPass.PointersAre | gpsbabel/exif.c:1097-1105 | which tag points to which directory, by number |
| ExifPass.PassPoints | gpsbabel/exif.c:1097-1105 | after the pass every pointer holds the position of its directory modulo 65536 |
| ExifPass.LayoutPoints | gpsbabel/exif.c:1092-1115 | the same when tags have been sorted, and for the thumbnail |
| ExifPass.PassedIsWritten | gpsbabel/exif.c:1080-1134 | the pass's 16-bit offset for directory k is the end of the written directories before it, their values being written, exactly if the sum of their sizes is below 65536 |
| ExifPass.LongValuesOverflow | gpsbabel/exif.c:1097-1105 | an image whose GPS pointer is 65536 too small |
| ExifKept.LaidOutKeeps | gpsbabel/exif.c:1095-1115 | each directory keeps its number and its tags, sorted by id; only stored pointers change value |
| ExifKept.TagsSurvive | gpsbabel/exif.c:1092-1115 | every tag of the image but the pointers and the GPS version is there with its value in the directory of the same number |
| ExifKept.DirsInOrder | gpsbabel/exif.c:1095-1095 | directories stand in the order of their numbers |
| ExifApp.App.FindIfd | gpsbabel/exif.c:554-565 | the first directory of a number |
| ExifApp.App.PutLong | gpsbabel/exif.c:824-906 | a long is stored, its tag and directory created if missing |
| ExifApp.App.PointAll | gpsbabel/exif.c:1097-1105 | the offset loop over the queue of directories |
| ExifApp.App.LayOut | gpsbabel/exif.c:1092-1115 | all that happens to the directories before the first byte is written |
| ExifApp.WriteIfd | gpsbabel/exif.c:1006-1073 | one directory: entries with a running offset, link, values |
| ExifApp.App.Write | gpsbabel/exif.c:1117-1144 | header, directories, zero word, thumbnail |
| ExifRead.ReadsIfd | gpsbabel/exif.c:371-492 | a directory reads back in either order with all its values from where it lies, less what the order loses |
| ExifRead.ReadsBack | gpsbabel/exif.c:494-523 | a sound segment reads back as its directories, less what the order loses |
| ExifRead.MarkStands | gpsbabel/exif.c:1119-1121 | a written segment begins with "II" or "MM" and 42 in that order |
| ExifRead.SegmentReadsBack | gpsbabel/exif.c:525-553 | the reader takes the order from the mark and finds the directories |
| ExifRead.AllComesBack | gpsbabel/exif.c:371-523 | all of it comes back exactly if the order is little-endian or there is no second directory and no pair of different 16-bit numbers in an entry |
| ExifRead.ItemIs | gpsbabel/exif.c:1040-1067 | in big-endian order each number of a value has its highest byte first |
| ExifRead.InlineComesBack | gpsbabel/exif.c:989-1002 | an inline value is the same after writing and reading exactly unless it is two different 16-bit numbers in big-endian order |
| ExifRead.LinkComesBack | gpsbabel/exif.c:439-439 | the link read is the link written, or 0 in big-endian order |
| ExifFile.HeadThenValue | gpsbabel/exif.c:406-490 | an entry taken by the first loop, with the value fetched by the second, is the tag |
| ExifFile.Reader.GetEntries | gpsbabel/exif.c:406-437 | the entry loop, and the directory offsets its tags leave |
| ExifFile.Reader.GetValues | gpsbabel/exif.c:441-490 | the value loop |
| ExifFile.Reader.GetIfd | gpsbabel/exif.c:371-492 | one directory goes on the list |
| ExifFile.Reader.GetApp | gpsbabel/exif.c:494-523 | the segment's directories, found through their pointers |
| ExifFile.Examine | gpsbabel/exif.c:525-553 | the byte order is taken from the mark, others are refused, and the directories are read |
| ExifFile.WriteAndRead | gpsbabel/exif.c:1092-1144 | laid out, written in either order and read, the directories are the laid-out ones less what the order loses |
| ExifWhole.ExifRoundTrip | gpsbabel/exif.c:1092-1144 | reading what was written in either order gives the laid-out directories, sorted, with every tag but the pointers and the version unchanged, all of them under an exact condition |
| ExifWhole.PointerIsWritten | gpsbabel/exif.c:1097-1134 | in either byte order every pointer's entry holds its directory's position |
| ExifWhole.DirectoryIsWritten | gpsbabel/exif.c:1124-1134 | and there the directory stands |
| ExifWhole.LinkIsWritten | gpsbabel/exif.c:1124-1134 | in either byte order the first directory's link holds the position of IFD1, or 0 |
| ExifWhole.ThumbnailIsFound | gpsbabel/exif.c:1107-1144 | in either byte order the thumbnail lies where its pointer says |
| ExifExample.ImageIsWritten | gpsbabel/exif.c:1092-1144 | an image of one tag, from the tag to the bytes in both orders |
| StableSort.SortSorts | gpsbabel/queue.c:92-203 | the stable sort is a permutation in order, for any total preorder |
| StableSort.SortIsStable | gpsbabel/queue.c:152-164 | elements that are equal in the order stay in the order in which they were |
| StableSort.MergeSorts | gpsbabel/queue.c:138-181 | merging two neighbouring sorted runs, the earlier first among equals, is the stable sort of both |
| StableSort.MergeFirst | gpsbabel/queue.c:141-164 | taking the lower first element, the earlier run's among equals, is that merge |
| QueueSort.MergeRuns | gpsbabel/queue.c:138-181 | the loop over two runs rewires their nodes into the merged order and touches no link ahead |
| QueueSort.Pass | gpsbabel/queue.c:115-187 | one pass merges every two runs, leaves a ring of the same nodes, and counts at most one merge exactly if it is the last |
| QueueSort.SortQueue | gpsbabel/queue.c:92-203 | the queue keeps its nodes, in a ring with its head, and their values stand in the order of the stable sort |
| Utf8.EncodeThenDecode | gpsbabel/cet.c:71-192 | for every value below 2^31 decoding its encoding gives the value and its byte count, whatever follows |
| Utf8.EncodeIs | gpsbabel/cet.c:71-137 | the bytes of every value, range by range |
| Utf8.EncodingIsShortest | gpsbabel/cet.c:71-137 | no sequence with that value is shorter, and none other as short |
| Utf8.DecodeStaysInside | gpsbabel/cet.c:145-192 | the decoder takes nothing beyond the end of the string |
| Utf8.DecodeShrinks | gpsbabel/cet.c:145-192 | encoding a decoded value never needs more bytes than were read |
| Utf8.DecoderAccepts | gpsbabel/cet.c:162-187 | exactly what the decoder accepts, in terms of the bytes |
| Utf8.IllFormedAccepted | gpsbabel/cet.c:162-187 | an ill-framed input it accepts |
| Utf8Strings.EncodeInto | gpsbabel/cet.c:71-137 | the bytes are stored, or the number missing is reported and nothing is stored |
| Utf8Strings.DecodeAt | gpsbabel/cet.c:145-192 | the loops over frames refine the specification of the decoder |
| Utf8Strings.Strlen | gpsbabel/cet.c:273-287 | the number of values, never passing the NUL |
| Utf8Strings.Strndup | gpsbabel/cet.c:308-338 | the checked copy; the output never overtakes the input |
| Utf8Strings.NdupIsIdempotent | gpsbabel/cet.c:308-338 | at most the characters asked for, and copying again changes nothing |
| Charset.SearchLinks | gpsbabel/cet.c:206-234 | the binary search finds what a linear search finds |
| Charset.LookUp | gpsbabel/cet.c:201-244 | the fallback chain of tables |
| Charset.LookUpMeaning | gpsbabel/cet.c:201-244 | every value has exactly one character, by the first table, the second, its own low byte, the fallback set or at last a dollar sign |
| Charset.DollarForOthers | gpsbabel/cet.c:379-409 | a character without a value is written as the value of the dollar sign |
| Charset.CharRoundTrip | gpsbabel/cet.c:42-263 | a character with a value is found again from it |
| Charset.StrAnyToUtf8 | gpsbabel/cet.c:379-409 | the sizing pass equals the bytes written |
| Charset.StrUtf8ToAny | gpsbabel/cet.c:348-372 | one character per sequence, within the size of the input |
| Charset.StringRoundTrip | gpsbabel/cet.c:348-409 | a string of convertible characters survives the way to UTF-8 and back |
| Streams.MemStream.Seek | gpsbabel/gbfile.c:360-375 | the position moves, or nothing changes if it would leave the data |
| Streams.SeekMeaning | gpsbabel/gbfile.c:360-375 | a position from the start does not depend on where the stream stands, one from there does |
| Streams.MemStream.Read | gpsbabel/gbfile.c:377-391 | whole items only |
| Streams.MemStream.Write | gpsbabel/gbfile.c:393-414 | the bytes replace those at the position and extend the data; the capacity grows in steps of 4096 |
| Streams.MemStream.Truncate | gpsbabel/gbfile.c:400-404 | writing nothing cuts the data at the position |
| Streams.MemStream.Eof | gpsbabel/gbfile.c:428-432 | whether the position is at the end |
| Streams.MemStream.Ungetc | gpsbabel/gbfile.c:434-443 | one step back, the byte stored there |
| Streams.ItemsFit | gpsbabel/gbfile.c:377-391 | the items read fit, and another one would not |
| Streams.WriteThenRead | gpsbabel/gbfile.c:377-414 | bytes written are read back, the rest is unchanged |
| Streams.TwoWrites | gpsbabel/gbfile.c:393-414 | two writes are one |
| Streams.ReadThenUnget | gpsbabel/gbfile.c:434-443 | pushing back the byte just read undoes the read |
| Streams.SeekEndIsRelative | gpsbabel/gbfile.c:360-375 | the outcome of seeking from the end is the right one exactly at the end or if both positions are outside the data |
| Streams.SeekEndStays | gpsbabel/gbfile.c:360-375 | a seek to the end that does not move |
| Streams.Pushback.Read | gpsbabel/gbfile.c:125-161 | the pushed-back byte first, then the source, as one sequence |
| Streams.Pushback.Seek | gpsbabel/gbfile.c:106-122 | a seek drops the pushed-back byte and counts it for relative moves |
| Streams.Pushback.Tell | gpsbabel/gbfile.c:175-184 | the position, one less with a byte pushed back |
| Streams.Pushback.Eof | gpsbabel/gbfile.c:186-211 | whether the end is reached, reading a byte ahead if need be |
| Streams.Pushback.Ungetc | gpsbabel/gbfile.c:213-221 | one byte, whatever it is, stands in the place of the last one read |
| Streams.CopyFrom | gpsbabel/gbfile.c:1181-1197 | blocks of 1024 bytes until the count or the end |
| Bytes.LowByteFirst | gpsbabel/util.c:767-785 | the lowest byte of a number comes first |
| Lines.GetStr | gpsbabel/gbfile.c:1024-1085 | a line up to LF, CR, CR LF, end-of-text or the end of the file |
| Lines.LineComesBack | gpsbabel/gbfile.c:1024-1085 | a line with any of these ends is read back whole and the next begins behind it |
| Lines.LastLineComesBack | gpsbabel/gbfile.c:1031-1037 | the last line needs no end, and nothing is no line |
| Lines.MarkIsWide | gpsbabel/gbfile.c:1047-1063 | a byte order mark counts once, before anything else |
| SearchTree.SearchFinds | gpsbabel/duplicate.c:51-84 | the walk finds a key exactly if a node has it |
| SearchTree.AddNode | gpsbabel/duplicate.c:51-84 | a node with the key is reported and nothing changes, or the new node is hung in order |
| Duplicate.TableIsOrdered | gpsbabel/duplicate.c:137-187 | the sorted table: later exports first, ties in list order |
| Duplicate.TableByExport | gpsbabel/duplicate.c:137-160 | later exports stand first, those of the same time in list order |
| Duplicate.Filter.Collide | gpsbabel/duplicate.c:219-236 | what a duplicate does to itself, to the first of its class and to the tree |
| Duplicate.Filter.ProcessOne | gpsbabel/duplicate.c:189-241 | one turn of the loop keeps list and tree as the specification says |
| Duplicate.Filter.Process | gpsbabel/duplicate.c:163-251 | the filter over the whole list |
| Duplicate.SurvivorsAre | gpsbabel/duplicate.c:163-251 | exactly the first of every key survives; with "all", exactly those without a duplicate |
| Duplicate.SurvivorsAreAt | gpsbabel/duplicate.c:223-226 | with "correct" and without "all" a survivor has the coordinates of the last of its key |

## Left out

- Freeing memory, debug output, option parsing, icon, colour and country tables, device drivers, zlib, XML, datum conversion.
- AVL static keys: keys are values here, so whether they are copied does not show; a NULL key given to `avltree_next` is not modelled.
- GPI header, bitmap loading and name shortening before the split; group and category names are read and dropped, as in the program.
- GpiSplit.SplitIsOrganised: coordinates are reals within ±9999, so the rounding of the mean is not covered; the queue is a sequence here, sorted by the specification of `QueueSort.SortQueue`.
- GpiRoundTrip.RoundTrip: needs texts whose length plus 4 is below 32768, positions with -180 <= degrees < 180 and a file below 2^31 bytes, beyond which the format's own fields overflow.
- GpiFile.Reader.GetDetail: a speed that the program prints into the name stays a number of its own behind it; its digits in miles or kilometres per hour are not formatted.
- GpiFile.Reader.HandleOne: a fuel bound stands for the depth of nested records, since a malformed file with negative sizes makes the program recurse for ever.
- GpiFile.Reader.TagLoop: the same bound stands for the number of records, since such a file makes the loop endless.
- GpiFile.Reader.GetPoi: as HandleOne, through its nested records.
- GpiFile.Reader.GetList: as HandleOne, through its nested records.
- GpiFile.Reader.GetGroup: as HandleOne, through its nested records.
- GpiFile.Reader.GetFile: the same fuel bound; any fuel above the file size reads every written file.
- GpiReader: running off the end inside a string, a fatal message and a waypoint tag without a waypoint are one outcome, the end of the program.
- DelbinLink.Receiver.MessageRead1: the source waits for packets for ever, here a finite list of them ends the read; a length field below 4 ends it too. Packets are whole, and the packet buffer has 258 bytes where the source has 256, so that every packet size whose payload length fits a byte is covered.
- DelbinStream.ReadAligned: a message whose eight header bytes are split across two packets is lost (gpsbabel/delbin.c:701-709), which shows as its requirement that they lie in one.
- DelbinBatch.SendQueue.SendBatch: the clock is a flag on each message received, and what the device sends is a list of events; `DelbinDelivery.QueueArrives` ties only the messages sent to packets.
- DelbinRoutes.WriteRoute: names and coordinates are an id each, the itinerary type is left out, and what a run past the waypoint list would send is no result at all.
- DelbinChunks.WriteNotes: the text is not empty, as its caller makes sure; how much text fits a message beside the name is a parameter, and whether a NUL is appended is a flag in the message, a byte in `NoteBody`.
- ExifWhole.ExifRoundTrip: with the position behind the last directory below 65536 as the 16-bit offset needs, fewer than 65536 tags per directory, no more than 65535 items in a value that is written item by item (the 16-bit counter of that loop never ends on more) and types the writer knows; pointers to missing directories must be missing or zero. The tag fields that remember a value's origin are not kept, and the thumbnail's bytes are an input.
- ExifApp.App.PutLong: of the values that can be put only longs, which the layout stores; rationals and the fraction search are left out.
- ExifFile.Reader.GetValues: values of a type the writer does not know, of which the program fills a byte per item and leaves the rest undefined, are not read. A value of more than four bytes at offset 0 keeps the entry's four bytes, and cannot be written.
- StableSort.SortSorts: the duplicate filter sorts with the library's qsort; its keys are all different, so any sort has this result.
- Utf8Strings.NdupIsIdempotent: values are 32-bit ints with wrap-around in frames of seven bytes, led by 0xFE.
- Charset.StringRoundTrip: the tables themselves are not copied here; any that are sorted and consistent with their map will do. Conversion to and from UCS-2 is left out.
- Streams.MemStream.Write: sizes are unbounded, the doubling of 32-bit sizes is not modelled; errors of the compressed stream neither.
- Streams.Pushback.Ungetc: a byte pushed back where none was read, which makes the position negative.
- Lines.GetStr: 16-bit text is only reported as such; strings with a length byte or a terminator are left out, and a byte put back before must be the one read.
- Duplicate.Filter.Process: the CRC of the formatted name and position is an abstract key; deleting is clearing a flag; tree nodes live in an arena.
