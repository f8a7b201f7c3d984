# Verified core of NetServer

The server is built on a handful of vendored data structures and one protocol client. This project models
them in Dafny and proves what their documentation and their callers rely on:

* the red-black and splay trees of libevent's `tree.h`, on heap nodes with the real links, parents and colours;
* the incremental Redis reply reader, the command formatters and the second decoder `nextArgument` of hiredis;
* the chained hash table `dict.c` and its iterator;
* the asynchronous connection `async.c`, with callbacks that re-enter the API;
* the quoting functions of `sds.c` and the Base64 codec of `Common.cpp`.

## How the model is laid out

**Trees.** `RbTree` and `SplayTree` work on nodes in the heap, one method per macro or per branch of a macro. A ghost
value `mem` mirrors the fields, and all reasoning about shapes is done on values: `RbShape` and `SplayShape` hold
trees, contexts, colours and order, `RbMem` and `SplayMem` relate a memory to a shape. `SplayCost` is splaying as a
function, with the number of its rounds and the potential that pays for them. `RbRuns` and `SplayRuns` compare whole
histories with a set of integers, and bound the height of the one and the work of the other.

**Reader and formatter.** `Reply` is the reader as a function on unread bytes, task stack and partial reply. `Reader`
is the object with its buffer, positions and three-slot stack, proved to refine it. `ReplyShape` is the invariant,
`ReplyChunks` the independence of chunking, `ReplyCodec` the inverse of the encoder. `Command` and `FormatString` are
the formatters, with the printf conversions they recognise in `Conversions` and the meaning of formats in `FormatLaws`;
`Arguments` is `nextArgument`. `Sds` is the string buffer.

**Hash table.** `Dict` is the table with its bucket array and linked entries; `DictShape` the bucket chains as values;
`DictIterator` the iterator; `DictRuns` whole histories against a finite map.

**Asynchronous connection.** `AsyncSpec` says what the connection does as a function on its state, given the events,
what each callback does (an arbitrary function from the number of a callback to the calls it makes) and the order in
which tables are iterated (arbitrary, but complete). Its log records calls, replies, ends of reads, writes and failures in
one order, and every answer and callback run. `AsyncTrace` says what such a trace demands of each item and when it ends
the connection, `AsyncRuns` proves that every run obeys, `AsyncEnds` ties traces to events and says what each ending does,
`AsyncMessages` what the messages of a server do, and `AsyncFailures` has the runs that break what comments promise.
`AsyncOutput` is what the server reads. `Async.Context` is the object, with the linked queues of `CallbackList`, proved to
refine the specification step by step, and `Async.Run` joins the two. `PubSub` reads commands and messages, and
`PubSubLaws` says what they are by their letters.

**Text.** `Quoting` has sdscatrepr and sdssplitargs, `QuotingLaws` the lines they are about; `Base64` has the codec,
`Base64Laws` its text.

Where the code and its comments disagree the model follows the code:

* The comment at sds.c:417 says that sdssplitargs parses what sdscatrepr prints. Hexadecimal escapes are printed but
  not parsed; `Quoting.RoundTrip` gives the exact condition and `Quoting.HexNotDecoded` an instance.
* The comment at async.c:292 says that a clean disconnect has no pending callbacks. The guard at async.c:376 does not
  ensure it; `AsyncSpec.DisconnectedEnds` gives the exact condition and `AsyncFailures.PendingDisconnectAborts` a run.
* `dict.c` promises sizes that are powers of two. That holds until a size reaches LONG_MAX, where it is clamped;
  `Dict.NextPower` and `Dict.Dict.ExpandIfNeeded` give the exact condition, for a long of 32 or of 64 bits.
* The README of hiredis calls nested arrays fully supported. Three levels are a protocol error
  (`ReplyCodec.ThreeDeep`); `ReplyCodec.RoundTrip` gives the exact condition.
* redisProcessCallbacks runs the callback in a local variable that not every reply sets. While the connection is
  subscribed and no regular command is pending, two kinds of replies leave it as it was: a message for a name that is
  not subscribed, and a reply that is not a message when no command sent while subscribed is pending. The callback of an
  earlier reply then runs again. `AsyncRuns.TakenIff` and `AsyncRuns.StaleIff` give the exact condition and
  `AsyncFailures.StaleRun` a run. On the first reply of a read event the variable is uninitialised; it is an arbitrary value
  of the event.

Integers are mathematical. Allocation succeeds.

## Model

| member | source | states |
|---|---|---|
| `RbShape.RemoveParts` | MainServer/libevent/include/tree.h:434-508 | A subtree one black node short, below a node, always has a sibling; what its colour and children can be |
| `RbShape.InsertParts` | MainServer/libevent/include/tree.h:390-432 | Under a red parent there is a black grandparent, so the loop may look at it and at the uncle |
| `RbShape.InsertRecoloured` | MainServer/libevent/include/tree.h:398-420 | Red uncle: recolouring moves the one possible red-red edge two levels up and keeps every black count |
| `RbShape.InsertRotatedLeft` | MainServer/libevent/include/tree.h:405-412 | Black uncle, parent a left child: the rotations leave a valid red-black tree with the same in-order nodes |
| `RbShape.InsertRotatedRight` | MainServer/libevent/include/tree.h:421-428 | The mirror case of the insert rotations |
| `RbShape.RedSiblingRotated` | MainServer/libevent/include/tree.h:442-478 | Red sibling: after the rotation the sibling is black and the shortage is where it was, one level lower |
| `RbShape.BlackNephews` | MainServer/libevent/include/tree.h:447-485 | Black sibling without red child: painting it red moves the shortage to the parent |
| `RbShape.RemoveFinishedLeft` | MainServer/libevent/include/tree.h:454-470 | Black sibling with a red child, left side: the last rotation repairs every black count at once |
| `RbShape.RemoveFinishedRight` | MainServer/libevent/include/tree.h:486-502 | The mirror case of the last remove rotation |
| `RbShape.SuccessorOrder` | MainServer/libevent/include/tree.h:519-550 | Taking out the leftmost node of the right subtree and putting it in place of the removed node removes just that node from the order |
| `RbShape.SplicedColours` | MainServer/libevent/include/tree.h:559-573 | After splicing out a node with at most one child the colours are right, or exactly one black is missing |
| `RbShape.NextInOrder` | MainServer/libevent/include/tree.h:626-645 | The in-order successor is the leftmost node of the right subtree, else the nearest ancestor reached from its left |
| `RbShape.HeightBound` | MainServer/libevent/include/tree.h:53-54 | 2^height <= (n+1)^2 for every red-black tree of n nodes, that is, height at most 2 lg (n+1) |
| `RbMem.RotateLeftShape` | MainServer/libevent/include/tree.h:335-353 | The pointer assignments of a left rotation turn one tree into the rotated one: parent and child links agree before and after, nothing else changes |
| `RbMem.RotateRightShape` | MainServer/libevent/include/tree.h:355-373 | The same for a right rotation |
| `RbMem.SpliceShape` | MainServer/libevent/include/tree.h:559-570 | The pointer assignments of splicing out a node with at most one child |
| `RbMem.SubstituteShape` | MainServer/libevent/include/tree.h:537-550 | The pointer assignments by which the successor takes over the links, the colour and the neighbours of the removed node |
| `RbTree.Head.constructor` | MainServer/libevent/include/tree.h:299-301 | An empty valid tree |
| `RbTree.Head.RotateLeft` | MainServer/libevent/include/tree.h:335-353 | New field values of the nodes involved; every other field unchanged |
| `RbTree.Head.RotateRight` | MainServer/libevent/include/tree.h:355-373 | The mirror image |
| `RbTree.Head.InsertRound` | MainServer/libevent/include/tree.h:394-430 | One round keeps the insert-loop invariant and moves up, or finishes with a red-black tree; the in-order sequence is unchanged |
| `RbTree.Head.InsertColor` | MainServer/libevent/include/tree.h:390-432 | From a tree with one fresh red node to a valid red-black tree with the same nodes in the same order; the loop terminates |
| `RbTree.Head.RemoveRoundLeft` | MainServer/libevent/include/tree.h:438-471 | One round for a left child: the sibling is never null, and the shortage moves up or is repaired |
| `RbTree.Head.RemoveRoundRight` | MainServer/libevent/include/tree.h:472-504 | One round for a right child |
| `RbTree.Head.RemoveColor` | MainServer/libevent/include/tree.h:434-508 | From a tree with one black node missing on one side to a valid red-black tree with the same nodes in the same order; the loop terminates |
| `RbTree.Head.Find` | MainServer/libevent/include/tree.h:608-624 | A node with the key, or null exactly if no node in the tree has it |
| `RbTree.Head.Insert` | MainServer/libevent/include/tree.h:577-606 | Valid stays valid; the in-order sequence gains exactly the new node at its place, or an equal key is returned and nothing changes |
| `RbTree.Head.Remove` | MainServer/libevent/include/tree.h:510-575 | Valid stays valid (order, parent links, black root, no red-red edge, equal black counts) and exactly that node leaves the in-order sequence |
| `RbTree.Head.RemoveOne` | MainServer/libevent/include/tree.h:559-574 | Removal of a node with at most one child |
| `RbTree.Head.RemoveTwo` | MainServer/libevent/include/tree.h:519-557 | Removal of a node with two children by moving its successor |
| `RbTree.Head.Next` | MainServer/libevent/include/tree.h:626-645 | The next node in key order, or null after the last, found through parent and child links only |
| `RbTree.Head.MinMax` | MainServer/libevent/include/tree.h:647-660 | The first or the last node in key order; null on an empty tree |
| `RbTree.Head.Traverse` | MainServer/libevent/include/tree.h:672-675 | Minimum and repeated successor visit every node exactly once in ascending order and stop |
| `RbRuns.Perform` | MainServer/libevent/include/tree.h:510-624 | An insert, remove or find acts on the key set as on a plain set of integers, and answers the same |
| `RbRuns.History` | MainServer/libevent/include/tree.h:44-55 | Every tree built by any sequence of inserts, removes and finds is valid, holds the keys of the corresponding set, and is at most 2 lg (n+1) high |
| `SplayMem.LinkLeftShape` | MainServer/libevent/include/tree.h:93-97 | SPLAY_LINKLEFT hangs the root on the right-hand spine: the links spell out the new spine and tree |
| `SplayMem.LinkRightShape` | MainServer/libevent/include/tree.h:99-103 | SPLAY_LINKRIGHT, mirrored |
| `SplayMem.RotateRightShape` | MainServer/libevent/include/tree.h:81-85 | SPLAY_ROTATE_RIGHT during a splay keeps both hanging spines |
| `SplayMem.RotateLeftShape` | MainServer/libevent/include/tree.h:87-91 | SPLAY_ROTATE_LEFT, mirrored |
| `SplayMem.AssembleShape` | MainServer/libevent/include/tree.h:105-110 | SPLAY_ASSEMBLE makes one tree of the two spines and the middle tree |
| `SplayMem.AssembledOrder` | MainServer/libevent/include/tree.h:105-110 | The assembled tree has the in-order sequence left spine, middle, right spine |
| `SplayShape.StopsNearest` | MainServer/libevent/include/tree.h:202-235 | Where the search loop stops, the root holds the key, or no stored key lies strictly between root and key |
| `SplayShape.NoRightChild` | MainServer/libevent/include/tree.h:181-200 | Splaying with a key not below any other leaves a root without right child: the join in remove overwrites nothing |
| `SplayCost.LeftZigZig` | MainServer/libevent/include/tree.h:211-221 | A rotation and a link, two levels down on one side, are paid by the potential they free |
| `SplayCost.LeftRight` | MainServer/libevent/include/tree.h:211-231 | Two links in opposite directions, which this simplified splaying does one at a time, are paid together |
| `SplayCost.LeftRightRight` | MainServer/libevent/include/tree.h:211-231 | A link followed by a rotation and a link on the other side are paid together |
| `SplayCost.Access` | MainServer/libevent/include/tree.h:202-235 | The access lemma for every tree and key: rounds plus twice the new potential below the root are at most twice the old potential plus four ranks plus one |
| `SplayCost.InsertAffords` | MainServer/libevent/include/tree.h:157-179 | A splay and the new root above it cost at most ten ranks, amortised |
| `SplayCost.RemoveAffords` | MainServer/libevent/include/tree.h:181-200 | Two splays and the join cost at most ten ranks, amortised |
| `Powers.LgSum` | MainServer/libevent/include/tree.h:42-44 | Two parts of a whole cannot both have its logarithm, rounded down: what pays for a round |
| `SplayTree.Head.constructor` | MainServer/libevent/include/tree.h:65-67 | An empty valid tree |
| `SplayTree.Head.RoundLeft` | MainServer/libevent/include/tree.h:211-221 | One round of the splay loop to the left keeps the whole in-order sequence and the search bounds, shrinks the middle tree, and is the next of the rounds that lead to the splayed tree |
| `SplayTree.Head.RoundRight` | MainServer/libevent/include/tree.h:222-231 | One round to the right |
| `SplayTree.Head.Splay` | MainServer/libevent/include/tree.h:202-235 | Terminates on every non-empty search tree, keeps the in-order sequence, leaves the key or a nearest node at the root, and yields exactly the tree SplayCost.Splayed in SplayCost.Rounds rounds |
| `SplayTree.Head.Find` | MainServer/libevent/include/tree.h:121-130 | Finds a node exactly if the key is stored; the order is unchanged; rounds and new potential are paid by the old potential and ten times the rank |
| `SplayTree.Head.Insert` | MainServer/libevent/include/tree.h:157-179 | The new node becomes the root at its place in the order, or an equal key is returned and the order is unchanged; at the same amortised cost |
| `SplayTree.Head.Remove` | MainServer/libevent/include/tree.h:181-200 | Exactly the node of that key leaves the in-order sequence; a missing key leaves the order unchanged; at the same amortised cost, both splays counted |
| `SplayTree.Head.MinMax` | MainServer/libevent/include/tree.h:240-271 | The smallest (or greatest) node becomes the root and the order is unchanged, exactly as in a splay for a key beyond it |
| `SplayTree.Head.Min` | MainServer/libevent/include/tree.h:146-151 | The first node in key order, null on an empty tree |
| `SplayTree.Head.Next` | MainServer/libevent/include/tree.h:132-144 | The next node in key order, or null after the last |
| `SplayTree.Head.Traverse` | MainServer/libevent/include/tree.h:285-288 | Minimum and repeated successor visit every node once in ascending order and stop, although each step re-splays |
| `SplayRuns.Perform` | MainServer/libevent/include/tree.h:121-200 | An insert, remove or find acts on the key set as on a plain set of integers, and answers the same |
| `SplayRuns.History` | MainServer/libevent/include/tree.h:42-44 | Under every sequence of m inserts, removes and finds, n of them inserts, the tree is a search tree of exactly the keys of the corresponding set, and all splays together take at most m (10 lg (n + 1) + 3) rounds: the Balance Theorem |
| `Resp.LineFound` | MainServer/hiredis-win32-master/hiredis.c:263-287 | A text is found as a line exactly if it contains no line end |
| `Resp.FindCrlfExtend` | MainServer/hiredis-win32-master/hiredis.c:263-287 | A line end that is found stays found, at the same place, when more bytes follow |
| `Resp.ReadDecimal` | MainServer/hiredis-win32-master/hiredis.c:291-316 | Reading the decimal form of any integer gives the integer |
| `Resp.ReadIntExtend` | MainServer/hiredis-win32-master/hiredis.c:291-316 | Bytes after the line do not change the number |
| `Resp.ReadsValue` | MainServer/hiredis-win32-master/hiredis.c:291-316 | The number in front of any line end, of whatever bytes, is its sign and its digits, and -1 if there is any other byte |
| `Sds.RangeSuffix` | MainServer/hiredis-win32-master/sds.c:220-249 | sdsrange from a position to -1 drops exactly the prefix |
| `Sds.RangeMiddle` | MainServer/hiredis-win32-master/sds.c:220-249 | Every stretch of a string is what its first and last index name, each counted from the start or from the end |
| `Sds.RangeClamps` | MainServer/hiredis-win32-master/sds.c:220-249 | Indices beyond either end are taken for the nearest, and a first index behind the last leaves nothing |
| `Sds.Str.constructor` | MainServer/hiredis-win32-master/sds.c:45-62 | A terminated buffer with the given bytes |
| `Sds.Str.MakeRoomFor` | MainServer/hiredis-win32-master/sds.c:89-107 | At least the requested room, same contents |
| `Sds.Str.CatLen` | MainServer/hiredis-win32-master/sds.c:128-140 | The bytes are appended, the buffer stays terminated and its header consistent |
| `Sds.Str.Range` | MainServer/hiredis-win32-master/sds.c:220-249 | Both index conventions, clamping and the in-place move give the named slice |
| `Reply.ItemShrinks` | MainServer/hiredis-win32-master/hiredis.c:511-558 | Every completed item consumes bytes: the decreasing measure of the item loop |
| `Reply.RunShrinks` | MainServer/hiredis-win32-master/hiredis.c:633-647 | The loop never gains bytes, a completed reply consumes at least one, and an error ends in the cleared error state |
| `ReplyShape.ItemInv` | MainServer/hiredis-win32-master/hiredis.c:511-558 | processItem keeps the reader invariant: at most three tasks, each below the top an array whose child index is within its count, exactly the elements before the current path filled |
| `ReplyShape.GetInv` | MainServer/hiredis-win32-master/hiredis.c:620-668 | redisReaderGetReply keeps the invariant and emits only completely filled replies |
| `ReplyShape.SessionInv` | MainServer/hiredis-win32-master/hiredis.c:588-668 | Over every session of feeds and reads, cut in any way, the invariant holds and every emitted reply is finished |
| `ReplyChunks.ItemExtends` | MainServer/hiredis-win32-master/hiredis.c:511-558 | An item that had to wait is later completed as if all bytes had been there from the start |
| `ReplyChunks.RunExtends` | MainServer/hiredis-win32-master/hiredis.c:633-647 | The same for the whole item loop, including its failures |
| `ReplyChunks.DrainExtends` | MainServer/hiredis-win32-master/hiredis.c:620-668 | Draining, feeding more and draining again is draining everything at once |
| `ReplyChunks.ChunksDoNotMatter` | MainServer/hiredis-win32-master/hiredis.c:588-668 | For every stream and every way of cutting it: same replies, same error status, same unread bytes and stack |
| `ReplyCodec.Decode` | MainServer/hiredis-win32-master/hiredis.c:358-558 | From the type byte of any encodable value, at any allowed depth, the reader stores exactly that value and stands at what follows it |
| `ReplyCodec.RoundTrip` | MainServer/hiredis-win32-master/hiredis.c:358-558 | The concatenated encodings of a list of values are read back in order with nothing left over, if and only if line texts have no line end, arrays nest at most two deep and every type byte is one of the five. Values are status, error, integer and bulk replies, numbers of any spelling, nil bulks of any negative length, arrays, arrays of any count that is not positive (-1 is nil, any other an array without elements), nested or not, and single bytes that are no type byte |
| `ReplyCodec.DecodeNoArray` | MainServer/hiredis-win32-master/hiredis.c:461-487 | A nil array or an array of no elements, at any allowed depth, is stored as nil exactly for the count -1, and the reader stands at what follows |
| `ReplyCodec.DecodeWrong` | MainServer/hiredis-win32-master/hiredis.c:453-458 | A byte that is none of the five type bytes, or an array nested too deep, wherever it stands inside a value, makes the reader fail with everything cleared |
| `ReplyCodec.ProtocolError` | MainServer/hiredis-win32-master/hiredis.c:511-537 | A stream in which such a value comes after readable ones yields exactly the replies before it and then the error, whatever follows |
| `ReplyCodec.RoundTripChunks` | MainServer/hiredis-win32-master/hiredis.c:358-668 | The same equivalence for every way of cutting the stream |
| `ReplyCodec.ThreeDeep` | MainServer/hiredis-win32-master/hiredis.c:453-458 | An array nested three deep is a protocol error whatever it contains |
| `Reader.SeekNewline` | MainServer/hiredis-win32-master/hiredis.c:263-287 | The first line end, or none, from the buffer and its terminator |
| `Reader.ReadLongLong` | MainServer/hiredis-win32-master/hiredis.c:291-316 | The sign-and-digits number of a line, -1 on any other byte |
| `Reader.Reader.constructor` | MainServer/hiredis-win32-master/hiredis.c:560-578 | The initial state |
| `Reader.Reader.SetError` | MainServer/hiredis-win32-master/hiredis.c:189-213 | The reader is cleared and remembers the error |
| `Reader.Reader.MoveToNextTask` | MainServer/hiredis-win32-master/hiredis.c:333-356 | The loop over the fixed stack computes the next task of the specification |
| `Reader.Reader.ProcessLineItem` | MainServer/hiredis-win32-master/hiredis.c:358-390 | Refines the specification of a line item, complete or waiting |
| `Reader.Reader.ProcessBulkItem` | MainServer/hiredis-win32-master/hiredis.c:392-444 | Refines the specification of a bulk item: nil, complete or waiting |
| `Reader.Reader.ProcessMultiBulkItem` | MainServer/hiredis-win32-master/hiredis.c:446-509 | Refines the specification of an array item: nested too deep, nil, empty or descending. ReplyCodec.RoundTrip and ReplyCodec.ProtocolError say what these are in bytes |
| `Reader.Reader.ProcessItem` | MainServer/hiredis-win32-master/hiredis.c:511-558 | Refines the specification of an item; the type byte is read once and remembered across calls |
| `Reader.Reader.ProcessItems` | MainServer/hiredis-win32-master/hiredis.c:633-647 | The item loop refines its specification and terminates |
| `Reader.Reader.Compact` | MainServer/hiredis-win32-master/hiredis.c:653-659 | Compaction after 1024 consumed bytes is invisible: same unread bytes, stack and partial reply |
| `Reader.Reader.GetReply` | MainServer/hiredis-win32-master/hiredis.c:620-668 | Emits what the specification emits and ends in the state it ends in |
| `Reader.Reader.Feed` | MainServer/hiredis-win32-master/hiredis.c:588-618 | Appends the bytes, also when the idle buffer is renewed first; nothing after an error |
| `Reader.DrainReader` | MainServer/hiredis-win32-master/hiredis.c:620-668 | Taking replies until there is none refines the specification's drain |
| `Reader.Session` | MainServer/hiredis-win32-master/hiredis.c:588-668 | The object itself, fed any chunks and drained after each, ends with the replies and the state of one whole feed |
| `Command.FormatEncodes` | MainServer/hiredis-win32-master/hiredis.c:900-932 | A formatted command is the protocol encoding of an array of bulk strings |
| `Command.ReaderReads` | MainServer/hiredis-win32-master/hiredis.c:620-668 | The reply reader recovers exactly the arguments of every formatted command, with nothing left over |
| `Command.IntLen` | MainServer/hiredis-win32-master/hiredis.c:671-682 | The length of the decimal form |
| `Command.BulkLen` | MainServer/hiredis-win32-master/hiredis.c:685-687 | The encoded length of any string of that length |
| `Command.TotalLength` | MainServer/hiredis-win32-master/hiredis.c:906-911 | The length computed in advance is the length of the command |
| `Command.Build` | MainServer/hiredis-win32-master/hiredis.c:833-856 | The buffer of precomputed length is filled exactly, and terminated |
| `Command.FormatCommandArgv` | MainServer/hiredis-win32-master/hiredis.c:900-932 | The returned buffer holds the command of the given arguments, and the returned length is its length |
| `Arguments.NextOfBulk` | MainServer/hiredis-win32-master/async.c:505-517 | nextArgument at an encoded argument of arbitrary bytes yields that argument and the place after it |
| `Arguments.ArgumentsOfFormat` | MainServer/hiredis-win32-master/async.c:505-517 | Repeated nextArgument recovers exactly the arguments of every formatted command |
| `Conversions.SpelledRead` | MainServer/hiredis-win32-master/hiredis.c:753-801 | Every conversion built from flags, width, precision, modifier and letter is recognised in full whatever follows it, unless it is too long for the buffer |
| `Conversions.ReadSpelled` | MainServer/hiredis-win32-master/hiredis.c:753-801 | Whatever is recognised is such a conversion |
| `Conversions.ConversionIff` | MainServer/hiredis-win32-master/hiredis.c:753-801 | A prefix is recognised if and only if it is such a conversion of fewer than 14 characters |
| `Conversions.FindConversion` | MainServer/hiredis-win32-master/hiredis.c:761-790 | The scan for a conversion finds its length, or that there is none |
| `FormatString.Interpolate` | MainServer/hiredis-win32-master/hiredis.c:737-806 | The text that a directive contributes and the characters it takes, as FormatLaws.FormatMeans states them from the side of the arguments |
| `FormatString.Round` | MainServer/hiredis-win32-master/hiredis.c:710-808 | One round of the loop takes one character or directive and the value it needs; the arguments that will come out stay the same |
| `FormatString.Scan` | MainServer/hiredis-win32-master/hiredis.c:709-825 | The arguments are the space-separated pieces of the format with values substituted, and the running total is their encoded length |
| `FormatString.FormatCommand` | MainServer/hiredis-win32-master/hiredis.c:689-872 | The emitted bytes are the command of the arguments that FormatLaws.FormatMeans gives for the format, of the announced length |
| `FormatString.ValuesNeverSplit` | MainServer/hiredis-win32-master/hiredis.c:711-809 | Which pieces form an argument does not depend on their text, so text never splits an argument and empty text still makes one |
| `FormatString.CountByFormat` | MainServer/hiredis-win32-master/hiredis.c:711-809 | The number of arguments is the same for any interpolated values and any printf |
| `FormatLaws.FormatMeans` | MainServer/hiredis-win32-master/hiredis.c:709-825 | For every list of arguments made of parts, spelled as a format with one or more spaces between and any number at both ends and perhaps a zero byte and anything after it: the arguments that come out are the concatenated texts of the parts. Literal text stands for itself, %% is a percent sign, %s the value up to its first zero byte, %b the whole value, a printf conversion of fewer than 14 characters what printf makes of it, and any other letter after a percent sign takes a value and yields nothing |
| `FormatLaws.ServerReads` | MainServer/hiredis-win32-master/hiredis.c:709-872 | A server that reads the formatted command finds exactly these texts as its bulk strings |
| `FormatLaws.LonePercent` | MainServer/hiredis-win32-master/hiredis.c:710-710 | A percent sign at the end of the format stands for itself |
| `DictShape.MaskIsRemainder` | MainServer/hiredis-win32-master/dict.c:118-118 | hash & (2^k - 1) is the remainder by 2^k |
| `DictShape.BucketIsRemainder` | MainServer/hiredis-win32-master/dict.c:118-118 | In a table whose size is a power of two the bucket is the remainder of the hash by the size |
| `DictShape.Prepended` | MainServer/hiredis-win32-master/dict.c:116-120 | Linking an entry in at the front of its bucket keeps every entry in the bucket of its masked hash, one entry for each key, and the chains terminated |
| `DictShape.Removed` | MainServer/hiredis-win32-master/dict.c:193-198 | Unlinking an entry keeps the same, without that key |
| `Dict.NextPower` | MainServer/hiredis-win32-master/dict.c:306-315 | The smallest power of two from 4 on that is not below the wanted size; a power of two if and only if the wanted size is below LONG_MAX |
| `Dict.Dict.constructor` | MainServer/hiredis-win32-master/dict.c:73-85 | An empty table of size 0 |
| `Dict.Dict.Search` | MainServer/hiredis-win32-master/dict.c:248-255 | The walk finds the entry with the key and its predecessor, or the bucket has none |
| `Dict.Dict.Find` | MainServer/hiredis-win32-master/dict.c:243-256 | The entry of the key with the value of the map, or null exactly if the key is not in the map |
| `Dict.Dict.MoveChain` | MainServer/hiredis-win32-master/dict.c:113-124 | All entries of an old bucket reach their new buckets, none is lost, and `used` is counted down by their number |
| `Dict.Dict.Rehash` | MainServer/hiredis-win32-master/dict.c:106-126 | The loop may stop when `used` reaches zero: by then every entry has moved, and the assertion used == 0 holds |
| `Dict.Dict.Expand` | MainServer/hiredis-win32-master/dict.c:88-132 | Same map, same count, new power-of-two size; refuses exactly if more entries are in use than asked for |
| `Dict.Dict.ExpandIfNeeded` | MainServer/hiredis-win32-master/dict.c:295-303 | Never fails; leaves room; the size stays a power of two if and only if the doubled size is below LONG_MAX |
| `Dict.Dict.KeyIndex` | MainServer/hiredis-win32-master/dict.c:320-337 | -1 exactly for a key that exists, else its bucket in the possibly expanded table, which is the remainder of the hash while the size is a power of two |
| `Dict.Dict.Add` | MainServer/hiredis-win32-master/dict.c:135-154 | Adds the pair to the map exactly if the key is new; otherwise the map is unchanged; exactly when the size is a power of two afterwards |
| `Dict.Dict.Replace` | MainServer/hiredis-win32-master/dict.c:160-179 | The map gets the new value in either case; the result tells whether the key is new |
| `Dict.Dict.Delete` | MainServer/hiredis-win32-master/dict.c:182-210 | The key leaves the map; the result tells whether it was there |
| `DictRuns.Perform` | MainServer/hiredis-win32-master/dict.c:135-256 | Every operation acts and answers as on a finite map |
| `DictRuns.History` | MainServer/hiredis-win32-master/dict.c:135-337 | Under every sequence of add, replace, delete and find the table is valid, all answers are those of the finite map and the counter is the number of keys; unless the sequence is half as long as the largest long, the size is 0 or a power of two from 4 on, with a bucket for every entry |
| `DictIterator.FlatIsCell` | MainServer/hiredis-win32-master/dict.c:258-286 | The entries in bucket order contain each key of the map once, and `used` is their number |
| `DictIterator.Iter.constructor` | MainServer/hiredis-win32-master/dict.c:258-266 | A new iterator has all entries before it |
| `DictIterator.Iter.Next` | MainServer/hiredis-win32-master/dict.c:268-286 | Returns the next of the entries still to come, or null exactly if there are none |
| `DictIterator.DeleteReturned` | MainServer/hiredis-win32-master/dict.c:279-282 | Deleting the entry just returned does not change what is still to come |
| `DictIterator.Iterate` | MainServer/hiredis-win32-master/dict.c:182-286 | A whole iteration in which the caller deletes any choice of the entries it has just been given returns every original entry exactly once, their keys being those of the original map, and leaves the map without the chosen keys |
| `CallbackList.List.Push` | MainServer/hiredis-win32-master/async.c:185-202 | The linked queue gains the record at its end |
| `CallbackList.List.Shift` | MainServer/hiredis-win32-master/async.c:204-218 | The linked queue loses its oldest record, or reports that it is empty |
| `PubSub.TracksStep` | MainServer/hiredis-win32-master/async.c:319-364 | After a subscribe or unsubscribe each table again maps a name to the callback of its latest subscribe not followed by an unsubscribe, and the other table is unchanged |
| `PubSub.TracksAll` | MainServer/hiredis-win32-master/async.c:546-556 | The same for all names of one subscribe command |
| `PubSub.SubscribeAll` | MainServer/hiredis-win32-master/async.c:550-556 | The nextArgument loop enters exactly the arguments after the command name |
| `PubSub.ClassifyByName` | MainServer/hiredis-win32-master/async.c:538-570 | For command names without a line end, subscribe and unsubscribe are recognised exactly by name, in any case, with or without a leading p |
| `PubSubLaws.ClassIs` | MainServer/hiredis-win32-master/async.c:538-570 | For every command: it is a subscribe, with names, or an unsubscribe exactly if its name is one of four literal words, each letter small or capital, alone or with a line end after it; a p in front makes it one for patterns |
| `PubSubLaws.ReadMessageIs` | MainServer/hiredis-win32-master/async.c:328-359 | What any reply is read as, element by element: no message exactly if it is no array; unexpected exactly if it has fewer than two elements or the first two are not both strings; else for patterns exactly if its word starts with p or P, for the name in its second element, an unsubscription exactly if the word as a C string is unsubscribe or punsubscribe in any case, with the count of an integer in third place |
| `PubSubLaws.NoticeRead` | MainServer/hiredis-win32-master/async.c:333-357 | The messages of a server, written out from literal words in any case, are read as what they are: message, pmessage, subscribe, psubscribe, unsubscribe and punsubscribe with their table, name, purpose and count |
| `PubSub.EnterAllAt` | MainServer/hiredis-win32-master/async.c:549-556 | After a subscribe a table has exactly its old names and those of the command, the latter with the new callback |
| `AsyncSpec.RunningStill` | MainServer/hiredis-win32-master/async.c:531-532 | User code run from a callback of a closing connection changes no queue, no table, no output and no answer |
| `AsyncSpec.DrainedReplies` | MainServer/hiredis-win32-master/async.c:236-238 | The first draining loop empties its queue and leaves the other queue, the tables and the messages alone |
| `AsyncSpec.DrainedAside` | MainServer/hiredis-win32-master/async.c:240-242 | The second draining loop empties the other queue and leaves the first alone |
| `AsyncSpec.TornDownEnds` | MainServer/hiredis-win32-master/async.c:230-272 | Teardown ends with both queues empty and the connection freed |
| `AsyncSpec.DisconnectedEnds` | MainServer/hiredis-win32-master/async.c:286-304 | The assertion of __redisAsyncDisconnect fails if and only if there is no error and a regular callback is pending; otherwise the connection is freed with nothing pending |
| `AsyncRuns.DoingAllKept` | MainServer/hiredis-win32-master/async.c:220-227 | A callback makes its calls in order, all of them unless one fails an assertion; queues, tables and output agree with the trace of all calls and replies so far, and every call has the effect that the trace before it demands |
| `AsyncRuns.RunningKept` | MainServer/hiredis-win32-master/async.c:220-227 | Running a callback loses and answers no command, logs exactly that run, and logs exactly the calls it makes |
| `AsyncTrace.CallOne` | MainServer/hiredis-win32-master/async.c:531-570 | What a call does to the history of subscriptions: an accepted subscribe adds its names with its callback, and nothing else does |
| `AsyncTrace.ArrivalOne` | MainServer/hiredis-win32-master/async.c:344-357 | What a reply does to it: an unsubscribe message for a known name takes that name away; and what a message is answered with |
| `AsyncRuns.SentTraced` | MainServer/hiredis-win32-master/async.c:522-580 | A command has the effect the trace demands, and table, flag and output change exactly as that effect means |
| `AsyncRuns.KnownArriving` | MainServer/hiredis-win32-master/async.c:344-357 | A message for a name in its table is for the callback of the latest subscribe in the trace, and unregisters exactly what the trace unregisters |
| `AsyncRuns.WrittenTraced` | MainServer/hiredis-win32-master/hiredis.c:1113-1119 | Writing moves bytes from what waits to what was written, and loses none; what waits is as long as the trace of commands and writes says |
| `AsyncOutput.ServerReads` | MainServer/hiredis-win32-master/async.c:574-574 | Whatever the run, the bytes written and waiting are read back as exactly the accepted commands, in order, with nothing left over |
| `AsyncRuns.TornDownGood` | MainServer/hiredis-win32-master/async.c:230-272 | Teardown answers every pending record with null, in order, and runs the callback of every subscribed name with null exactly once |
| `AsyncRuns.DisconnectedGood` | MainServer/hiredis-win32-master/async.c:286-304 | The same for a disconnect, after an error or clean, unless its assertion fails; the connection ends as its trace says; no call from outside and no reply is lost or added |
| `AsyncRuns.DispatchedTaking` | MainServer/hiredis-win32-master/async.c:386-405 | Dispatching a reply adds it to the trace with the purpose that the trace before it demands; a regular record is answered exactly if one was pending; a message adds the callback of the latest subscribe in the trace to the deliveries; queues and tables still agree with the trace; a stray reply ends the connection as the trace demands |
| `AsyncRuns.ProcessedLives` | MainServer/hiredis-win32-master/async.c:372-423 | One reply keeps the invariant of the run, in which messages have run exactly the callbacks of their latest subscribes, and is taken into account exactly unless it ends the connection |
| `AsyncRuns.ProcessedAllLives` | MainServer/hiredis-win32-master/async.c:366-428 | A read event takes in a prefix of the replies that are there, all of them unless the connection ends |
| `AsyncRuns.HandledAllLives` | MainServer/hiredis-win32-master/async.c:185-428 | From any state of a run, any further events: the invariant, and calls and replies so far are a prefix of those of the events |
| `AsyncRuns.RunPromised` | MainServer/hiredis-win32-master/async.c:185-428 | Every run, whatever the callbacks do. The calls from outside are those of the events and the calls of the n-th callback those it makes, in order. In the one trace of calls, replies, ends of reads, writes and failures every call has the effect, and every reply the purpose, that the items before it demand; only callbacks run by teardown may be refused more. The connection is freed, or has failed an assertion, if and only if the first item of the trace that ends it does so: a free by anyone, a disconnect from outside with no regular command waiting, an error reply that nothing waits for, a failed read, a read that ends after a disconnect was asked for with nothing unsent (an assertion, if a regular command waits), a broken socket; other stray replies and commands without arguments fail an assertion; after the end there are only calls by callbacks. Queues hold exactly what was accepted and not answered. The i-th record answered is the i-th accepted, with the i-th reply for its kind, or null after teardown has begun, and exactly the answers with a function have been run, in order. The tables hold exactly the latest subscribes of the trace, and each message for such a name has run that callback with it, in order. What was written and what waits to be written are the bytes of the accepted commands, in order. The replies taken in are a prefix of those that arrived, all of them while the connection lives. A freed connection has answered everything and run the callback of every subscribed name once with null |
| `AsyncEnds.RunFollows` | MainServer/hiredis-win32-master/async.c:278-428 | What the trace of a run has from outside is what its events bring, in order: calls, replies, ends of reads, writes, failures; all of it while the connection lives |
| `AsyncEnds.NextEvent` | MainServer/hiredis-win32-master/async.c:278-428 | One more event on any run that goes on. A free from outside and a socket error free the connection, a disconnect does so exactly if no regular command waits, a command fails an assertion exactly if it has no arguments and is not refused, a write ends nothing. A read whose replies the connection outlives frees it exactly if it fails, or a disconnect was asked for, nothing is unsent and nothing waits; if something waits it fails an assertion. Whenever an event frees the connection, every pending record is answered with null in order, and the callbacks of the regular commands, of those sent while subscribed, of the channels and of the patterns run in this order |
| `AsyncEnds.ReplyEnds` | MainServer/hiredis-win32-master/async.c:386-423 | One reply: exactly when it ends the connection. It is an error that nothing waits for, it fails an assertion, or the callback run for it asks for a free or, before the end is asked for, makes a command without arguments |
| `AsyncEnds.TornDownRuns` | MainServer/hiredis-win32-master/async.c:230-272 | Teardown answers both queues with null in order and runs the callbacks of both and of both tables, in this order, adding nothing else to the callbacks run |
| `AsyncEnds.RunEnds` | MainServer/hiredis-win32-master/async.c:278-317 | A free from outside, a failed read or a broken socket in the trace of a run has freed the connection |
| `AsyncEnds.RunGoesOn` | MainServer/hiredis-win32-master/async.c:278-428 | The events of a run that goes on hold no free, no failed read and no socket error |
| `AsyncEnds.FreedOnlyBy` | MainServer/hiredis-win32-master/async.c:278-428 | A freed connection was freed by one of six causes, which came while it still went on |
| `AsyncMessages.NoticeOnRun` | MainServer/hiredis-win32-master/async.c:319-364 | On any run that goes on with no regular command waiting, a message, pattern message or confirmation whose table and name have a subscriber runs the callback of the latest subscribe with it, before anything else, whatever the read event holds next |
| `AsyncMessages.NoticeLeaves` | MainServer/hiredis-win32-master/async.c:344-357 | What such a notice leaves of the subscriptions: an unsubscription ends that one in its own table, nothing else changes, and the count zero ends the subscribed mode |
| `AsyncMessages.PatternMessage` | MainServer/hiredis-win32-master/async.c:333-347 | PSUBSCRIBE and a pmessage on a new connection, for all names, payloads and spellings: the subscriber of the pattern runs first |
| `AsyncMessages.PatternLeaves` | MainServer/hiredis-win32-master/async.c:333-357 | PSUBSCRIBE and SUBSCRIBE for one name and a punsubscribe message: the subscriber of the pattern runs, the pattern is gone, the channel stays, and the connection is subscribed unless the count is zero |
| `AsyncRuns.TakenIff` | MainServer/hiredis-win32-master/async.c:386-405 | A reply takes a record if and only if a regular one is pending, or the connection is subscribed and the reply is a message for a name whose latest subscribe, among all calls and messages so far, was not followed by an unsubscribe, or no message while a command sent while subscribed is pending; a message takes the callback of that latest subscribe; and exactly when a reply takes none |
| `AsyncRuns.StaleIff` | MainServer/hiredis-win32-master/async.c:366-410 | The callback of an earlier reply runs again if and only if a reply takes no record and the callback variable holds a function |
| `AsyncFailures.StaleCallbackRuns` | MainServer/hiredis-win32-master/async.c:366-410 | On a subscribed connection with one regular command left, its reply and then a message for an unknown name run its callback twice |
| `AsyncFailures.StaleRun` | MainServer/hiredis-win32-master/async.c:366-410 | Such a run from a new connection: a regular command, a subscribe, the reply and a message for another name; the first callback runs twice and the subscriber never |
| `AsyncFailures.PendingDisconnectAborts` | MainServer/hiredis-win32-master/async.c:376-379 | The run that fails the assertion of __redisAsyncDisconnect: send, flush, disconnect, then a read event without a reply |
| `AsyncFailures.EnvExists` | MainServer/hiredis-win32-master/async.c:244-255 | Whatever the callbacks do, there is an order of iteration that visits every name of a table once, so the runs spoken of exist |
| `AsyncFailures.StaleInstance` | MainServer/hiredis-win32-master/async.c:366-410 | GET x and SUBSCRIBE a, then the value of x and a message on b: the callback of GET runs twice |
| `Async.FindCommand` | MainServer/hiredis-win32-master/async.c:538-545 | The kind of the command and the place of its second argument, from the formatted bytes |
| `Async.Context.constructor` | MainServer/hiredis-win32-master/async.c:107-137 | A connection with empty queues and tables, at the start of the specification |
| `Async.Context.Command` | MainServer/hiredis-win32-master/async.c:522-580 | On the linked queues, the tables and the output, exactly what AsyncSpec.Sent does to their contents, and accepted exactly if the command is not refused there |
| `Async.Context.Do` | MainServer/hiredis-win32-master/async.c:220-227 | The calls of a callback refine AsyncSpec.DoingAll: each call in order, none after a failed assertion |
| `Async.Context.RunCallback` | MainServer/hiredis-win32-master/async.c:220-227 | Refines AsyncSpec.Running for every callback, and returns with the callback flag clear |
| `Async.Context.DrainReplies` | MainServer/hiredis-win32-master/async.c:237-238 | The loop terminates, because nothing can be enqueued during teardown, and refines AsyncSpec.DrainingReplies |
| `Async.Context.DrainAside` | MainServer/hiredis-win32-master/async.c:241-242 | The same for commands sent while subscribed |
| `Async.Context.DrainTable` | MainServer/hiredis-win32-master/async.c:245-255 | The loop over a table refines AsyncSpec.DrainingTable on its callbacks in iteration order |
| `Async.Context.Teardown` | MainServer/hiredis-win32-master/async.c:230-272 | Refines AsyncSpec.TornDown; entered only when disconnecting or freeing |
| `Async.Context.AsyncFree` | MainServer/hiredis-win32-master/async.c:278-283 | Noted inside a callback; outside it tears the connection down, as AsyncEnds.NextEvent states for every run |
| `Async.Context.InternalDisconnect` | MainServer/hiredis-win32-master/async.c:286-304 | Refines AsyncSpec.Disconnected, also where its assertion fails |
| `Async.Context.AsyncDisconnect` | MainServer/hiredis-win32-master/async.c:312-317 | Noted inside a callback or with regular callbacks pending, carried out otherwise, as AsyncEnds.NextEvent states for every run |
| `Async.Context.GetSubscribeCallback` | MainServer/hiredis-win32-master/async.c:319-364 | Sets its target exactly if a record is taken, to that record, and tells so; otherwise leaves it; refines AsyncSpec.MessageDispatched on the message that PubSubLaws.ReadMessageIs describes |
| `Async.Context.Dispatch` | MainServer/hiredis-win32-master/async.c:386-405 | Takes, rejects or aborts exactly as AsyncSpec.FateOf says, tells whether a record was taken, and refines AsyncSpec.Dispatched; for the messages of a server AsyncMessages.NoticeOnRun says what that is |
| `Async.Context.Process` | MainServer/hiredis-win32-master/async.c:372-423 | One round refines AsyncSpec.Processed; the callback variable afterwards is the record taken, or what it was |
| `Async.Context.ProcessCallbacks` | MainServer/hiredis-win32-master/async.c:366-428 | The loop over the replies that are there, and its end, refine AsyncSpec.ProcessedAll |
| `Async.Context.Handle` | MainServer/hiredis-win32-master/async.c:278-428 | Every event refines AsyncSpec.Handled |
| `Async.Run` | MainServer/hiredis-win32-master/async.c:185-428 | Every run of the connection object is the run of the specification from a new connection, keeps the promise that AsyncRuns.RunPromised proves and follows its events |
| `Quoting.CatRepr` | MainServer/hiredis-win32-master/sds.c:380-406 | The string gains the quoted form of the bytes |
| `Quoting.GetToken` | MainServer/hiredis-win32-master/sds.c:424-477 | The token loop finds the argument and the place after it, or gives up, as QuotingLaws.SplitSpelled states it for words and quotes |
| `Quoting.SplitArgs` | MainServer/hiredis-win32-master/sds.c:420-503 | The arguments of a line, or none, as QuotingLaws.SplitSpelled and QuotingLaws.SplitFailsIff state them |
| `Quoting.SplitLine` | MainServer/hiredis-win32-master/sds.c:380-503 | For every list of arguments, exactly what comes back after quoting, joining with spaces and splitting |
| `Quoting.RoundTrip` | MainServer/hiredis-win32-master/sds.c:408-419 | The same list comes back if and only if every byte is printable or has a named escape |
| `Quoting.HexNotDecoded` | MainServer/hiredis-win32-master/sds.c:445-452 | The byte 255 comes back as the three characters xff |
| `QuotingLaws.SplitSpelled` | MainServer/hiredis-win32-master/sds.c:420-503 | For every line of words and quoted arguments with white space before, between and after them: the words come out as they stand, also in front of a quote, and what is in quotes with each escape replaced by the byte it stands for; a line that breaks off gives none |
| `QuotingLaws.SplitFailsIff` | MainServer/hiredis-win32-master/sds.c:453-461 | Splitting fails if and only if, after any number of arguments, a quote is never closed or is closed in front of something that is neither white space nor the end; every other line spells arguments |
| `QuotingLaws.QuoteSpells` | MainServer/hiredis-win32-master/sds.c:380-406 | What sdscatrepr prints is an argument in quotes, which stands for the printable bytes and those with a letter as they are, and for x and two digits of the literal sixteen for any other |
| `Base64.TablesInverse` | MainServer/source/Common/Common.cpp:3-18 | The decode table inverts the encode table, top bit ignored, and padding and line ends are outside the alphabet |
| `Base64.InitBase64` | MainServer/source/Common/Common.cpp:6-18 | The two loops fill the table with the value of every character, -1 outside the alphabet |
| `Base64.Encode` | MainServer/source/Common/Common.cpp:44-84 | Groups of four characters with a line break after every 76, and padding at the end, as Base64Laws.EncodedText states them |
| `Base64.Decode` | MainServer/source/Common/Common.cpp:87-134 | The two counters and the pointer that stops at padding compute the specified bytes; the byte count is their number |
| `Base64.DecodeEncoded` | MainServer/source/Common/Common.cpp:44-134 | Decoding undoes encoding for every byte string, wherever on a line it starts, also when it ends exactly at a line break |
| `Base64.RoundTrip` | MainServer/source/Common/Common.cpp:44-134 | Decode(Encode(x)) is x and the reported count is the length of x |
| `Base64.LinesAtMost76` | MainServer/source/Common/Common.cpp:59-63 | Any stretch of the encoding without a line break has at most 76 characters |
| `Base64Laws.EncodedText` | MainServer/source/Common/Common.cpp:3-84 | Character i of the unbroken encoding is the letter of the literal 64-character table for sextet i of the data, and = where no bits are left in the last group; the text is this in lines of 76, one full line and a line break for every 57 bytes |
| `Base64Laws.EncodedLine` | MainServer/source/Common/Common.cpp:59-63 | Every line before the last has exactly 76 characters, at its place in the unbroken encoding, and the last line has the others |

## Left out

- Comparison functions of the trees: keys are integers compared by `<`; a user's comparison function is assumed to be such an order.
- RB_AUGMENT, which is empty by default.
- SplayTree.Head.Next: the walk down to the leftmost node after its splay is not counted as work.
- SplayTree.Head.MinMax: requires a comparison value other than zero, with which the loop of the macro would not end.
- Reply objects are values: the reader writes elements through paths, not through parent pointers that alias them.
- Custom reply object functions of the reader, error texts, and failed allocations.
- 64-bit overflow of numbers in replies.
- FormatString.FormatCommand: the text that printf makes of an argument is a parameter, and every argument is taken to be one `va_arg`; the value of %s is the memory it points to.
- redisFormatCommandArgv with a null length array, which takes strlen of each argument.
- Freeing of memory, _dictClear and dictRelease, which only free, and the hash function, which is a parameter of the table.
- Async.Context: its tables are maps and their iteration order is a parameter, so it does not capture the linking of table entries, which Dict and DictIterator do; also left out are the connect phase, the connect and disconnect callbacks and the event-loop hooks; arriving replies are a sequence.
- Async.Context.GetSubscribeCallback: an unsubscribe message without a third element, which the code reads out of bounds, counts as a failed assertion.
- Aborted runs: after a failed assertion the records answered are still the first ones accepted, but the record that the assertion itself shifted off is in no queue.
- Sockets, blocking calls and timeouts of hiredis; the event-loop adapters.
- Base64.Decode: bytes past the end of malformed input are read as zero, and the table holds signed values.
- isprint and isspace are those of the C locale.
- GetCRC, GetUid, GetDateTime, and the SQL, HTTP, logging and record services, which have no logic of their own in this repository.
