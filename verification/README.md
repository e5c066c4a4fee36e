# A verified model of the Aerospike C client core

This Dafny project models the parts of the client library on which its correctness
rests and proves what they are for.  `dafny verify dfyconfig.toml` verifies all of it.

| file | what it models |
|---|---|
| `IndexProtocol.dfy` | the optimistic index update: any number of `put_index` calls against one record server, over a network that delays, repeats and loses messages, and the retry loop of one call |
| `Cluster.dfy` | the partition table, node list and reference counts as a state machine, with lookups and puts of other threads as steps; the gate that lets one tender in |
| `Tender.dfy` | the tend pass itself: table update, replicas parsing, node liveness, eviction, destroy, as methods over that state with other threads acting in between |
| `AsyncPipeline.dfy` | the asynchronous put pipeline: sender and receiver threads passing work items, sockets and node references through queues and pools |
| `RingQueue.dfy` | the ring-buffer queue in its array, with growth, offset unwrapping and in-place deletion, and the three-level priority queue |
| `HashTable.dfy` | the chained hash table in an explicit memory of elements |
| `LinkedList.dfy` | the doubly linked list with its deleting and inserting traversals |
| `ByteOrder.dfy`, `WireCodec.dfy` | message layout, byte swapping, size computation and parsing, in byte buffers |
| `ServerView.dfy` | the server's reading of a message, by the numbers of the protocol header alone |
| `Base64.dfy`, `Replicas.dfy` | base 64 in both directions and in place, bitmaps, and the replicas text |
| `Reports.dfy` | the replicas text and the tender joined: from the bytes of a reply to the claims it leaves |
| `Batch.dfy` | the scatter and gather of a batch read |
| `Common.dfy` | what several of these share |

Protocols are state machines whose steps are single atomic actions of one thread or
message; a run is any sequence of enabled steps from the initial state, and the main
theorems hold for every run.  Code that changes memory is a class or a method over
arrays, proved against a specification on sequences or maps; the theorems about the
specification follow.

Where code and comments differ the model follows the code.  `include/citrusleaf/cf_queue.h:73`
calls `pop` last-in first-out; `src/cf_queue.c:341` takes the oldest element, and
`RingQueue.FirstInFirstOut` states that.

## What turned out not to hold

Each of these is the code's own behaviour, kept in the model, with the exact condition
under which the expected property holds:

- Deleting all matches from a queue can leave one, because the shift at
  `src/cf_queue.c:384-390` moves the next element under the loop index
  (`RingQueue.DeleteLeavesAMatch`: a queue holding 1, 7, 7 around the end of its array
  is left with 1, 7).  It leaves none exactly if everything before the end
  of the array matches or no two matches are neighbours after it (`RingQueue.SweepsAll`).
- The two base 64 decoders disagree on a text whose last character is not padding but
  whose last but one is, and the validator accepts such a text
  (`Base64.DecodersDiffer`); they agree exactly on all other texts (`Base64.DecodersAgree`).
- The validator looks for padding at the start of the text, so what it accepts is exactly
  any length divisible by four with symbols everywhere but in the last two places
  (`Base64.AcceptedExactly`).
- A wire integer shorter than 8 bytes with its top bit set is not sign-extended
  (`src/citrusleaf.c:559-570`); integers are read right exactly if they are non-negative
  or full width (`WireCodec.WireIntExact`).
- A batch read that finds no node for some digest returns without dropping the references
  already taken (`src/cl_batch.c:613-626`); references balance exactly if every digest
  gets a node or the first one already does not (`Batch.ReferencesBalance`).  The lookups
  of one call can answer so, the tender evicting the last node between them
  (`Cluster.AnswerThenNone`), and then one reference stays (`Batch.EvictionLeaks`).
- The computed message size is one byte too large for a digest and for scan options
  (`src/citrusleaf.c:722-747`); it is exact otherwise (`WireCodec.SizeAccounting`).

## Assumptions

- The record server applies a conditional write atomically and every write increases the
  record's generation, as the flags of `include/citrusleaf/proto.h:330` and `:333` say.
  Records are not deleted and do not expire.  Distinct data have distinct digests.
- Memory allocation succeeds.  Locks do what they are for: a locked section is one step.
- The machine is little-endian with 8-bit bytes.  Integer widths are stated where a value
  crosses them: 16, 32, 48 and 64 bits on the wire, 32-bit offsets in the ring, the
  unsigned loop index of the tender.
- Both callbacks of the asynchronous pipeline are registered.  Which idle connection of a
  node a sender takes is left open.
- C strings contain no NUL before their end; names of bins fit their 32-byte field.  Keys
  of integer type have size 8 and memcache increments are 16-byte blobs.

## Model

| member | source | states |
|---|---|---|
| IndexProtocol.RecordIsNew | src/php_cl_query.c:597-609 | answers whether the digest occurs nowhere in the list |
| IndexProtocol.CreateRecord | src/php_cl_query.c:579-595 | builds a fresh blob holding the current list and then the new digest |
| IndexProtocol.PutIndex | src/php_cl_query.c:728-841 | for any replies, everything the call asks for: a read whose list has the digest leads to the data write, another to a conditional append, a clash of the condition to a new read; it fails exactly at a failed read, a generation of 0, a failed data write or a verdict that is neither success nor that clash; its reads are one more than the clashes |
| IndexProtocol.TakeReply | src/php_cl_query.c:734-831 | one turn: what is asked next after a reply, or the result |
| IndexProtocol.OneExchange | src/php_cl_query.c:728-841 | the replies leave no choice what is asked |
| IndexProtocol.ClientExchanges | src/php_cl_query.c:728-841 | every client in every state of every run stands where that loop is after some replies, so the theorems about runs are about it |
| IndexProtocol.ClashReadsAgain | src/php_cl_query.c:782-785 | in every run a client told that its condition did not hold reads again, and no other verdict makes it |
| IndexProtocol.FailuresAreReported | src/php_cl_query.c:728-924 | contention fails no call: a client fails only at a read, write or data write reported as failed |
| IndexProtocol.NoCallIsStuck | src/php_cl_query.c:728-924 | from every state of every run, however stale what it read, a call that has not failed can still succeed |
| IndexProtocol.ApplyAppends | include/citrusleaf/proto.h:330-333 | a conditional write that applies, however late or often it is delivered, only appends its own digest to the list it was based on |
| IndexProtocol.StepKeeps | src/php_cl_query.c:728-924 | every step of client, server or network keeps the protocol invariant |
| IndexProtocol.AppendOnly | src/citrusleaf.c:1240-1410 | no lost update: in every run an index list is only extended at its end, under every interleaving, delay and resending |
| IndexProtocol.NoDuplicates | src/php_cl_query.c:597-609 | no index list ever holds a digest twice, and all of them were put under that key |
| IndexProtocol.PassedCallsStayIndexed | src/php_cl_query.c:766-841 | a call past its index step has its digest in the index in every later state |
| IndexProtocol.DataIsIndexed | src/php_cl_query.c:836-924 | every data record, stored or under way, has its digest in its index |
| IndexProtocol.RetriesAreBounded | src/php_cl_query.c:728-834 | a call reads the index at most once more than there are distinct digests put under its key |
| Cluster.ReferencedIsAllocated | src/cf_alloc.c:35-68 | a node in the list, in a slot or held by a transaction is allocated |
| Cluster.UpdateSlot | src/cl_partition.c:178-214 | one slot update leaves the reporter with exactly the role it claims, forces the displaced party's refetch, keeps all counts exact and never frees the reporter |
| Cluster.WriteLookupReserves | src/cl_partition.c:224-259 | a lookup for a write reserves the master and is not served without one |
| Cluster.ReadLookupReserves | src/cl_partition.c:224-259 | a lookup for a read reserves the only party, or the one of two the dice names |
| Cluster.WritesGoToTheMaster | src/cl_partition.c:238-240 | in every run a lookup for a write takes the master of the slot, never a node that is only prole |
| Cluster.RandomReserves | src/cl_cluster.c:703-745 | the fallback reserves a listed node, any of them |
| Cluster.StepKeeps | src/cl_cluster.c:596-745 | every step of tender, lookup, put and destroy keeps exact counts and a consistent table |
| Cluster.CountsAreExact | src/cf_alloc.c:35-88 | in every reachable state a count is listing plus master slots plus prole slots plus holds, and a node is freed exactly when that sum is zero |
| Cluster.LastReportsAgree | src/cl_partition.c:151-218 | each claim of a last report is in the table or its node is due for refetch, two claimants never both keep a normal generation, and slots name listed nodes in one role each |
| Cluster.CloseFreesTheRest | src/cl_cluster.c:249-299 | after closing has emptied list and table, exactly the nodes still held are allocated, with exactly those holds |
| Cluster.OneTender | src/cl_cluster.c:1666-1678 | whatever threads attempt, at most one tends, and none starts after FREED |
| Cluster.GateOpens | src/cl_cluster.c:1666-1678 | a thread gets in exactly if nobody tends and the cluster is not freed, and freeing waits only for a tender |
| Tender.Tender.IsNodePresent | src/cl_partition.c:99-148 | answers whether the node is master somewhere; if not, it is struck from every prole slot and nothing else changes |
| Tender.Tender.TableUpdate | src/cl_partition.c:157-218 | for every partition of a namespace the slot, the claims and the generations become what the report says, creating the table if needed |
| Tender.ReportedNow | src/cl_partition.c:157-218 | what the loop over partitions did slot by slot is what the report says of the whole namespace |
| Tender.Tender.ParseReplicas | src/cl_cluster.c:1233-1303 | the claims of the node are the master flags of its report, its generation is the report's, it has in every reported slot exactly the role it claims, and the others' generations are forced exactly if they lost a role |
| Tender.Tender.PingNode | src/cl_cluster.c:1540-1604 | a report is taken over exactly when the reported generation differs; otherwise nothing moves |
| Tender.Tender.Check | src/cl_cluster.c:1711-1735 | a node leaves exactly if its counter is above 1 and it is master of nothing at this look, and then no slot names it; the counter is above 1 only after a failed look |
| Tender.Tender.TendOne | src/cl_cluster.c:1711-1735 | one turn of the node loop: the 32-bit index, stepped back over a deleted entry, goes on at the right node; a node that leaves is dropped, and one that stays is pinged and the report it sends under another generation taken over; otherwise claims, generations and masters stay |
| Tender.Tender.AddNodeStep | src/cl_cluster.c:1609-1640 | a new node joins the end of the list with its one reference and a generation that forces a fetch |
| Tender.Tender.TendNodes | src/cl_cluster.c:1711-1735 | the pass visits each listed node once, in order; it evicts exactly the nodes whose check in this pass and the one before failed; every node that stays and reported under a generation neither its own nor the forced one claims what it reported; every claim is backed by the table or due for a refetch |
| Tender.Tender.TendPasses | src/cl_cluster.c:1932-1955 | over any number of passes a node stays listed exactly as long as no two of its checks in a row failed, and it is checked in every pass but its first |
| Tender.Tender.Destroy | src/cl_cluster.c:249-299 | destroy empties list and table and leaves allocated exactly the nodes transactions hold |
| Tender.PassedStep | src/cl_cluster.c:1711-1735 | deleting the current entry and stepping back neither skips nor repeats a node |
| Reports.ParseReplicas | src/cl_cluster.c:1233-1303 | whatever the two texts of a reply say, the node ends with exactly the claims of the master text, as master of what that flags and prole of what only the other flags |
| Reports.PrintedFlags | src/cl_cluster.c:1161-1230 | a text printed from ownership vectors flags exactly what they do |
| Tender.ClaimsElsewhere | src/cl_cluster.c:1280-1303 | maps of other namespaces claim nothing in a namespace |
| AsyncPipeline.StepConserves | src/cl_async.c:117-318 | a step changes the number of holds on each item, socket, reference, callback duty and queue place by exactly what it acquires or gives up |
| AsyncPipeline.StepKeeps | src/cl_async.c:447-586 | every step of a sender, a receiver or shutdown keeps the pipeline invariant |
| AsyncPipeline.OneOwner | src/cl_async.c:117-318 | in every reachable state a work item, an open socket and a callback duty each have at most one owner |
| AsyncPipeline.SocketsAreOpen | src/cl_cluster.c:948-1004 | a socket kept anywhere is open and connected to the node it is kept for |
| AsyncPipeline.OpenSocketsAreHeld | src/cl_cluster.c:948-1004 | every open socket is held exactly once, so none leaks |
| AsyncPipeline.QueuedItemsAreNotSentinels | src/cl_async.c:135-141 | no queued work item has socket -1, so only the shutdown message stops a receiver |
| AsyncPipeline.ReferencesAreHeld | src/cl_async.c:457-534 | the pipeline's references on a node are exactly the requests that hold one |
| AsyncPipeline.QueueIsBounded | src/cl_async.c:352-358 | the queue never holds more than limit - 1 + senders + receivers work items |
| AsyncPipeline.NoSecondCallback | src/cl_async.c:224-284 | no submission is answered twice |
| AsyncPipeline.ExactlyOneCallback | src/cl_async.c:186-291 | a submission has been answered exactly if it is no longer queued or in a receiver's hands |
| AsyncPipeline.CallbacksTellTruth | src/cl_async.c:224-284 | in every run a success callback is made for a reply read on the open socket the request went out on, and a failure callback only when that socket is gone |
| AsyncPipeline.FailingClosedTheSocket | src/cl_async.c:224-243 | a receiver comes to fail an item only by closing that socket |
| AsyncPipeline.SocketFollowsAnswer | src/cl_async.c:286-291 | in every run the receiver that called back puts the socket of that submission into its node's pool after a success and no socket after a failure, before anything else |
| AsyncPipeline.ReceiversGoOn | src/cl_async.c:117-318 | in every reachable state each receiver that holds an item can take its next step, and its item exists |
| AsyncPipeline.SendersGoOn | src/cl_async.c:352-375 | a sender is admitted exactly below the limit, and takes the pooled item and connection |
| AsyncPipeline.PutCanSucceed | src/cl_async.c:447-586 | with a free sender and receiver and an empty queue a put can be sent and answered with success |
| RingQueue.OffsetCell | include/citrusleaf/cf_queue.h:53 | the remainder in the element macro is the right cell for any offset |
| RingQueue.Queue.constructor | src/cf_queue.c:52-102 | a new queue is empty with 64 cells |
| RingQueue.Queue.Grow | src/cf_queue.c:142-182 | resizing a full queue keeps the contents, fragmented or not |
| RingQueue.Queue.Unwrap | src/cf_queue.c:189-194 | unwrapping keeps position and size and brings the offsets below bit 30 |
| RingQueue.Queue.Push | src/cf_queue.c:201-232 | appends, growing by 64 exactly when full |
| RingQueue.Queue.PushLimit | src/cf_queue.c:238-269 | appends exactly if the size is below the limit |
| RingQueue.Queue.Pop | src/cf_queue.c:277-353 | takes the oldest element, or reports an empty queue |
| RingQueue.FirstInFirstOut | src/cf_queue.c:326-353 | over any operations, what came out followed by what is left is what was there followed by what was let in |
| RingQueue.Run | src/cf_queue.c:201-353 | any sequence of push, push_limit and pop on the ring answers like the sequence, through growth and unwrapping, with the write offset below 2^30 |
| RingQueue.Queue.DeleteOffset | src/cf_queue.c:357-394 | removes exactly the one logical element, keeping the order, in all four layouts, and says which offset moved |
| RingQueue.MoveUpDeletes | src/cf_queue.c:375-382 | moving the cells before the gap up and the head with them deletes that element |
| RingQueue.MoveDownDeletes | src/cf_queue.c:384-390 | moving the cells after the gap down and the tail with them deletes that element |
| RingQueue.Queue.Reduce | src/cf_queue.c:401-438 | calls back in order up to the first answer -1 or -2, and deletes that element exactly for -2 |
| RingQueue.Queue.Delete | src/cf_queue.c:445-478 | with only_one removes the first match or nothing; otherwise leaves exactly the sweep's result; reports whether there was a match |
| RingQueue.SkippingMisses | src/cf_queue.c:456-468 | a sweep that passes over the element after each removal leaves a match exactly if two were neighbours |
| RingQueue.SweepsAll | src/cf_queue.c:384-390 | deleting all matches leaves none exactly if everything before the array's end matched or no two matches were neighbours after it |
| RingQueue.SweepKeepsOthers | src/cf_queue.c:445-478 | deleting all matches removes nothing but matches and keeps the order |
| RingQueue.SweptIsRest | src/cf_queue.c:445-478 | when no match is left the result is the contents without the matches |
| RingQueue.EveryOtherStays | src/cf_queue.c:456-468 | where the sweep passes over elements, it leaves every second one of each run of matches |
| RingQueue.DeletesTheFirst | src/cf_queue.c:456-468 | with only_one exactly the first match goes |
| RingQueue.DeleteLeavesAMatch | src/cf_queue.c:384-390 | builds a wrapped queue by pushes and pops from which deleting all matches leaves one |
| RingQueue.PriorityQueue.Push | src/cf_queue.c:549-573 | appends to the queue of the priority, refusing unknown priorities |
| RingQueue.PriorityQueue.Pop | src/cf_queue.c:576-636 | takes the oldest element of the highest priority that has one |
| HashTable.Table.constructor | src/cf_shash.c:19-79 | a new table of any positive length is empty |
| HashTable.Table.Size | src/cf_shash.c:91-133 | the element counter is the size of the map |
| HashTable.Table.Put | src/cf_shash.c:136-183 | binds the key, overwriting in place or inserting after the head |
| HashTable.Table.PutUnique | src/cf_shash.c:188-237 | binds an absent key and refuses a present one unchanged |
| HashTable.Table.Get | src/cf_shash.c:242-281 | finds exactly the value the map has |
| HashTable.Table.Delete | src/cf_shash.c:344-409 | unbinds the key, reporting whether it was there |
| HashTable.Table.GetAndDelete | src/cf_shash.c:466-535 | returns the value and unbinds the key |
| HashTable.Table.Remove | src/cf_shash.c:365-397 | in each of the three layouts takes out one entry, frees exactly the address that drops out, and keeps the table well formed |
| HashTable.BucketUnlinks | src/cf_shash.c:370-392 | patching the predecessor, clearing a lone head, or copying the successor over the head removes exactly one entry and keeps the chain acyclic and linked |
| HashTable.BucketInserts | src/cf_shash.c:171-182 | inserting after the head adds one entry in second place |
| HashTable.BucketsChange | src/cf_shash.c:136-183 | a change confined to one bucket's own addresses leaves every other bucket as it was |
| HashTable.KeyIsHome | src/cf_shash.c:136-141 | a key hangs in the bucket of its hash or nowhere |
| HashTable.MapRemoves | src/cf_shash.c:344-409 | taking an entry out of its list removes exactly its key from the map |
| HashTable.Table.ReduceDelete | src/cf_shash.c:592-671 | calls back at most once per entry, leaves exactly the entries not answered with delete, visits all if every answer is keep or delete, and otherwise returns the answer that stopped it |
| HashTable.NotYetCalled | src/cf_shash.c:611-620 | the element the traversal is at is still bound and has not been called back for |
| HashTable.ProgressDeletes | src/cf_shash.c:623-652 | deleting the current entry, heads overwritten included, neither skips nor repeats an entry |
| HashTable.Table.Reduce | src/cf_shash.c:544-584 | visits every entry once until an answer is not zero, which it returns |
| LinkedList.List.Prepend | src/cf_ll.c:51-72 | inserts at the head |
| LinkedList.List.Append | src/cf_ll.c:84-103 | inserts at the tail |
| LinkedList.List.InsertAfter | src/cf_ll.c:116-130 | inserts right after the given element |
| LinkedList.List.InsertBefore | src/cf_ll.c:143-157 | inserts right before the given element |
| LinkedList.List.Delete | src/cf_ll.c:172-201 | takes the element out, wherever it is |
| LinkedList.InsertKeepsChain | src/cf_ll.c:116-157 | joining a new element to its neighbours keeps next and prev mirror images |
| LinkedList.DeleteKeepsChain | src/cf_ll.c:172-201 | closing the gap keeps next and prev mirror images |
| LinkedList.List.Reduce | src/cf_ll.c:218-250 | what the traversal leaves, whom it visits and what it returns, in either direction, for any answers |
| LinkedList.SweepExactly | src/cf_ll.c:218-250 | with only keep and delete answers every element is visited once in order and exactly the kept ones stay |
| LinkedList.SweepStopsAt | src/cf_ll.c:218-250 | any other answer ends the traversal there: what was passed is as told, the rest stays, and the answer is returned |
| LinkedList.List.InsertReduce | src/cf_ll.c:252-296 | inserts at the place of the first non-zero answer, at the far end, or not at all |
| LinkedList.PlaceExactly | src/cf_ll.c:252-296 | everything passed was answered with 0, and the answer at the place found decides |
| LinkedList.InsertKeepsSorted | src/cf_ll.c:252-296 | with an ordering callback a sorted list stays sorted, in both directions |
| LinkedList.SamePlaceFromBothEnds | src/cf_ll.c:252-296 | searching from head or tail finds the same place in a sorted list |
| ByteOrder.FromNetworkOf | src/citrusleaf.c:492-503 | reading back an integer in network order gives the integer |
| ByteOrder.NetworkOfFrom | src/citrusleaf.c:536-584 | every byte string is the network form of the integer it reads as |
| ByteOrder.HostSwapped | src/cf_proto.c:41-48 | swapping a host integer in place gives its network form |
| ByteOrder.Swap | src/cf_proto.c:52-75 | reverses the bytes of one integer and touches nothing else |
| WireCodec.ProtoSwap | src/cf_proto.c:16-25 | the 64-bit swap with version and type cleared reverses exactly the six size bytes |
| WireCodec.ProtoSwapTwice | src/cf_proto.c:16-25 | swapping the protocol header twice changes nothing |
| WireCodec.WriteProto | src/citrusleaf.c:326-330 | the size goes out as a 48-bit big-endian integer after version and type |
| WireCodec.WriteHeader | src/citrusleaf.c:322-345 | the thirty header bytes, every integer in network order |
| WireCodec.HeaderRead | include/citrusleaf/proto.h:110-170 | everything a header carries is read back |
| WireCodec.RulesAreTold | src/citrusleaf.c:765-782 | of several write flags the first decides; each rule sets its own bit, so equal bits mean equal rules; the generation goes out exactly under a generation rule |
| WireCodec.WriteField | src/citrusleaf.c:363-371 | a field's size, type and data, and the step to the next field by its size |
| WireCodec.WriteFields | src/citrusleaf.c:356-457 | all fields in their order, or failure on a key type that cannot be sent |
| WireCodec.WriteOp | src/citrusleaf.c:615-704 | one operation with sizes, codes, name and value, and the step to the next |
| WireCodec.SizeOps | src/citrusleaf.c:731-747 | the size of the operations, or failure on a type that is not carried |
| WireCodec.SizeAccounting | src/citrusleaf.c:722-747 | the layout fills the computed size but for one byte for a digest and one for scan options |
| WireCodec.Compile | src/citrusleaf.c:712-815 | the buffer, given or allocated, holds the encoded request and then zeros up to the computed size; it fails exactly on types that cannot be sent |
| ServerView.ServerReads | include/citrusleaf/proto.h:213-340 | a server that reads the bytes of a request by the numbers and positions of the protocol finds version, sizes, flags, generation and times in their places, each field once under its type, and for each operation its operator number, type number, name and value |
| ServerView.OpsSeen | include/citrusleaf/proto.h:394-397 | stepping over the declared sizes lands on every operation |
| ServerView.CompilesExactly | src/citrusleaf.c:403-431 | what can be sent: values of all known types, and keys that are integers, strings or blobs |
| WireCodec.FieldsRead | include/citrusleaf/proto.h:359-363 | stepping by the declared sizes lands on each next field, whatever follows the fields |
| WireCodec.OpsRead | include/citrusleaf/proto.h:394-397 | stepping by the declared sizes lands on each next operation, and each fills its bin |
| WireCodec.Parse | src/citrusleaf.c:1020-1132 | parsing in the buffer gives what the body says and leaves every size swapped that it reached |
| WireCodec.RoundTrip | src/citrusleaf.c:712-815 | decoding an encoded request gives its header, set, transaction id and bins in order |
| WireCodec.BinsArrive | src/citrusleaf.c:920-1007 | each bin arrives with name, type and value as sent, unless it is a memcache increment |
| WireCodec.WireIntOf | src/citrusleaf.c:492-503 | a signed 64-bit integer is read back |
| WireCodec.WireIntExact | src/citrusleaf.c:536-584 | integers of up to 8 bytes are read right exactly if non-negative or full width |
| Base64.RoundTrip | src/php_cl_utils.c:135-291 | both decoders undo the encoder on every non-empty input |
| Base64.UnpackedEncoded | src/cl_cluster.c:1127-1141 | decoding without taking padding off gives the bytes rounded up with zeros |
| Base64.EncodedShape | src/php_cl_utils.c:135-170 | a code is symbols followed by one padding character for each missing byte |
| Base64.SymbolsAreTheAlphabet | src/php_cl_utils.c:22-28 | the symbols are those of RFC 4648, in its order |
| Base64.SixBitsEach | src/php_cl_utils.c:135-170 | the four values of a group are its 24 bits, six by six from the top |
| Base64.Encode | src/php_cl_utils.c:135-170 | writes exactly the code and its length |
| Base64.MaxLength | src/php_cl_utils.c:122-128 | is the length of every code of inputs of that length plus a terminator |
| Base64.Unpack | src/cl_cluster.c:1127-1141 | writes the bytes of every group |
| Base64.Decode | src/php_cl_utils.c:261-291 | writes the decoded bytes, or refuses what the validator refuses |
| Base64.DecodeInPlace | src/php_cl_utils.c:215-257 | the same on one buffer, which is overwritten behind what is read |
| Base64.DecodersAgree | src/php_cl_utils.c:215-291 | the decoders agree exactly unless the last but one character alone is padding |
| Base64.DecodersDiffer | src/php_cl_utils.c:215-291 | an accepted text on which they differ |
| Base64.Validate | src/php_cl_utils.c:86-118 | decides what the validator's tests say of the text, and for an empty text of the two bytes after it |
| Base64.AcceptedExactly | src/php_cl_utils.c:86-118 | it accepts exactly lengths divisible by four with symbols everywhere but the last two places |
| Base64.CodesAreAccepted | src/php_cl_utils.c:86-118 | every code of a non-empty input is accepted |
| Replicas.BitmapBit | src/cl_cluster.c:1153-1158 | bit i of a bitmap, counted from the top of byte i / 8, is flag i |
| Replicas.BitFromTop | src/cl_cluster.c:1153-1158 | bits of a byte are counted from the top |
| Replicas.BitsRead | src/cl_cluster.c:1143-1159 | decoding an encoded bitmap and reading its bits gives the flags, all within bounds |
| Replicas.LongEnough | src/cl_cluster.c:1210-1218 | an encoded bitmap of the expected length covers all partitions |
| Replicas.RoundTrip | src/cl_cluster.c:1161-1230 | printing any distinct, well-named ownership vectors and parsing the text gives exactly them |
| Replicas.RoundTripAfter | src/cl_cluster.c:1161-1230 | the same on top of vectors already there |
| Replicas.ParsedExactly | src/cl_cluster.c:1161-1230 | on any row of entries a partition ends up flagged exactly if it was or an entry with a name of 1 to 31 characters and a code of the right length flags it; white space, wrong entries and repeated names make no difference |
| Replicas.ParsedAlways | src/cl_cluster.c:1161-1230 | every text is such a row, so this says what the parser makes of every text |
| Replicas.SetOwned | src/cl_cluster.c:1143-1159 | sets in place the flags whose bits are set and clears none |
| Replicas.GetMap | src/cl_cluster.c:1064-1092 | finds the namespace's map or adds one with no flag set |
| Replicas.Trim | src/cl_cluster.c:1033-1057 | cuts leading and trailing white space in place |
| Replicas.ParseMap | src/cl_cluster.c:1161-1230 | reading any text in place gives the vectors it describes and overwrites nothing but its own bytes with terminators |
| Batch.Tally | src/cl_batch.c:629-648 | lists every node once with the number of its digests, in arrays of 32 |
| Batch.CountsSumUp | src/cl_batch.c:629-648 | the counts sum to the number of digests |
| Batch.MineInOrder | src/cl_batch.c:110-115 | a node's digest array keeps the order of the input and holds only that node's digests |
| Batch.GatheredIsPermutation | src/cl_batch.c:110-115 | together the arrays are a permutation of the digests |
| Batch.JoinedLength | src/cl_batch.c:107-115 | the bytes copied for a node are twenty for each digest counted |
| Batch.WriteDigestArray | src/cl_batch.c:106-121 | the size declared from the count is the size of what is copied, and the next field starts right after it |
| Batch.WriteFields | src/cl_batch.c:88-122 | the fields of one request |
| Batch.ServerReadsFields | src/cl_batch.c:88-122 | the server finds the namespace under its type and the node's digests, twenty bytes each and in order, under that of digest arrays |
| Batch.TakeAndDrop | src/cl_batch.c:610-698 | takes a reference for every digest and drops them all, or fails at the first digest without a node keeping what it took |
| Batch.ReferencesBalance | src/cl_batch.c:613-626 | references balance exactly if every digest gets a node or the first does not |
| Cluster.AnswerThenNone | src/cl_cluster.c:703-770 | a run in which a lookup finds a node and, after its eviction, no lookup finds any |
| Batch.EvictionLeaks | src/cl_batch.c:613-626 | in such a run a call on two digests fails and keeps a reference it never drops |
| Batch.StepKeeps | src/cl_batch.c:560-582 | every step of caller and workers keeps the dispatch invariant |
| Batch.DroppedOnlyAfterAll | src/cl_batch.c:672-701 | in every run a reference is dropped only after every request was dispatched, finished and collected |
| Batch.ReturnsTheFailure | src/cl_batch.c:679-701 | the call returns 0 exactly if every worker reported 0, and otherwise a code some worker reported |
| Batch.NeverStuck | src/cl_batch.c:672-701 | until the last reference is dropped some thread can go on |
| Batch.CallsEnd | src/cl_batch.c:560-701 | every call ends after the same number of steps, four a request, two of the caller and one a reference, in whatever order they come |

## Left out

- Sockets, epoll, DNS and info requests: each is a nondeterministic outcome of a step.
- The PHP binding, examples, statistics, logging, `cf_vector`, `cf_average`, `cf_hist`.
- Compression, RIPEMD-160 and time: digests are values given to the model; deadlines are nondeterministic.
- The shared-memory updater of `src/cl_shm.c`.
- Allocation failure, and the locks of hash table, list and queue; blocking waits of `pop`.
- The one-socket-per-node build of the asynchronous client, and reinitialising its thread count.
- IndexProtocol.PutIndex: the building of the index key and its length tests at `src/php_cl_query.c:665-699` are not modelled.
- AsyncPipeline.OneOwner: an item on the sender's failure exit (`src/cl_async.c:537-559`) is dropped, as in the code, so items have at most one owner rather than exactly one; the threads are steps of a state machine, not loops, because their interleaving is the point.
- RingQueue.Queue.Push: growth past 2^29 elements is not modelled; up to there no offset reaches bit 31.
- RingQueue.Queue.Pop: the modes that wait for an element, for ever or for a time, are not modelled; likewise RingQueue.PriorityQueue.Pop.
- RingQueue.Queue.DeleteOffset: elements are values, not strings of `elementsz` bytes.
- HashTable.Table.Size: the counting walk of the many-lock mode is not modelled; nor are callbacks that change values in place.
- HashTable.Table.Delete: the code repeats the search and unlinking in four functions; the model shares them, and memory is a map from addresses to elements rather than Dafny objects so that freeing is visible.
- LinkedList.List.Delete: destructors are not called, here and in `LinkedList.List.Reduce`.
- LinkedList.List.Reduce: callbacks are functions of the element's value.
- WireCodec.Parse: bodies whose declared sizes run past their end, which the code does not detect, are excluded; matching into a value array the caller already filled (`set_value_search`) is not modelled.
- WireCodec.WriteFields: the digest that is computed from a key and returned is not modelled.
- WireCodec.WriteOp: unknown operators, whose error the code ignores, are excluded.
- WireCodec.Compile: unknown operators, the digest computed from a key, and the variant for arrays of digests in `src/citrusleaf.c:459-490` are not modelled.
- Base64.Decode: lengths that are not multiples of four without validation, which read past the text, and empty texts, for which the byte before the buffer is read, are excluded; likewise Base64.DecodeInPlace.
- Reports.ParseReplicas: the splitting of the reply into lines and pairs and the reading of the generation number (`src/cl_cluster.c:1241-1276`) are not modelled: the generation is given, and the two values are given as places in the buffer; all pairs are made before the first table update.
- Tender.Tender.PingNode: the services of the reply, the counting of unreachable nodes and the shared-memory path are not modelled.
- Batch.Tally: more than 32 distinct nodes, for which the code has no room, are excluded.
- Batch.WriteFields: header, operations and the reading of responses of a batch request are not modelled.
- Tender.Tender.TendNodes: node names, addresses and the discovery of new nodes are reduced to adding a node.
