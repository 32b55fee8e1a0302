# Open MPI: verified models of its hardest protocols and data structures

This project models parts of Open MPI in Dafny and proves what they promise.

- **Context ids** (`CidLocal`, `CidProtocol`, `CidExactness`, `CidTermination`, `CidHandlers`). Processes agree on
  the id of a new communicator by alternating MAX and MIN allreduces over locally reserved ids. The
  model is a state machine over all interleavings of the handlers of any number of processes and
  concurrent allocations. The handlers themselves are methods on the table and the context,
  proved equal to the machine's local steps.
- **Tree allreduce** (`TreeAllreduce`, `TreeRounds`). The group reduction that carries the ids, as a state
  machine in which a message holds what is in the sender's buffer when it arrives, and consecutive
  reductions over queues of messages that do not say which reduction they belong to.
- **TCP stream** (`TcpWire` to `TcpConnection`). Fragments become headers and iovecs, are written and
  read in arbitrary pieces, and are put together again through a receive cache.
- **Datatype constructors** (`Typemap`, `Merging`, `StructMerging`, `VectorBounds`, `BlockBounds`,
  `TypeConstructors`, `Subarray`, `Darray`, `DarrayPartition`, `DarrayTypes`). Type maps as lists of basic
  types and byte displacements, with bounds and padding against the places of the elements;
  `GridIndex`, `Distribution` and `Scatter` hold the index arithmetic.
- **Packed datatype descriptions** (`PackMemory` to `PackStore`). The recursive encoder and decoder
  on byte buffers, and the size computed ahead of them.
- **Sequence tracker** (`SeqTracker`), **interface matching** (`Matching`), **attributes** (`Attributes`),
  **communicator split** (`CommSplit`) and **communicator requests** (`CommRequest`).

Ten properties one might expect do not hold of the code as it stands. For each there is an input
that shows it and a proof of the exact condition under which it does hold:

- A process outside the new group commits an id of its own. If no id is free it overwrites the slot
  at the limit; the commit is harmless exactly when an id from its start on, or the limit itself,
  is free (`CidLocal.CheckFlagIsCareful`).
- The TCP transport counts transferred bytes in an int and compares the count with an iovec's length
  cast to int. A fragment with an iovec of 2 GiB or more can be taken for complete while most of it
  is unsent (`TcpSender.TwoGigabytePut`); positions are right for every series of short writes and
  reads exactly when every iovec is shorter (`TcpCount.OnTrackIffBelow`).
- The payload of a SEND is received behind a fragment of fixed size, and its length is not compared
  with that size: the iovec lies inside exactly when the payload is no longer
  (`TcpReceiver.PayloadInsideIff`).
- The destinations of a PUT are not converted between byte orders; they read back exactly between
  hosts of one order, or when their bytes are symmetric (`TcpWire.SegmentsRoundTrip`,
  `TcpWire.OneByteIsMisread`). The theorems about connections are for messages that meet these three
  conditions, which a caller can check.
- A row stride of exactly -1 byte is read as "use the default extent" by opal_datatype_add, so
  hvector and vector meet the standard exactly when that does not happen
  (`TypeConstructors.CreateHvector`, `TypeConstructors.CreateVector`).
- A subarray in three or more dimensions can meet the same stride when the element type has extent
  -1 and gains padding when it is copied (`Subarray.Create`).
- A row of a vector is padded before the rows are copied, so the whole can be padded twice; the upper
  bound is the greatest one rounded up once exactly when a test on two remainders succeeds
  (`VectorBounds.RowsFramed`, `VectorBounds.PaddedTwiceOver`).
- In Fortran order an undistributed dimension is given to every process of that dimension, so
  distributed arrays are partitioned exactly when no such dimension has several processes
  (`DarrayPartition.Partition`).
- Merging adjacent blocks never changes a type map, but padding of a backwards type can be lost
  (`TypeConstructors.MergedWithoutPadding`). hindexed and hindexed_block make the type of the blocks one
  by one exactly for types that are not backwards or never padded (`Merging.HindexedIffPlain`), indexed
  and indexed_block also when the alignment divides the extent (`Merging.IndexedIffEven`), and struct
  exactly when no two of its types clash (`StructMerging.StructIffGentle`).
- A keyval can be freed again while objects carry it, which breaks the reference count exactly then
  (`Attributes.Engine.FreeKeyval`).

A PUT that carries no data is delivered only when later bytes arrive (`TcpConnection.EmptyPut`);
`TcpConnection.Connection.DeliversAll` says precisely which messages a drained connection has delivered,
and `TcpConnection.Connection.Settle` that enough turns drain it.

Conventions: integers are unbounded unless a width matters, and then the wrap-around is written out
(the 32-bit size field of the TCP header, the int counts of its transfers, the 32-bit `+1` and `-1`
of the tracker, two's complement words in packed descriptions). writev and readv report as much as the
parameters give them room or bytes for, and no more than an int holds. Buffers are sequence values
that methods reassign. The network, user callbacks, completion of subrequests and uninitialised
memory are parameters or arbitrary choices.
`dafny verify dfyconfig.toml` checks the whole project.

## Model

| member | source | states |
|---|---|---|
| `CidLocal.FirstFree` | ompi/communicator/comm_cid.c:323-333 | the id found is free and every id between the start of the search and it is taken; if there is none, all ids up to the limit are taken |
| `CidLocal.GetNextIsCareful` | ompi/communicator/comm_cid.c:300-364 | proposing an id takes at most one slot, a free one, and touches no other |
| `CidLocal.CheckCidIsCareful` | ompi/communicator/comm_cid.c:366-403 | swapping the proposal for the candidate clears the old slot, takes only a free slot, and touches no other |
| `CidLocal.CheckFlagIsCareful` | ompi/communicator/comm_cid.c:405-457 | committing or retrying leaves every other communicator's slot alone if and only if, for a process outside the new group, some id from its start up to the limit, or the limit itself, is free |
| `CidLocal.CommitsLeast` | ompi/communicator/comm_cid.c:405-436 | a member commits the candidate, and a process outside the new group the least free id from its start on, or the limit when all below are taken |
| `CidLocal.FullTableIsOverwritten` | ompi/communicator/comm_cid.c:414-427 | an input on which that commit overwrites another communicator's slot |
| `CidLocal.ReleaseIsCareful` | ompi/communicator/comm_init.c:453-459 | freeing a communicator gives back its slot and no other |
| `CidProtocol.NextKeepsInv` | ompi/communicator/comm_cid.c:300-457 | every handler of any process and allocation keeps the invariant: votes in step, contexts synchronised, occupied slots marked, no slot with two occupants, no leaked reservation |
| `CidProtocol.RunKeepsInv` | ompi/communicator/comm_cid.c:300-457 | the invariant holds in every state of every interleaved run |
| `CidProtocol.SameRound` | ompi/communicator/comm_cid.c:414-456 | when one member has committed, all members are at the same allreduce and none of them has retried |
| `CidProtocol.Agreement` | ompi/communicator/comm_cid.c:300-457 | in every reachable state of any number of concurrent allocations, once one participant has committed an id every participant has the same id and holds that slot until it frees it |
| `CidProtocol.SlotOwnership` | ompi/communicator/comm_cid.c:300-457 | in every reachable state a non-foreign slot has an owner, only one, stores its mark, and no allocation owns two slots of a process |
| `CidProtocol.CommittedIdsDiffer` | ompi/communicator/comm_cid.c:300-457 | two communicators alive on one process never have the same id |
| `CidExactness.RoundsIncrease` | ompi/communicator/comm_cid.c:377-456 | the candidates of successive rounds of an allocation strictly increase, whatever other allocations do |
| `CidTermination.Exactness` | ompi/communicator/comm_cid.c:323-456 | with the other table entries fixed, whatever a participant commits is the least id free on all participants at or above all their starts |
| `CidTermination.Progress` | ompi/communicator/comm_cid.c:300-457 | as long as a member is not done some handler of the allocation can run |
| `CidTermination.Termination` | ompi/communicator/comm_cid.c:300-457 | no such run is longer than members * (3 * target + 7) handlers, and a run that cannot continue has committed the target on every participant |
| `CidHandlers.CommunicatorTable.TestAndSet` | opal/class/opal_pointer_array.c:340-398 | takes a slot exactly when it is free |
| `CidHandlers.CidContext.Nextcid` | ompi/communicator/comm_cid.c:249-279 | a new allocation is the local transition Begin |
| `CidHandlers.CidContext.ReserveFirstFree` | ompi/communicator/comm_cid.c:323-333 | the test-and-set loop reserves the first free id, or nothing |
| `CidHandlers.CidContext.AllreduceGetnextcid` | ompi/communicator/comm_cid.c:300-364 | the handler in place is the local transition GetNext of the protocol |
| `CidHandlers.CidContext.Checkcid` | ompi/communicator/comm_cid.c:366-403 | the handler in place is the local transition CheckCid |
| `CidHandlers.CidContext.NextcidCheckFlag` | ompi/communicator/comm_cid.c:405-457 | the handler in place is the local transition CheckFlag |
| `CidHandlers.CidContext.Destruct` | ompi/communicator/comm_init.c:453-459 | the destructor in place is the local transition Release |
| `TreeAllreduce.ChildrenReduced` | ompi/communicator/comm_cid.c:1047-1059 | after both children are folded in, the buffer holds the reduction over the whole subtree |
| `TreeAllreduce.ArrivalInv` | ompi/communicator/comm_cid.c:1061-1078 | a value sent up is read before the result is received into the same buffer |
| `TreeAllreduce.StepInv` | ompi/communicator/comm_cid.c:1025-1146 | every arrival and every callback keeps the invariant of the protocol |
| `TreeAllreduce.Correct` | ompi/communicator/comm_cid.c:1025-1146 | in every run, a member that is done holds the elementwise MAX or MIN of all inputs, for every group size |
| `TreeAllreduce.SameResult` | ompi/communicator/comm_cid.c:1025-1146 | all members that are done hold the same vector |
| `TreeAllreduce.Complete` | ompi/communicator/comm_cid.c:1025-1146 | a run takes at most 4n-3 steps, and one that cannot go on has all members done and one message up and one down on each edge |
| `TreeRounds.MoveSteady` | ompi/communicator/comm_cid.c:1025-1146 | when one reduction follows the other on the same tag, every start, receive and callback keeps the invariant: what is on the way belongs to the reduction its receiver is in and carries that subtree's value or that result |
| `TreeRounds.EachCorrect` | ompi/communicator/comm_cid.c:1025-1146 | in every run of any number of consecutive reductions of any operations, every member's k-th result is the elementwise MAX or MIN of all members' k-th inputs |
| `TreeRounds.NeverMixed` | ompi/communicator/comm_cid.c:1025-1146 | in every run at most one message is on the way between a member and its parent, and whoever receives it is in the reduction it was sent in |
| `TreeRounds.NeverStuck` | ompi/communicator/comm_cid.c:1025-1146 | once all members have started the k-th reduction, a run that cannot go on has given all of them its result |
| `TreeRounds.RunsEnd` | ompi/communicator/comm_cid.c:1025-1146 | no run takes more than four moves for each input given |
| `TcpWire.HeaderRoundTrip` | contrib/build-mca-comps-outside-of-tree/btl_tcp2_hdr.h:38-56 | a header written by one end is read back by the other, with or without network byte order |
| `TcpWire.HeaderBytes` | contrib/build-mca-comps-outside-of-tree/btl_tcp2_hdr.h:38-56 | byte by byte what is on the stream: tag, type, two bytes of count and four of size, the most significant first when headers travel in network order or the sender is big-endian, and the least significant first otherwise |
| `TcpWire.ReadHeaderBytes` | contrib/build-mca-comps-outside-of-tree/btl_tcp2_hdr.h:38-56 | every eight bytes are read as the header that has these bytes in the order the receiver assumes |
| `TcpWire.FiveBytesHeader` | contrib/build-mca-comps-outside-of-tree/btl_tcp2_hdr.h:38-56 | a SEND of five bytes with tag 9 begins 09 01 00 00 00 00 00 05 |
| `TcpWire.SegmentImageAt` | contrib/build-mca-comps-outside-of-tree/btl_tcp2.c:424-425 | entry i of a destination list holds the address in bytes 16 i to 16 i + 7 and the length in the next eight, in the sender's order |
| `TcpWire.ReadSegmentAt` | contrib/build-mca-comps-outside-of-tree/btl_tcp2_frag.c:263-275 | and is read from there in the receiver's order |
| `Bytes.ImageDigits` | contrib/build-mca-comps-outside-of-tree/btl_tcp2_hdr.h:44-56 | byte i of an integer in memory is the digit of 256 to the i, or to the width less i and 1 on a big-endian machine |
| `TcpWire.SegmentsRoundTrip` | contrib/build-mca-comps-outside-of-tree/btl_tcp2_frag.c:263-275 | a segment list, which is never converted, is read back as it was written if and only if the hosts have one byte order or its numbers have symmetric bytes |
| `TcpWire.OneByteIsMisread` | contrib/build-mca-comps-outside-of-tree/btl_tcp2_frag.c:263-275 | an input on which it is not: one byte, between hosts of different byte orders |
| `TcpSender.PrepareSend` | contrib/build-mca-comps-outside-of-tree/btl_tcp2.c:367-396 | a SEND becomes a header with the 32-bit total size, and the bytes of its segments |
| `TcpSender.PreparePut` | contrib/build-mca-comps-outside-of-tree/btl_tcp2.c:407-437 | a PUT becomes a header, the destination list, and the bytes of its segments |
| `TcpSender.SendIsWire` | contrib/build-mca-comps-outside-of-tree/btl_tcp2.c:367-396 | what is queued for a well-formed SEND is its image on the stream |
| `TcpSender.PutIsWire` | contrib/build-mca-comps-outside-of-tree/btl_tcp2.c:407-437 | what is queued for a well-formed PUT is its image on the stream |
| `TcpCount.OnTrackIffBelow` | contrib/build-mca-comps-outside-of-tree/btl_tcp2_frag.c:131-240 | the int count leads to the position behind the transferred bytes, for every series of counts writev or readv may report, if and only if every pending iovec is shorter than 2 GiB |
| `TcpSender.AdvanceTakes` | contrib/build-mca-comps-outside-of-tree/btl_tcp2_frag.c:131-146 | at that position exactly the transferred bytes have been taken off what remains |
| `TcpSender.MovePast` | contrib/build-mca-comps-outside-of-tree/btl_tcp2_frag.c:131-146 | the loop with its casts moves the fragment to the position the 32-bit count leads to |
| `TcpSender.TwoGigabytePut` | contrib/build-mca-comps-outside-of-tree/btl_tcp2_frag.c:131-146 | an input on which the count goes wrong: the fragment built for one destination and one segment of 2 GiB counts as complete when its header, the destination and one byte are written |
| `TcpSender.FragSend` | contrib/build-mca-comps-outside-of-tree/btl_tcp2_frag.c:101-147 | for every room the socket has: it writes as much of what remains as there is room for, up to what an int holds; with no iovec of 2 GiB or more, what was written and what remains is what there was, and it reports completion exactly when nothing remains; in general the position is the one the 32-bit count leads to |
| `TcpSender.Sender.EndpointSend` | contrib/build-mca-comps-outside-of-tree/btl_tcp2_endpoint.c:266-304 | refused exactly on a failed endpoint; it answers 1 exactly when the endpoint is connected, nothing waits, the fragment has priority and the socket took all of it; what is written at once is as much as there is room for, nothing is written otherwise, and the rest goes behind all earlier bytes; only a closed endpoint changes its state, to connecting |
| `TcpSender.Sender.EndpointConnected` | contrib/build-mca-comps-outside-of-tree/btl_tcp2_endpoint.c:439-459 | connecting loses and reorders nothing of the backlog |
| `TcpSender.Sender.SendCurrent` | contrib/build-mca-comps-outside-of-tree/btl_tcp2_endpoint.c:793-825 | one turn of the send handler writes as much of the current fragment as there is room for; it ends the loop exactly when that is not all, and the fragment then stays current, and else takes up the next one |
| `TcpReceiver.CopyFromCache` | contrib/build-mca-comps-outside-of-tree/btl_tcp2_frag.c:158-182 | serving iovecs from the cache scatters its bytes as a read would, lends a payload exactly if that is allowed and it is whole, and rewinds an emptied cache |
| `TcpReceiver.AdvancePosition` | contrib/build-mca-comps-outside-of-tree/btl_tcp2_frag.c:222-240 | the position is the one the 32-bit count leads to; with no iovec of 2 GiB or more it passes exactly the bytes that arrived, and what is left over is in the cache |
| `TcpReceiver.FetchFromCache` | contrib/build-mca-comps-outside-of-tree/btl_tcp2_frag.c:157-183 | cached bytes go to the pending iovecs in order, the rest stays cached |
| `TcpReceiver.ReadvInto` | contrib/build-mca-comps-outside-of-tree/btl_tcp2_frag.c:184-200 | a read that runs past the iovecs leaves the excess in the cache |
| `TcpReceiver.Announce` | contrib/build-mca-comps-outside-of-tree/btl_tcp2_frag.c:242-283 | complete buffers announce exactly the next buffers of the same message, each iovec inside the memory it is for, or the message is complete |
| `TcpReceiver.PayloadInsideIff` | contrib/build-mca-comps-outside-of-tree/btl_tcp2_frag.c:246-251 | the iovec announced for a payload lies inside the receive fragment if and only if the payload is no longer than what lies behind it, which the receiver does not check |
| `TcpReceiver.FragRecv` | contrib/build-mca-comps-outside-of-tree/btl_tcp2_frag.c:149-285 | for every chunking of the input: complete exactly with the whole message; pending iovecs always lie inside their buffers; it gives up only with an empty cache whose position is back at its start |
| `TcpReceiver.NothingComes` | contrib/build-mca-comps-outside-of-tree/btl_tcp2_frag.c:149-285 | once all bytes are read, at most one message is undelivered, and only if it is a PUT without data |
| `TcpReceiver.Drain` | contrib/build-mca-comps-outside-of-tree/btl_tcp2_endpoint.c:713-767 | the receive loop delivers messages in order, once each, until the cache is empty |
| `TcpReceiver.Receiver.RecvHandler` | contrib/build-mca-comps-outside-of-tree/btl_tcp2_endpoint.c:685-785 | after every call the cache is empty and the undelivered messages are exactly what the stream still holds; bytes are read whenever the network offers any |
| `TcpConnection.Connection.Submit` | contrib/build-mca-comps-outside-of-tree/btl_tcp2_endpoint.c:266-304 | an accepted message joins the end of the stream, with the endpoint's answer, state and bytes written; conservation of bytes is kept |
| `TcpConnection.Connection.WriteEvent` | contrib/build-mca-comps-outside-of-tree/btl_tcp2_endpoint.c:793-825 | a writable event moves bytes from the backlog to the stream, some if there is room, and keeps conservation |
| `TcpConnection.Connection.ReadEvent` | contrib/build-mca-comps-outside-of-tree/btl_tcp2_endpoint.c:685-785 | a readable event extends what is delivered, takes bytes off the stream if it has any, and keeps conservation |
| `TcpConnection.Connection.DeliversPrefix` | contrib/build-mca-comps-outside-of-tree/btl_tcp2_frag.c:149-285 | what is delivered is always a prefix of what was accepted |
| `TcpConnection.Connection.DeliversAll` | contrib/build-mca-comps-outside-of-tree/btl_tcp2_frag.c:101-285 | once everything is written and read, all accepted messages are delivered, except a last PUT without data |
| `TcpConnection.Connection.Settle` | contrib/build-mca-comps-outside-of-tree/btl_tcp2_frag.c:101-285 | a connected endpoint that gets as many turns with room and with bytes as there are bytes on the way delivers everything accepted, except a last PUT without data |
| `TcpConnection.Connection.LastStalls` | contrib/build-mca-comps-outside-of-tree/btl_tcp2_frag.c:242-283 | a PUT without data is never delivered while it is the last message accepted |
| `TcpConnection.EmptyPut` | contrib/build-mca-comps-outside-of-tree/btl_tcp2_frag.c:149-283 | such an input: one PUT of no bytes is not delivered however often the socket is writable and readable |
| `TcpConnection.Connection.Run` | contrib/build-mca-comps-outside-of-tree/btl_tcp2_frag.c:101-285 | after every sequence of sends, puts, connects, short writes, short reads and would-blocks the messages accepted are exactly those asked for while the endpoint had not failed, in order, and both of the above hold; for SENDs that fit behind a receive fragment, PUTs whose destinations read back, and no segment, payload or destination of 2 GiB or more |
| `TypeConstructors.CreateContiguous` | ompi/datatype/ompi_datatype_create_contiguous.c:27-40 | the type map is `count` copies one extent apart; without copies or data it is the null type, and otherwise the bounds are those of a single row as in `VectorBounds`: the least and the greatest of all elements, the greatest rounded up to the alignment unless a single element lies the wrong way round |
| `TypeConstructors.ContiguousRows` | ompi/datatype/ompi_datatype_create_vector.c:71-73 | the contiguous shortcut gives the rows of the definition |
| `TypeConstructors.StridedRows` | ompi/datatype/ompi_datatype_create_vector.c:74-83 | the general branch gives the rows of the definition exactly when a stride of -1 byte is not taken for the default extent |
| `TypeConstructors.MinusOneByteIsMisread` | ompi/datatype/ompi_datatype_create_vector.c:74-77 | an input on which the stride is misread: two integers one byte apart |
| `TypeConstructors.CreateHvector` | ompi/datatype/ompi_datatype_create_vector.c:60-87 | the type map is that of section 4.1.2 of MPI-3.1 if and only if the stride is not misread: -1 byte, at least two rows, and a row whose extent is not -1; the lower bound is the least of `k * stride + j * extent + lb` over all rows and elements, the upper one the greatest of `k * stride + j * extent + ub` rounded up to the alignment, and a whole alignment more exactly when the padding of a row adds to that of the whole |
| `TypeConstructors.CreateVector` | ompi/datatype/ompi_datatype_create_vector.c:31-57 | the same for strides in elements |
| `VectorBounds.ContiguousFramed` | ompi/datatype/ompi_datatype_create_vector.c:36-47 | contiguous rows have exactly the bounds of their elements, rounded up; only a single element that lies the wrong way round gets a whole alignment more |
| `VectorBounds.RowsFramed` | ompi/datatype/ompi_datatype_create_vector.c:74-83 | rows that are padded before they are copied: the upper bound is rounded up once, or goes exactly one alignment further, by a test on the remainders of the span of a row and of the distance of the rows |
| `VectorBounds.FrameIsUnique` | ompi/datatype/ompi_datatype_create_vector.c:31-87 | the places of the elements determine both bounds |
| `VectorBounds.FrameIsLevel` | ompi/datatype/ompi_datatype_create_vector.c:31-87 | without a marker the extent is always a multiple of the alignment |
| `VectorBounds.PaddedTwiceOver` | ompi/datatype/ompi_datatype_create_vector.c:74-83 | an input on which a vector is padded twice: it ends at 20, where one rounding gives 16 |
| `TypeConstructors.CreateIndexed` | ompi/datatype/ompi_datatype_create_indexed.c:34-72 | skipping empty blocks and merging adjacent ones leaves the type map of the blocks one by one; the type made is the merged one of `Merging` |
| `TypeConstructors.CreateHindexed` | ompi/datatype/ompi_datatype_create_indexed.c:75-113 | the same for byte displacements |
| `TypeConstructors.CreateIndexedBlock` | ompi/datatype/ompi_datatype_create_indexed.c:116-147 | the same for blocks of one length |
| `TypeConstructors.CreateHindexedBlock` | ompi/datatype/ompi_datatype_create_indexed.c:150-182 | the same for blocks of one length at byte displacements |
| `TypeConstructors.MergedWithoutPadding` | ompi/datatype/ompi_datatype_create_indexed.c:75-113 | an input on which hindexed returns another upper bound than the blocks one by one have: two integers resized to be one byte long, backwards |
| `Merging.MergedEntries` | ompi/datatype/ompi_datatype_create_indexed.c:34-182 | merging never changes the type map |
| `Merging.MergedIsSeparate` | ompi/datatype/ompi_datatype_create_indexed.c:34-182 | bounds, padding and flags of the merged type are those of the blocks one by one, for all blocks of a plain type, and at multiples of an extent that the alignment divides |
| `Merging.HindexedIffPlain` | ompi/datatype/ompi_datatype_create_indexed.c:75-113 | hindexed makes the type of the blocks one by one, for all blocks, if and only if the type is not backwards, is never padded, or has no data |
| `Merging.HindexedBlockIffPlain` | ompi/datatype/ompi_datatype_create_indexed.c:150-182 | hindexed_block does, for all blocks, if and only if the type is not backwards or is never padded |
| `Merging.IndexedIffEven` | ompi/datatype/ompi_datatype_create_indexed.c:34-72 | indexed does if and only if the type is not backwards, is never padded, has no data, or its alignment divides its extent |
| `Merging.IndexedBlockIffEven` | ompi/datatype/ompi_datatype_create_indexed.c:116-147 | indexed_block does if and only if the type is not backwards, is never padded, or its alignment divides its extent |
| `BlockBounds.MergedSpans` | ompi/datatype/ompi_datatype_create_indexed.c:34-182 | merged blocks of any type: the lower bound is exactly the least of all elements, a marked upper bound is exactly the greatest, an unmarked one covers every element and makes the extent a multiple of the alignment |
| `BlockBounds.MergedRoundsUp` | ompi/datatype/ompi_datatype_create_indexed.c:34-182 | when the type is not backwards and no block lies below the first, the upper bound is exactly the greatest of the elements rounded up to the alignment |
| `TypeConstructors.CreateStruct` | ompi/datatype/ompi_datatype_create_struct.c:31-97 | merging neighbours of the same type handle leaves the type map of the blocks one by one, and also bounds, padding and flags when no two of the types used clash |
| `StructMerging.MergedIsSeparateMembers` | ompi/datatype/ompi_datatype_create_struct.c:69-93 | of types that do not clash, merging makes what adding one by one makes |
| `StructMerging.StructIffGentle` | ompi/datatype/ompi_datatype_create_struct.c:69-93 | struct makes the type of the blocks one by one, for all blocks of the given types, if and only if no two of them clash: neither has an upper-bound marker, one is aligned, the other is backwards and its lower bound counts beside the first one's |
| `BlockBounds.StructSpans` | ompi/datatype/ompi_datatype_create_struct.c:31-97 | a struct of any types: each bound is that of the elements whose types have a marker for it, if there are any, and else of all; lower and marked upper bounds are exact, an unmarked upper bound covers every element, and the extent is a multiple of the greatest alignment |
| `Distribution.Owner` | ompi/datatype/ompi_datatype_create_darray.c:33-172 | every index has an owner inside the process grid |
| `Distribution.BlockIsOwned` | ompi/datatype/ompi_datatype_create_darray.c:41-51 | a process's block, cut at the end of the dimension, is the increasing list of exactly the indices it owns |
| `Distribution.CyclicPart` | ompi/datatype/ompi_datatype_create_darray.c:109-118 | an index belongs to a process exactly when its distance from the process's first index is early in the period |
| `Distribution.CyclicIsOwned` | ompi/datatype/ompi_datatype_create_darray.c:103-121 | whole blocks and the remainder together are the increasing list of exactly the indices a process owns |
| `Darray.Block` | ompi/datatype/ompi_datatype_create_darray.c:33-90 | copies of the inner type one row apart, as many as the process's block has, resized to the whole dimension |
| `Darray.Cyclic` | ompi/datatype/ompi_datatype_create_darray.c:94-172 | the whole blocks a period apart and the remainder, resized to the whole dimension; the stride is never misread |
| `Darray.AddDimension` | ompi/datatype/ompi_datatype_create_darray.c:232-264 | one more dimension puts the inner elements at each owned index, from its first one on |
| `Darray.GridCoords` | ompi/datatype/ompi_datatype_create_darray.c:203-214 | the division loop gives the rank's place in the row-major process grid |
| `Darray.Displacement` | ompi/datatype/ompi_datatype_create_darray.c:276-281 | the sum loop gives the element at the first owned index of every dimension |
| `Darray.Create` | ompi/datatype/ompi_datatype_create_darray.c:174-298 | for every mix of distributions, both orders and any element type: the element type at exactly the owned elements, in the order of the array, with the extent of the whole array |
| `DarrayPartition.RankAtCoords` | ompi/datatype/ompi_datatype_create_darray.c:203-214 | every place in the process grid has a rank, and that rank's coordinates are the place |
| `DarrayPartition.CoordsOfRank` | ompi/datatype/ompi_datatype_create_darray.c:203-214 | different ranks have different coordinates |
| `DarrayPartition.ElementsInArray` | ompi/datatype/ompi_datatype_create_darray.c:174-298 | a rank's elements lie in the array and none comes twice |
| `DarrayPartition.OneRank` | ompi/datatype/ompi_datatype_create_darray.c:33-298 | every element is held by exactly one rank when no process shares an undistributed dimension |
| `DarrayPartition.TwoRanks` | ompi/datatype/ompi_datatype_create_darray.c:246-257 | in Fortran order an undistributed dimension with several processes gives the first element to two ranks |
| `DarrayPartition.Partition` | ompi/datatype/ompi_datatype_create_darray.c:33-298 | the ranks' datatypes partition the array if and only if no undistributed dimension has several processes in Fortran order |
| `DarrayPartition.SharedElement` | ompi/datatype/ompi_datatype_create_darray.c:246-257 | an input on which two ranks hold the same element |
| `DarrayPartition.SameTotal` | ompi/datatype/ompi_datatype_create_darray.c:206-213 | both orders span the same number of elements |
| `DarrayPartition.BlocksAreSubarray` | ompi/datatype/ompi_datatype_create_darray.c:33-90 | without cyclic dimensions a rank's elements are those of the subarray of its blocks, also for empty blocks |
| `DarrayTypes.OnceIffOneHolder` | ompi/datatype/ompi_datatype_create_darray.c:174-298 | an element comes once in the ranks' lists together exactly when one rank holds it |
| `DarrayTypes.TogetherTheArray` | ompi/datatype/ompi_datatype_create_darray.c:174-298 | the ranks' elements together are a permutation of the array's if and only if no undistributed dimension has several processes in Fortran order |
| `DarrayTypes.CreateAll` | ompi/datatype/ompi_datatype_create_darray.c:174-298 | the entries of the types that all ranks create are together a permutation of the entries of the whole array, under that condition |
| `DarrayTypes.BlocksBothWays` | ompi/datatype/ompi_datatype_create_darray.c:174-298 | without cyclic dimensions the constructors for distributed arrays and for subarrays make types with the same bounds, and the same entries if and only if the subarray's strides are not misread |
| `Subarray.Innermost2` | ompi/datatype/ompi_datatype_create_subarray.c:77-82 | the vector over the two innermost dimensions is that part of the box; its stride is never misread |
| `Subarray.MisreadAt` | ompi/datatype/ompi_datatype_create_subarray.c:83-91 | an outer stride is misread exactly when the box is several elements long there, all inner dimensions have size 1, and the element type has extent -1 and gets padded |
| `Subarray.ColumnDerails` | ompi/datatype/ompi_datatype_create_subarray.c:83-91 | an input on which that happens |
| `Subarray.AddDimension` | ompi/datatype/ompi_datatype_create_subarray.c:83-91 | each hvector adds one dimension to the box, right or wrong as the type inside it and its own stride |
| `Subarray.Outer` | ompi/datatype/ompi_datatype_create_subarray.c:77-91 | the loop's type, size and displacement are those of the box at the origin, exactly when no stride is misread |
| `Subarray.Create` | ompi/datatype/ompi_datatype_create_subarray.c:31-108 | the element type at exactly the elements of the box, in the order of the array, with the extent of the whole array, if and only if no stride of -1 byte is misread |
| `PackMemory.WordRoundTrip` | ompi/datatype/ompi_datatype_args.c:440-443 | a signed word of any width that fits reads back from its memory image |
| `PackMemory.ReadIsSigned` | ompi/datatype/ompi_datatype_args.c:570-609 | reading with a byte swap on a machine of the other order gives the value the writer stored |
| `PackMemory.ReadWords` | ompi/datatype/ompi_datatype_args.c:655-669 | a list of integers or displacements reads back as written, with or without swapping |
| `PackEncoder.WriteHead` | ompi/datatype/ompi_datatype_args.c:440-463 | header, aligned displacements and integers are in place, and nothing outside is written |
| `PackEncoder.PackOne` | ompi/datatype/ompi_datatype_args.c:465-477 | a child's entry holds its predefined id, or the next number and then a description of its own follows; numbers are used up one for each described datatype below; what was written before stays |
| `PackLayout.HeaderFields` | ompi/datatype/ompi_datatype_args.c:440-444 | a description begins with the combiner and the numbers of integers, displacements and datatypes, four bytes each |
| `PackLayout.DispOffset` | ompi/datatype/ompi_datatype_args.c:451-457 | displacement i is the eight bytes at 8 i behind the header, rounded up to a multiple of 8 where words are aligned |
| `PackLayout.EntryOffset` | ompi/datatype/ompi_datatype_args.c:458-470 | the entry of predefined child i holds its id, at 4 i behind the displacements |
| `PackLayout.IntOffset` | ompi/datatype/ompi_datatype_args.c:461-463 | integer i is at 4 i behind the entries of the children |
| `PackEncoder.Pack` | ompi/datatype/ompi_datatype_args.c:419-480 | it writes a description of the datatype from its start to its computed end and no byte outside, for every tree, duplicates included, and uses up exactly one number for each described datatype in it |
| `PackDecoder.CoreIsThere` | ompi/datatype/ompi_datatype_args.c:433-439 | duplicates leave no trace in a description |
| `PackDecoder.CreateFromArgs` | ompi/datatype/ompi_datatype_args.c:684-804 | the argument counts worked out anew from the combiner and the leading integers cover all arguments, and the _INTEGER combiners become the plain ones |
| `PackDecoder.ReadHead` | ompi/datatype/ompi_datatype_args.c:601-628 | the parser finds the arguments, the entries of the children and the first description where the writer put them |
| `PackDecoder.UnpackKids` | ompi/datatype/ompi_datatype_args.c:630-653 | every child comes back as the datatype it was, in order |
| `PackDecoder.Unpack` | ompi/datatype/ompi_datatype_args.c:558-682 | a description reads back as the same tree without duplicates and with normalised combiners, in either byte order, and reading stops exactly where writing did |
| `PackSize.EndPeriodic` | ompi/datatype/ompi_datatype_args.c:451-466 | moving the start of a description by 8 bytes moves its end by 8 bytes |
| `PackSize.EndApart` | ompi/datatype/ompi_datatype_args.c:451-466 | moving the start by 4 bytes moves the end by 0, 4 or 8 bytes |
| `PackSize.ExactIsEnough` | ompi/datatype/ompi_datatype_args.c:504-512 | a size cut to the exact length still bounds the description wherever it is placed later |
| `PackSize.NodeFits` | ompi/datatype/ompi_datatype_args.c:81-108 | the precomputed size bounds the description, alignment padding included, whatever sufficient sizes it finds in the children |
| `PackSize.DupFits` | ompi/datatype/ompi_datatype_args.c:127-129 | the size of a duplicate, which stores no data of its own, bounds the description of what it duplicates |
| `PackStore.TypeStore.SetArgs` | ompi/datatype/ompi_datatype_args.c:111-247 | in every history of creating and packing datatypes that share children, the new datatype's precomputed size is enough |
| `PackStore.TypeStore.GetPackDescription` | ompi/datatype/ompi_datatype_args.c:483-535 | the bytes written never exceed the precomputed size, which becomes the exact length; the cached description stays right |
| `PackStore.TypeStore.Run` | ompi/datatype/ompi_datatype_args.c:111-535 | after every sequence of creating and describing datatypes, each call having its effect, every size is enough for its description and none has grown |
| `PackStore.Transfer` | ompi/datatype/ompi_datatype_args.c:483-682 | a datatype described by one process and rebuilt by another of either byte order is the same up to duplicates and combiner names, from exactly the description's bytes |
| `SeqTracker.CheckDuplicate` | ompi/class/ompi_seq_tracker.c:58-83 | from every cursor position the answer is whether the id was inserted, the walk ends, and the cursor moves to the range of an id that is found and not otherwise |
| `SeqTracker.GrowUp` | ompi/class/ompi_seq_tracker.c:117-129 | extending a range upwards joins it with the next one exactly when they touch, and adds only the id |
| `SeqTracker.GrowDown` | ompi/class/ompi_seq_tracker.c:131-143 | extending a range downwards joins it with the previous one exactly when they touch, and adds only the id |
| `SeqTracker.Insert` | ompi/class/ompi_seq_tracker.c:91-180 | from every cursor position the list stays sorted, disjoint and non-adjacent, gains exactly the id, and the cursor ends on the range that holds it |
| `SeqTracker.CanonicalUnique` | ompi/class/ompi_seq_tracker.c:86-90 | a set of ids has only one such list |
| `SeqTracker.Tracker.Check` | ompi/class/ompi_seq_tracker.c:58-83 | membership in the set of ids inserted |
| `SeqTracker.Tracker.Add` | ompi/class/ompi_seq_tracker.c:91-180 | the set gains the id |
| `SeqTracker.Tracker.Run` | ompi/class/ompi_seq_tracker.c:58-180 | every series of insertions and lookups answers as a plain set does |
| `SeqTracker.Tracker.CopyFrom` | ompi/class/ompi_seq_tracker.c:183-198 | a fresh copy has seen the same ids and stands at the same place |
| `SeqTracker.Tracker.SameSeen` | ompi/class/ompi_seq_tracker.c:86-90 | trackers that have seen the same ids hold the same list |
| `Matching.OnceEach` | contrib/build-mca-comps-outside-of-tree/btl_tcp2_proc.c:207-221 | the search reaches every permutation that extends an assignment exactly once, and nothing else |
| `Matching.BestOfMore` | contrib/build-mca-comps-outside-of-tree/btl_tcp2_proc.c:192-204 | keeping the better of two keeps the best of all so far |
| `Matching.Score` | contrib/build-mca-comps-outside-of-tree/btl_tcp2_proc.c:175-190 | the loop counts the usable connections and adds their weights |
| `Matching.Search.EvaluateAssignment` | contrib/build-mca-comps-outside-of-tree/btl_tcp2_proc.c:175-205 | the assignment kept is the first of those evaluated that none of them beats |
| `Matching.Search.Visit` | contrib/build-mca-comps-outside-of-tree/btl_tcp2_proc.c:207-221 | it evaluates exactly the completions of the partial assignment, in order, and clears its own place again |
| `Matching.BestAssignment` | contrib/build-mca-comps-outside-of-tree/btl_tcp2_proc.c:591-595 | every permutation is evaluated exactly once, none beats the one kept in (cardinality, weight), and those before it are strictly worse |
| `Attributes.Attach` | ompi/attribute/attribute.c:1253-1262 | a new attribute and a new reference keep the account |
| `Attributes.Detach` | ompi/attribute/attribute.c:1082-1096 | removing an attribute and a reference keeps the account, and destroys the keyval only when no object carries it |
| `Attributes.FreeOnce` | ompi/attribute/attribute.c:682-711 | freeing a keyval keeps the account if and only if it was not freed before |
| `Attributes.FreedTwice` | ompi/attribute/attribute.c:682-711 | an input on which a second free removes a keyval that an object still carries |
| `Attributes.Engine.CreateKeyval` | ompi/attribute/attribute.c:582-627 | the first free key, never one in use, with one reference; it fails exactly when all keys are taken |
| `Attributes.Engine.Release` | ompi/attribute/attribute.c:501-513 | the last reference takes the keyval out of the table and its key out of the bitmap |
| `Attributes.Engine.FreeKeyval` | ompi/attribute/attribute.c:682-711 | refused for unknown, foreign and predefined keyvals; the invariant survives if and only if the keyval was not freed before |
| `Attributes.Engine.SetValue` | ompi/attribute/attribute.c:1187-1265 | the value is set with the next sequence number unless the keyval is unusable or the delete callback of the old value fails, and then nothing changes |
| `Attributes.Engine.Delete` | ompi/attribute/attribute.c:1030-1099 | the attribute and its reference go exactly when the keyval is usable, the attribute is there and its callback agrees |
| `Attributes.SortBySequence` | ompi/attribute/attribute.c:1149-1157 | all keys, in the order their attributes were set |
| `Attributes.Engine.DeleteInReverse` | ompi/attribute/attribute.c:1159-1171 | attributes go in the reverse of the order set, until a callback fails |
| `Attributes.Engine.DeleteAll` | ompi/attribute/attribute.c:1120-1179 | callbacks run in strictly decreasing set order; if one fails, exactly the attributes set after it are gone; keyvals go only if their handle was freed |
| `Attributes.Engine.CopyAll` | ompi/attribute/attribute.c:915-1021 | it succeeds if and only if no copy callback fails and no delete callback of an attribute to be replaced refuses; every attribute copied has the value the callback gave and a new sequence number, those after a failure and all else are as they were, exactly the replaced attributes had their delete callback called, and the lookup of a keyval never fails |
| `Attributes.Engine.Run` | ompi/attribute/attribute.c:582-1265 | after every sequence of creations, frees through a handle, sets, deletions and copies, each having its effect, a keyval is in the table as long as, and only while, its handle is held or an object carries it |
| `CommSplit.Sort` | ompi/communicator/comm.c:478-482 | sorted by (key, rank) with the same entries, which is all that is assumed of the sort |
| `CommSplit.GroupIsUnique` | ompi/communicator/comm.c:1830-1860 | there is only one list of given ranks in strict (key, rank) order |
| `CommSplit.SortedIsGroup` | ompi/communicator/comm.c:469-492 | the ranks of the sorted pairs are exactly the ranks of the color, in the required order |
| `CommSplit.LocalRanks` | ompi/communicator/comm.c:450-492 | the ranks of a color ordered by key and then old rank, as section 6.4.2 of MPI-3.1 requires; it fails exactly when nobody has the color |
| `CommSplit.SplitConsistent` | ompi/communicator/comm.c:450-492 | processes of a color compute the same list, and each process is in the list of its color only |
| `CommRequest.CalledInOrder` | ompi/communicator/comm_request.c:132-138 | callbacks are called in the order appended, none twice and none left out |
| `CommRequest.CalledAfterFreed` | ompi/communicator/comm_request.c:120-137 | a callback has been called only after every subrequest of its item was freed |
| `CommRequest.CalledAfterDone` | ompi/communicator/comm_request.c:120-137 | a callback has been called only if every subrequest of its item was complete |
| `CommRequest.EmptyScheduleDone` | ompi/communicator/comm_request.c:144-149 | when a schedule is empty, every subrequest was freed as often as it was appended and every callback called once |
| `CommRequest.LeftNothing` | ompi/communicator/comm_request.c:117-130 | an item can be finished exactly when all its subrequests are complete |
| `CommRequest.TracksAppend` | ompi/communicator/comm_request.c:86-94 | appending keeps the schedule in step with what has been done |
| `CommRequest.Scheduler.ScheduleAppend` | ompi/communicator/comm_request.c:71-97 | the item goes to the end of the schedule, or is refused when it has more than two subrequests |
| `CommRequest.Scheduler.Begin` | ompi/communicator/comm_request.c:164-178 | the request becomes active and the progress function is registered |
| `CommRequest.Scheduler.Perform` | ompi/communicator/comm_request.c:133-137 | of what a callback appends and starts exactly the legal part takes effect, in order, and nothing that has been done is undone |
| `CommRequest.Scheduler.FreeCompleted` | ompi/communicator/comm_request.c:120-130 | the completed subrequests at the end of the first item are freed, and only completed ones |
| `CommRequest.Scheduler.FinishItem` | ompi/communicator/comm_request.c:132-141 | an item leaves the schedule, with its callback due, exactly when it has no subrequest left |
| `CommRequest.Scheduler.Visit` | ompi/communicator/comm_request.c:112-149 | one request goes on by one item if its first item is complete, and is completed, with its callback's success as status, exactly when its schedule is empty; others only gain what the callback appended |
| `CommRequest.Scheduler.Progress` | ompi/communicator/comm_request.c:99-162 | although subrequests complete during the pass, every request that was active is visited in order; if it has an item, it goes on exactly if that one is complete at its visit; it is completed if and only if nothing is left of its schedule, and then has its callback's success as status; the requests completed are exactly those; callbacks do what the script says in the order called, and their appends and starts take effect; the function stays registered exactly while requests are active |
| `CommRequest.Scheduler.Run` | ompi/communicator/comm_request.c:46-178 | after every sequence of gets, appends, starts and passes, each having its effect: nothing done is undone, requests stay completed, a request whose last item is finished is completed, and a callback was called only when passes had seen every subrequest of its item complete |

## Left out

- Sockets, libevent, locks, PMIx, connect, accept and close of TCP endpoints, EINTR and error codes of writev and readv.
- GET fragments of the TCP transport, and the choice of the address for an endpoint after the best assignment is known.
- Aliasing between fragments, iovecs and the endpoint cache: they are values, and a payload lent from the cache is modelled by its place in it.
- CidProtocol.Agreement: the `lowest_id` check and the try-lock at the head of a handler only delay it, so they are not steps of their own; failed collectives and out-of-memory paths are not modelled, running out of ids is.
- CidTermination.Termination: for one allocation at a time with all other table entries fixed and a common free id below the limit, which is what the loop needs to end.
- CidTermination.Exactness: for one allocation at a time, as other allocations may take the least common id first.
- TreeRounds.EachCorrect: a message holds what was in the sender's buffer when it was sent; that the buffer does not change until it arrives is `TreeAllreduce.ArrivalInv`.
- TypeConstructors.CreateStruct: the first pass, which only sizes the descriptor, is not modelled.
- Merging.IndexedIffEven: about blocks the first of which has bounds that a long can hold, since the initial bounds of an empty type would survive otherwise.
- Merging.IndexedBlockIffEven: as for Merging.IndexedIffEven.
- BlockBounds.MergedSpans: how far an unmarked upper bound exceeds the greatest of the elements when a later block lies below the first, where each block adds its own padding.
- BlockBounds.StructSpans: as for BlockBounds.MergedSpans.
- Overflow of displacements and counts; types whose bounds a long cannot hold; MPI-1 LB and UB markers beyond the flags that `Add` reads, optimised type descriptions.
- Darray.Create: a cyclic distribution argument of zero, which the interface lets through and which divides by zero, is excluded.
- PackStore.TypeStore.GetPackDescription: two threads asking for a description at the same time; descriptions of more than 2 GB.
- PackDecoder.Unpack: buffers that hold no description, combiners made by the Fortran 90 parameterised types, rebuilding the type map itself; both ends align words alike.
- SeqTracker.Insert: the id 0xFFFFFFFF, for which the 32-bit `+1` and `-1` tests wrap around.
- Matching.BestAssignment: the fallback used for many interfaces.
- Attributes.Engine.SetValue: callbacks that call back into the attribute functions, conversions between C and Fortran values, missing attribute tables, and overflow of the sequence counter.
- CommSplit.LocalRanks: the remote group of an inter-communicator, which repeats the same steps, and what follows once the ranks are known.
- CommRequest.Scheduler.Progress: subrequests that complete while one request is being looked at; a pass in which callbacks start new requests without end; a callback acts as the next entry of a finite script says.
- CommRequest.Scheduler.Begin: starting a request twice or after its completion, which would corrupt the list, is excluded.
- Cancelling communicator requests, split by type, get_elements, external32, sendrecv of packed data and the predefined datatype tables.
