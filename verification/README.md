# Verified model of the channel framework

A Dafny model of six parts of a Netty-style network framework written in Go, with proofs about whole runs, whole
streams and whole requests. `dafny verify dfyconfig.toml` checks everything.

**The write path** (`WriteProtocol`, `WriteOrder`, `WriteFates`, `WriteTermination`). Callers push futures into a
shared queue; a compare-and-swap on a flag elects one drainer. The protocol is a step relation over any number of
threads with program counters, and every theorem is about every run. A thread that wins the flag continues as the
drainer, and a future is named by the thread of its call. Deactivation, completion of the close future and (in
`WriteProtocol`, `WriteFates` and `WriteOrder.CompleteUnlessContradicted`) activation may happen between any two
steps. `WriteFates` says what becomes of one call by what it reads and by what UnsafeWrite answers.

**The framing codec** (`Buffers`, `VarInt`, `SimpleCodec`, `CodecTheorems`). A FLAG/LENGTH/BODY machine that is
replayed on every chunk, aborts on short input and compacts its buffer in place. The class is proved against a
function `Decode` of configuration and unread bytes; fragmentation independence, byte conservation and the round trip
are proved about that function and carried back to the class.

**The pipeline** (`Delivery`, `DeliveryCounts`, `Pipeline`, `PipelineTheorems`, `PipelineChanges`). Contexts are heap
objects in a doubly linked list. Every mutator refines an operation on the sequence of entries, and `StaleValid`
tracks the contexts that were removed with their links in place. `Delivery` says what a read does on its way through
handlers given as scripts, each with its own way back to the head; the event methods of a context are proved to follow
the links accordingly, from linked and from removed contexts. `DeliveryCounts` says in which order a script is done
and how often everybody is visited. `PipelineChanges` has the handlers change the pipeline while a read or an error is
on its way: every context gets a place in a dense order that it keeps for good, and links only ever lead to higher
places.

**Shutdown** (`Shutdown`, `ShutdownTermination`). A server channel, any number of children, any number of concurrent
deactivations, and a server that waits for children while they delete themselves from the map it iterates over.

**Routing** (`Paths`, `Routes`, `RouteTheorems`, `Patterns`, `SimpleRoute`, `SimpleRouteTheorems`,
`RegistrationTheorems`). Both routers work on tries of heap nodes. Their loops are proved against the functions
`Route` and `Search`, and those against a relation `Walks` that says which segments lead where. The mapping that
SimpleRoute picks depends on the order of a Go map; here any matching mapping may be picked, at every call.

**Byte ranges** (`Ranges`). `ParseRange` and `handleAutoRange`, against a definition of the bytes a header asks for
that knows nothing of the parser and follows RFC 9110: the name of the unit in any letter case (section 14.1), a list
of ranges of which some may be empty (section 5.6.1), positions that are strings of digits of any length (sections
14.1.1 and 14.1.2), and every byte that lies in one of the ranges. The Content-Range value has the form of section
14.4. Units other than `bytes` are refused, although section 14.2 has a server ignore a unit it does not know, and the
request method is not looked at; there the model follows the code.

Assumed of libraries that are not part of this model: a buffer read takes all its bytes or aborts and leaves the
buffer alone; the buffer writes and reads integers in big-endian order; a future is completed once; iterating over a
concurrent map visits every key that is there throughout, and may or may not visit others.

Some promises turned out to hold only under a condition, which is proved to be exact:

- A Write call loses its future if and only if the channel becomes active between its two reads of `IsActive`
  (`WriteOrder.CompleteUnlessContradicted`, with a run that loses one in `ActivationLosesAFuture`).
- `RemoveFirst` damages a pipeline if and only if it has no handlers, and `AddBefore` if and only if it aims at the
  head.
- An initializer removes itself only from a pipeline that was empty; otherwise the first handler goes.
- `AddBefore` followed by `RemoveByName` replaces a handler if and only if the new one has another name.
- A panic leaves the firing of a read if and only if the next Read panics and so does the ErrorCaught that the panic
  is delivered to; it leaves the firing of an error if and only if some ErrorCaught on the way panics, which is then
  called twice.
- A wildcard of SimpleRoute catches the rest of a fitting request if and only if it stands below a group and no two
  parameters are in a row before it.
- A request that fits a pattern of SimpleRoute (it repeats the static parts, and no parameter takes the name of a
  child) is answered with its node if and only if the pattern has no two parameters in a row and is not one parameter
  alone at the root (and the node is no group below a group).
- `ParseRange` does exactly what a header asks for of content that is not empty, unless some byte is asked for and the
  unit is not spelt `bytes` in small letters or there is a comma (refused); or, plus signs aside, some byte is asked
  for and either a position has a plus sign (served, although it is no range) or the last position or suffix is 2^63
  or more (refused), but not both.
- `ParseRange` accepts a suffix range of empty content and returns an end before the start; what it calls valid
  denotes bytes of the content if and only if there are any. `handleAutoRange` never asks about empty content.

## Model

| member | source | states |
|---|---|---|
| WriteProtocol.InvStep | channel/unsafe.go:85-157 | Every step of every thread, and every outside change, keeps the protocol's invariant: one drainer holds the flag, drained + in flight + queued is the push order, no stranded queue, every future is in exactly one place. |
| WriteProtocol.NoStrandedWrite | channel/unsafe.go:105-156 | In every reachable state a non-empty queue has a drainer holding the flag, or a thread bound to try the flag or look at the queue again. |
| WriteProtocol.ExclusiveAndInOrder | channel/unsafe.go:105-131 | At most one thread is in the drain region; drained futures are a prefix of the distinct pushed ones, complete with their first outcome, and no later pushed future is complete. |
| WriteProtocol.QuiescentIsComplete | channel/unsafe.go:85-157 | When everybody has returned, queue and flag are clear, all pushed futures were drained, and every call is complete or was dropped between its two activity reads, never both. |
| WriteOrder.OrderedOutcomes | channel/unsafe.go:107-145 | Without activation: outcomes along the push order are successes, at most one write error, then rejections; objects sent are a prefix of the push order and are exactly those that ended in success or the write error; any failure means the channel is inactive. |
| WriteOrder.QuiescentActiveWroteAll | channel/unsafe.go:107-131 | If the channel is still active when everybody has returned, every accepted object was written in push order and succeeded. |
| WriteOrder.CompleteUnlessContradicted | channel/unsafe.go:90-103 | With activations at any time, a call's future is complete in a quiescent state if and only if its two activity reads did not contradict each other. |
| WriteOrder.DroppedIsContradicted | channel/unsafe.go:90-103 | The dropped futures of a run are exactly those whose caller read inactive and then active. |
| WriteOrder.NothingContradicted | channel/unsafe.go:90-103 | Without an activation during the run no call's reads contradict each other. |
| WriteOrder.QuiescentAllComplete | channel/unsafe.go:85-157 | Without activation, in a quiescent state exactly the futures of all calls are complete. |
| WriteOrder.ActivationLosesAFuture | channel/unsafe.go:90-99 | A run in which an activation between the two reads loses a future although everybody returns. |
| WriteFates.AnswerDecides | channel/unsafe.go:125-130 | In every continuation of a run in which UnsafeWrite is given the object of f, once f is complete it has succeeded if the object was accepted and has failed with the write error if not. |
| WriteFates.CloseDecides | channel/unsafe.go:135-145 | A future left over on an inactive channel fails as closed if the close future was done when the clean-up looked at it, and as inactive if not. |
| WriteFates.NewIsOpen | channel/unsafe.go:139-141 | The close future is done exactly if it was completed during the run. |
| WriteFates.FirstReadDecides | channel/unsafe.go:90-98 | A call without an object succeeds at once, writes nothing and tries the flag; an object is pushed if the channel was active, whatever happens later, and looked at again if not. |
| WriteFates.SecondReadDecides | channel/unsafe.go:99-102 | An object not pushed is rejected and the call returns, if the channel is still inactive; otherwise its future is never completed, and the call tries the flag. |
| WriteFates.SuccessIsSent | channel/unsafe.go:90-130 | In every run, a call with an object succeeds only if the object was handed to UnsafeWrite. |
| WriteFates.LeavesLoopIff | channel/unsafe.go:107-122 | The write loop is left exactly when its guard reads an inactive channel or the queue is empty. |
| WriteFates.LeavesCleanUpIff | channel/unsafe.go:134-147 | The flag is given up exactly when the channel is active after the loop or the clean-up has emptied the queue. |
| WriteTermination.EventSpends | channel/unsafe.go:105-156 | Every internal step, deactivation or closing lowers the rank (pending pushes, activity, queue length, effort). |
| WriteTermination.FiniteDraining | channel/unsafe.go:106-155 | No infinite schedule of drainers, re-kicks and deactivations exists once calls stop arriving. |
| WriteTermination.StuckIsQuiescent | channel/unsafe.go:92-151 | Waiting for the buffer lock never deadlocks: if no thread can move, everybody has returned. |
| Buffers.Queue.Push | utils/queue.go:17-21 | Appends to the contents, although the list grows at its front. |
| Buffers.Queue.Pop | utils/queue.go:26-36 | Takes the oldest element, or nothing from an empty queue. |
| VarInt.VarIntDecode | utils/varint.go:23-34 | Consumes exactly the bytes its marker announces and returns their value, or aborts leaving the buffer as it was. |
| VarInt.ParseEncode | utils/varint.go:10-34 | Decoding inverts encoding over all of uint64, whatever follows. |
| VarInt.EncodePrefixFree | utils/varint.go:10-20 | No encoding is a prefix of another value's; encoding is injective. |
| VarInt.CanonicalHeader | utils/varint.go:10-34 | A header the decoder accepts is the encoder's own if and only if its value needs the marker it carries. |
| VarInt.BigEndianDigit | utils/varint.go:14-18 | Byte i of n digits of v is v / 256^(n-1-i) mod 256. |
| VarInt.ReadIsWeighted | utils/varint.go:24-30 | The value read is the sum of the bytes times their weights, the first byte having the largest. |
| VarInt.Spelling | utils/varint.go:10-20 | Every value's spelling, marker and digits written out, for 1, 3, 5 and 9 bytes. |
| VarInt.Reading | utils/varint.go:23-34 | Every spelling's value, written out. |
| SimpleCodec.SimpleCodec.Checkpoint | channel/replaydecoder.go:41-56 | Changes the state; compacting the buffer in place leaves the unread bytes as they were. |
| SimpleCodec.SimpleCodec.DecodeLoop | gtcp/simpletcp/simplecodec.go:31-54 | The unbounded loop terminates, and pushes and leaves behind what Decode says. |
| SimpleCodec.DecodeEndsShort | gtcp/simpletcp/simplecodec.go:31-54 | Decoding always ends by a short read. |
| CodecTheorems.BodyWaitsIff | gtcp/simpletcp/simplecodec.go:47-50 | A body is taken whole, or the decoder waits: exactly if its length is 2^63 or more, or exceeds what is unread. |
| CodecTheorems.HeaderWaitsIff | gtcp/simpletcp/simplecodec.go:44-46 | The header waits for 2, 4, 8 or no bytes, by its marker, and consumes exactly those. |
| CodecTheorems.DecodesMessage | gtcp/simpletcp/simplecodec.go:31-63 | Every non-empty message shorter than 2^63 bytes, written with its length in front, is read back from FLAG, whatever follows. |
| SimpleCodec.SimpleCodec.Read | channel/replaydecoder.go:62-78 | A chunk is accumulated, complete messages fire in order, and the codec is left where decoding old unread bytes plus chunk ends. |
| SimpleCodec.SimpleCodec.FireAll | channel/replaydecoder.go:72-74 | Fires the queue's contents in order. |
| CodecTheorems.DecodeSplit | gtcp/simpletcp/simplecodec.go:31-54 | Decoding a and then b from where that stopped is decoding a + b. |
| CodecTheorems.ReadChunks | channel/replaydecoder.go:62-78 | Fragmentation independence: any list of chunks fires the messages, and ends in the state, of one read of the whole stream. |
| CodecTheorems.DecodesItems | gtcp/simpletcp/simplecodec.go:31-54 | A stream of heartbeats and well-formed frames decodes to the bodies in order, whatever follows. |
| CodecTheorems.DecodeAccounts | gtcp/simpletcp/simplecodec.go:31-54 | Byte conservation for every input: received bytes are items, the begun part of one frame and the unread bytes, and the messages are exactly the items' bodies. |
| CodecTheorems.EncodeIsItem | gtcp/simpletcp/simplecodec.go:56-59 | What is written for a message is one frame, or a heartbeat if it is empty. |
| CodecTheorems.RoundTrip | gtcp/simpletcp/simplecodec.go:31-63 | What the encoder wrote decodes to exactly the non-empty messages, ending in FLAG with nothing unread. |
| CodecTheorems.Transfer | gtcp/simpletcp/simplecodec.go:31-63 | Messages sent through one codec, cut arbitrarily and read by another arrive in order, but for empty ones. |
| Delivery.EscapesIff | channel/handlercontext.go:341-348 | A panic leaves the firing of an error if and only if some ErrorCaught that the error is handed to panics of itself. |
| Delivery.LeavesIff | channel/handlercontext.go:323-330 | A panic leaves the firing of a read if and only if the next Read panics, by itself or through what it fires, and so does the ErrorCaught that the panic is delivered to; over all scripts. |
| Delivery.PanicsAreContained | channel/handlercontext.go:417-423 | If no ErrorCaught from the next handler to the head panics itself, firing a read returns normally whatever the Read callbacks do. |
| Delivery.EscapesTwice | channel/handlercontext.go:341-348 | Whenever a panic leaves the firing of an error, the ErrorCaught it went to has run twice. |
| DeliveryCounts.ReadActsInOrder | channel/replaydecoder.go:72-74 | Over all scripts and panics: what the first entries of a script cause comes before what the rest causes, and all of it does come; a panic ends the script. |
| DeliveryCounts.ReadActAlone | channel/handlercontext.go:323-330 | One entry fires the read on, or hands an error back, or panics. |
| DeliveryCounts.ErrorActsInOrder | channel/handlercontext.go:341-348 | The same for what an ErrorCaught does. |
| DeliveryCounts.PanicIsDelivered | channel/handlercontext.go:417-423 | The next stop is visited, then does all of its script; if that panics, what it did stands, and the same stop's ErrorCaught runs, once. |
| DeliveryCounts.ReadsCount | channel/handlercontext.go:323-348 | Without panics: how often anybody reads, and how often an error comes to anybody, for any number of firings and reports. |
| DeliveryCounts.ReadsMultiply | channel/replaydecoder.go:72-74 | The k-th stop reads the product of the numbers of times that those before it fire. |
| DeliveryCounts.ErrorsCount | channel/handlercontext.go:341-348 | And how often an error handed back comes to anybody. |
| DeliveryCounts.HandedBackOnce | channel/handlercontext.go:341-348 | Where everybody hands errors back once, every report brings one error to each seat up to the head. |
| Delivery.ErrorGoesToHead | channel/handlercontext.go:341-348 | Where every ErrorCaught hands errors back, an error visits the handlers along prev links to the last, the head, once each. |
| Delivery.ReadIsDelivered | channel/handlercontext.go:323-348 | For passing, consuming and panicking handlers: a read visits the stops in order up to the first that does not pass it on; a panic there is delivered from there to the head; an unconsumed read is reported by the tail to all before it; the call returns normally. |
| Delivery.ListStopIsFirst | channel/handlercontext.go:323-330 | Where a read stops in a list is the first handler that does not pass it on, or the tail. |
| Delivery.ListDelivery | channel/pipeline.go:131-133 | The same in a list: reads go up the list from where they are fired, errors go down it from where the read stopped. |
| Pipeline.Pipeline.AddLast | channel/pipeline.go:140-153 | Appends the entry and runs its Added, which may add and remove others; list stays doubly linked; plain handlers keep stale contexts valid. |
| Pipeline.Pipeline.Added | channel/initializer.go:12-15 | An initializer adds its handlers and drops the first handler of the pipeline. |
| Pipeline.Pipeline.AddBefore | channel/pipeline.go:155-179 | Inserts before the first entry of that name, at the end for the tail's name, not at all for an unknown one; crashes if and only if the target is the head, and then leaves a new context in front of the head that the head points back to. |
| Pipeline.Pipeline.RemoveFirst | channel/pipeline.go:181-196 | Drops the first entry and clears its links; on a pipeline without handlers the tail loses its way back. |
| Pipeline.Pipeline.Remove | channel/pipeline.go:198-212 | Drops the first entry with that handler, keeping the removed context's links. |
| Pipeline.Pipeline.RemoveByName | channel/pipeline.go:214-230 | Drops the first entry of that name; the sentinels stay. |
| Pipeline.Pipeline.Clear | channel/pipeline.go:236-248 | Leaves a valid pipeline without entries. |
| Pipeline.Pipeline.FindByName | channel/pipeline.go:156-167 | The walk from the head finds the first context of that name, or none. |
| Pipeline.Context.FireRead | channel/handlercontext.go:323-330 | From any context, linked or removed: following next links under a recovery makes the callbacks that Delivery says for the stops there are. |
| Pipeline.Context.FireErrorCaught | channel/handlercontext.go:341-348 | From any context: following prev links under a recovery makes the callbacks that Delivery says. |
| PipelineTheorems.AddedBeforeLiterally | channel/pipeline.go:155-179 | AddBefore, position by position: right before the first entry of the target name, at the end for the tail's, and nowhere for an unknown one. |
| PipelineTheorems.WithoutName | channel/pipeline.go:214-230 | Removing by name takes out the first entry of that name and closes the gap. |
| PipelineTheorems.WithoutHandler | channel/pipeline.go:198-212 | Removing a handler takes out the first entry with it. |
| PipelineTheorems.IndexIsFirst | channel/pipeline.go:199-226 | The position that removal and insertion use is the first match, or none matches. |
| PipelineTheorems.NextReachesTail | channel/pipeline.go:198-230 | From every context ever linked, even a removed one, following next reaches the tail. |
| PipelineTheorems.PrevReachesHead | channel/pipeline.go:198-230 | And following prev reaches the head. |
| PipelineTheorems.FireReadFrom | channel/handlercontext.go:323-348 | Stale contexts still deliver: a read fired from any context ever linked is delivered along a way to the tail, with errors along ways to the head; without panics everybody on it is visited as often as the scripts say. |
| PipelineTheorems.DownwardUnique | channel/handlercontext.go:323-348 | The links leave one way from a context to the tail, and one from each stop to the head, so the delivery is determined. |
| PipelineTheorems.FireReadInList | channel/handlercontext.go:323-348 | From a linked context the read goes up the list to the first handler that does not pass it on, and errors go down. |
| PipelineTheorems.RunAll | channel/pipeline.go:140-230 | Every sequence of AddLast, AddBefore, Remove and RemoveByName refines the sequence operations and keeps every context ever linked on its way to tail and head. |
| PipelineTheorems.ReplaceInPlace | gws/wsupgradeprocessor.go:110-112 | AddBefore(n) and RemoveByName(n) replace in place if and only if the new name differs (or the entries are equal). |
| PipelineChanges.PutTravels | channel/pipeline.go:140-179 | Adding a context gives it a place between its neighbours, and no link leads past a context that was linked before. |
| PipelineChanges.TakenTravels | channel/pipeline.go:199-231 | Removing one keeps the places: the bridging link leads past nothing that is still linked. |
| PipelineChanges.Change | channel/pipeline.go:140-231 | Every operation does so in place, on the links of all contexts ever linked. |
| PipelineChanges.PassWhileChanging | channel/handlercontext.go:323-348 | While handlers change the pipeline in any way before they pass a read on, as a handler does that replaces itself (gws/wsupgradeprocessor.go:110-112), the read still reaches the tail, comes by no context twice, and comes in list order by every context behind the first that stays linked; the entries are those after the operations of the handlers visited. An error passed back does so towards the head. |
| PipelineTheorems.AddedLastClosed | channel/initializer.go:12-15 | However deeply nested, adding appends everything brought along and drops as many from the front as there are initializers. |
| PipelineTheorems.InitializerOnEmpty | channel/initializer.go:12-15 | On an empty pipeline an initializer leaves exactly its plain handlers, in order. |
| PipelineTheorems.InitializerLeavesIffEmpty | channel/initializer.go:12-15 | On plain handlers an initializer removes itself if and only if there were none. |
| Shutdown.InvStep | channel/channel.go:224-264 | Every step keeps: each channel's log is the passed part of its plan, the map holds exactly the unreleased children, and the server only passes closed ones. |
| Shutdown.OneShot | channel/channel.go:232-264 | Any number of deactivations: exactly one caller succeeds once the channel is down, and Inactive, Unregistered, close (not for a server), release happen at most once, in that order; a never activated channel fires Unregistered at most once and nothing else. |
| Shutdown.ShutdownOrder | channel/serverchannel.go:52-66 | When the server fires Inactive, every child that was derived before its callback began has fired Inactive, then Unregistered, and completed its close future, in every run. |
| Shutdown.WaitedForHasClosed | channel/serverchannel.go:52-66 | And so has every child that was in the map when the wait began, or that the iteration came to. |
| Shutdown.AwaitedIsWaitedFor | channel/serverchannel.go:52-58 | What the server waits for is read off the run: the map when its callback begins, and the children picked. |
| Shutdown.RefusalFires | channel/channel.go:232-264 | Deactivating a channel never activated: nobody succeeds, and at rest it has fired Unregistered once and nothing else. |
| Shutdown.ServerFinishesIff | channel/channel.go:238-252 | When nothing moves, a deactivated server has fired Inactive, Unregistered and been released if and only if every child in its map when its callback began, and every child it came to, was deactivated after an activation. |
| Shutdown.ShutdownCompletes | channel/serverchannel.go:26-58 | With all children activated and no newcomers, where nothing moves any more the cascade and the wait have shut everything down: all plans fired, the map empty. |
| Shutdown.CanServe | channel/serverchannel.go:68-83 | There are runs to a server that is up with any number of children that are up and in its map. |
| Shutdown.LateChildMayBeWaitedFor | channel/serverchannel.go:52-58 | There is a run in which the server waits for a child that arrived after it had begun to wait. |
| Shutdown.LateChildMayBeReached | channel/serverchannel.go:26-34 | And one in which the cascade deactivates a child that arrived while it was under way. |
| ShutdownTermination.EventLowers | channel/channel.go:238-252 | Every step of a callback or of the cascade lowers a rank, and a deactivation from outside does not raise it. |
| ShutdownTermination.BoundedShutdown | channel/serverchannel.go:26-58 | Once nobody arrives, callbacks and cascade make no more steps than the rank allows, in every run. |
| ShutdownTermination.ShutdownFinishes | channel/serverchannel.go:26-58 | Every run of a shutdown can be continued by its own steps, boundedly many, to a state where nothing moves, all plans are fired and the map is empty. |
| Paths.JoinSplit | ghttp/route.go:33 | Joining the segments of a path gives the path back. |
| Paths.TrimIsBare | ghttp/route.go:27 | Trimming removes the slashes at either end and nothing else. |
| Paths.SegmentsGiveBack | ghttp/route.go:27-33 | The segments routed, joined, are the request path but for slashes at its ends, and have no slash in them. |
| Paths.PathOfSegments | ghttp/simpleroute.go:258-264 | A path made of segments, with any slashes around it, is routed by exactly these segments. |
| Routes.Node.Add | ghttp/route.go:235-290 | A taken name or a missing point is refused; otherwise exactly the point's parent and type and this node's children change. |
| Routes.Node.AggregatedAcceptances | ghttp/route.go:176-186 | The loop up the parents returns the acceptances from the root down to the node. |
| Routes.DefaultRoute.RouteNode | ghttp/route.go:26-80 | The loop computes Route: static child first, else capture with one segment of lookahead. |
| RouteTheorems.RouteIffWalk | ghttp/route.go:26-80 | Routing reaches a node if and only if a walk leads there. |
| RouteTheorems.RouteFollowsWalk | ghttp/route.go:37-79 | A walk decides the node, the parameters and whether the node was reached by its name. |
| RouteTheorems.CaptureIsFound | ghttp/route.go:48-58 | A captured segment is found under "[gone-http]", its node's name and "_id", unless another is captured later at a node of this name. |
| RouteTheorems.RestIsFiled | ghttp/route.go:64-69 | So is the first segment that a recursive point has left, unless it names a child. |
| RouteTheorems.RouteHasWalk | ghttp/route.go:37-79 | Whatever routing finds, a walk leads there. |
| RouteTheorems.WalkFits | ghttp/route.go:64-69 | Only a recursive point leaves segments over. |
| RouteTheorems.KeptAreTheNames | ghttp/route.go:37-79 | Without captured segments, the path consumed is exactly the names from the root to the node. |
| RouteTheorems.CapturesNotAdjacent | ghttp/route.go:52-62 | No two adjacent segments are captured. |
| RouteTheorems.RouteFrame | ghttp/route.go:235-290 | Attaching a fresh point leaves the whole result of every path without its name. |
| RouteTheorems.Extend | ghttp/route.go:235-290 | In place: adding a point, with nodes below it, keeps the forest and the result of every path without its name. |
| Patterns.RegisterOne | ghttp/simpleroute.go:179-239 | One more part of a pattern keeps: the parts so far lead from the root to the current node, only nodes and children named by the pattern change, no handler is set before the last part, new nodes are groups unless a parameter stands at them. |
| SimpleRoutes.SimpleRoute.SetEndpoint | ghttp/simpleroute.go:161-250 | The pattern leads to one node, which gets handler and acceptances unless it ends in the name of an existing child; nothing else is equipped; new nodes on the way are groups without a handler, and become end points, as others do, only where a parameter stands; parameter names are stored exactly for patterns that have any and no wildcard. |
| SimpleRoutes.SimpleRoute.RegisterParts | ghttp/simpleroute.go:169-239 | The loop over the parts, ended by a wildcard, lays the pattern out and collects its parameter names. |
| SimpleRoutes.SimpleRoute.PathMatchesEndpoint | ghttp/simpleroute.go:346-365 | True if and only if the pattern is no longer than the path and agrees with it but for placeholders. |
| SimpleRoutes.SimpleRoute.FindBestMatchingMapping | ghttp/simpleroute.go:332-344 | Some matching mapping, or none if and only if nothing matches, in any map order. |
| SimpleRoutes.SimpleRoute.WrapNodeChainIfNeeded | ghttp/simpleroute.go:397-430 | The recursion returns Wrapped of the parent chain for one permitted pick per level. |
| SimpleRoutes.SimpleRoute.RouteNode | ghttp/simpleroute.go:257-330 | The node and the values are those of Search whatever is picked; picks only decide keys and shown names. |
| SimpleRouteTheorems.AgreesWithDefault | ghttp/simpleroute.go:270-329 | On one trie both routers find the same nodes, but for groups below groups, and wildcards where DefaultRoute finds nothing. |
| SimpleRouteTheorems.WalkFinds | ghttp/simpleroute.go:270-329 | Where a walk leads, the node is found with the walk's captures in order, unless it is a group below a group. |
| SimpleRouteTheorems.HitHasWalk | ghttp/simpleroute.go:270-329 | What is found without a wildcard, a walk leads to. |
| SimpleRouteTheorems.WildIsStuck | ghttp/simpleroute.go:310-317 | A wildcard is found only where a walk got stuck at its group. |
| SimpleRouteTheorems.StuckIsWild | ghttp/simpleroute.go:310-317 | And always there, with every capture on the way and the rest of the path. |
| SimpleRouteTheorems.WildcardLosesNothing | ghttp/simpleroute.go:258-264 | Segments consumed joined with the captured value are the request path but for slashes at its ends, and without captures the consumed ones are the names from below the root down to the wildcard's parent. |
| SimpleRouteTheorems.WrappingPreserves | ghttp/simpleroute.go:15-30 | Whatever is picked at each level, the wrapped chain is as long as the raw one and its k-th ancestor is the k-th node. |
| SimpleRouteTheorems.WrappedNames | ghttp/simpleroute.go:408-427 | Each ancestor goes by the name its own level's pick gives it, without _id, or by its own. |
| SimpleRouteTheorems.ShownLiterally | ghttp/simpleroute.go:408-416 | The names shown, written out: the parameter name without "_id" at its end, else the node's own. |
| SimpleRouteTheorems.AggregateInOrder | ghttp/route.go:176-186 | Acceptances of the upper nodes come first, and each node adds its own. |
| SimpleRouteTheorems.MatchesLiterally | ghttp/simpleroute.go:346-365 | What a pattern matches, its parts written out. |
| SimpleRouteTheorems.UnmatchedIsRaw | ghttp/simpleroute.go:398-401 | Where no pattern matches, nothing is wrapped. |
| SimpleRouteTheorems.RawUnlessNamed | ghttp/simpleroute.go:397-430 | A node comes back as it is unless a mapping picked has a name for it or for a node above it. |
| SimpleRouteTheorems.WrappedAcceptances | ghttp/simpleroute.go:15-30 | A wrapped node's aggregated acceptances are the root-to-node concatenation, also along the wrapped parents. |
| SimpleRouteTheorems.FiledIsFound | ghttp/simpleroute.go:281-295 | A captured value is found under its key unless a later capture has the same key. |
| SimpleRouteTheorems.FiledLiterally | ghttp/simpleroute.go:384-395 | The keys, written out: "*" for a wildcard, the custom name after its prefix, or the node's name between "[gone-http]" and "_id". |
| RegistrationTheorems.RegisteredIsRouted | ghttp/simpleroute.go:161-330 | Where a pattern is laid out, a fitting request finds its last node with every parameter captured, or nothing if the pattern has two parameters in a row or is one parameter at the root, or its node is a group below a group. |
| RegistrationTheorems.AdjacentMisses | ghttp/simpleroute.go:291-299 | A pattern with two parameters in a row is never served, nor is anything registered below it: the lookahead after the first wants a child. |
| RegistrationTheorems.WildcardNeedsGroup | ghttp/simpleroute.go:203-216 | A wildcard catches the rest of a fitting request if and only if it stands below a group and no two parameters are in a row before it. |
| RegistrationTheorems.SearchFrame | ghttp/simpleroute.go:161-239 | Registering a pattern leaves the result of every request that shares no part with it. |
| RegistrationTheorems.OwnNames | ghttp/simpleroute.go:384-395 | A pattern's own parameter names may be used for every fitting request, and are the only ones if no other pattern matches. |
| RegistrationTheorems.ParameterByName | ghttp/simpleroute.go:181-200 | Under a pattern's own names, a parameter in braces, or after a colon and ending in _id, that is alone at its node is found under its name and prefix, unless a later capture has the same key. |
| RegistrationTheorems.ParameterLiterally | ghttp/simpleroute.go:181-200 | The same with parts and keys written out: {name} under "[gone-http]p:name", :name ending in _id under "[gone-http]name". |
| Patterns.Placeholders | ghttp/simpleroute.go:366-382 | A parameter is a name after a colon or in braces, and nothing else. |
| RegistrationTheorems.RouteFitting | ghttp/simpleroute.go:257-330 | Routing a fitting request of a pattern that can be served returns the pattern's node, behind whatever names, and files every parameter under its key. |
| RegistrationTheorems.Register | ghttp/simpleroute.go:161-250 | In place: after registering, every fitting request finds the node, or nothing where the pattern cannot be served; the node has the handler unless the pattern ends in an existing child; a wildcard catches what is left of every request that fits the parts before it, if and only if its parent is a group and those have no two parameters in a row; every request that shares no part is routed as before. |
| RegistrationTheorems.RouteAtRoot | ghttp/simpleroute.go:275-299 | On a new route with any pattern of one part that is a parameter or a wildcard, any request finds something if and only if the part is a wildcard and one of its first two segments spells it. |
| Ranges.ParsePrinted | ghttp/httpdispatchhandler.go:351-352 | A number printed in decimal is read back. |
| Ranges.Decimals | ghttp/httphandlertask.go:297-321 | Numbers are read and printed in decimal, digit by digit. |
| Ranges.RefusedUnlessAsked | ghttp/httphandlertask.go:274-288 | A header that is accepted has the form bytes=a-b, with no other comma or dash. |
| Ranges.MinusWraps | ghttp/httphandlertask.go:304-305 | The difference of size and length is taken modulo 2^64, as a signed number. |
| Ranges.AnyIsSome | ghttp/httphandlertask.go:293-327 | The comparison of positions and size that stands for "some byte is asked for". |
| Ranges.Served | ghttp/httphandlertask.go:290-327 | Exactly what is served of content: plus signs aside, a range that asks for some byte there is and has no last position or suffix too large; then exactly the bytes asked for. |
| Ranges.AgreesIff | ghttp/httphandlertask.go:274-330 | For every header and content that is not empty: the parser does what the header asks for, unless its two parts are misread (a plus sign or a number too large, but not both, where some byte is asked for), or some byte is asked for with the unit in other letters or with a comma. |
| Ranges.PartsAgreeIff | ghttp/httphandlertask.go:290-330 | For two parts: the parser does what they ask for, unless they ask for some byte and have a plus sign or a number too large, but not both. |
| Ranges.OthersAgreeIff | ghttp/httphandlertask.go:275-288 | Every header without two parts is refused, which is what it asks for unless it asks for some byte; only one with the unit in other letters or with a comma can. |
| Ranges.OneElement | ghttp/httphandlertask.go:281-283 | Without a comma, the bytes asked for are those of one range after the equals sign. |
| Ranges.CapitalIsOverlooked | ghttp/httphandlertask.go:275-277 | Bytes=0-4 asks for the first byte of any content and is refused. |
| Ranges.CommaIsOverlooked | ghttp/httphandlertask.go:281-283 | So does, and is, a range with an empty list element beside it. |
| Ranges.SignedIsServed | ghttp/httphandlertask.go:316-320 | bytes=+1-+2 is served although it is no range. |
| Ranges.TooLargeIsRefused | ghttp/httphandlertask.go:320-323 | For content of any size, a last position of 2^63 is refused although every byte is asked for. |
| Ranges.ValidNeedsContent | ghttp/httphandlertask.go:293-305 | A valid result denotes bytes of the content if and only if there is content. |
| Ranges.SuffixOfNothing | ghttp/httphandlertask.go:297-305 | The suffix range of empty content that is called valid. |
| Ranges.PrintedRange | ghttp/httphandlertask.go:315-327 | bytes=a-b in decimal is understood and clipped to the content. |
| Ranges.HandleAutoRange | ghttp/httpdispatchhandler.go:328-360 | The response is changed in place as AutoRange says, on every path. |
| Ranges.AutoRangeIsDue | ghttp/httpdispatchhandler.go:328-360 | That reply is due: untouched where ranges are off or there is no body, offered where none is asked for, cut to exactly the bytes asked for with their place and length, or refused with the body left. |
| Ranges.RepliesLiterally | ghttp/httpdispatchhandler.go:328-360 | The replies, written out: status, the three headers and the body, and nothing else changed. |
| Ranges.ContentRangeGivesBack | ghttp/httpdispatchhandler.go:351 | Start, end and size can be read back from the Content-Range value. |
| Ranges.FetchTiles | ghttp/httpdispatchhandler.go:345-353 | Consecutive ranges over any partition are served as partial content of their own length and concatenate to the content. |

## Left out

- Sockets, TLS, HTTP and websocket libraries, timers, pools, sessions, gzip, static files, logging: no state worth a proof here.
- SimpleRoutes.SimpleRoute.SetEndpoint: the handler's Register callback is not modelled; it has no effect on routing.
- SetGroup, SetRoot and String of SimpleRoute: SetGroup is SetEndpoint without parameters and would repeat its proofs.
- Routes.Node.Add: one method for the nine Add* builders, which differ in the receiver and in marking recursive points; their Register callback is left out.
- Pipeline.Context.FireRead: the scripts do not change the pipeline; PipelineChanges.PassWhileChanging covers handlers that do, without panics meanwhile. The other inbound and the outbound events follow the same links and would repeat the proof.
- Pipeline.Context.FireErrorCaught: the same.
- PipelineChanges.PassWhileChanging: nothing is said of contexts added while the event is under way, but that none is visited twice.
- Delivery.EscapesIff: a handler's script is the same at every call, so nothing is said of an ErrorCaught that panics the first time only.
- Delivery.ErrorGoesToHead: what the head does with an error, which is to log it, is not modelled.
- PipelineTheorems.RunAll: RemoveFirst, Clear and initializers cut the links of what they drop, so the promise about removed contexts is about the other operations only.
- Pipeline.Pipeline.Remove: the Removed callback is taken to do nothing, as it does by default.
- WriteProtocol.InvStep: the channel implements UnsafeWrite; futures are not cancelled or completed by third parties.
- WriteOrder.OrderedOutcomes: channels that are activated during the run are covered by WriteOrder.CompleteUnlessContradicted instead.
- Shutdown.OneShot: one activation per channel, before any deactivation; the code promises nothing for reactivation. Only server channels have an UnsafeClose of their own, so a child's close future completes in its callback.
- Shutdown.ShutdownOrder: children keep the serial under which they were stored, as the network channels do; a plain DefaultChannel gets a new one when it is initialised (channel/serverchannel.go:69-77) and would stay in the map.
- SimpleCodec.SimpleCodec.Write: only the branch for byte buffers; other objects are logged and dropped. The codec for UDP is the same machine.
- SimpleCodec.SimpleCodec.Checkpoint: the mutex around compaction is left out, since one goroutine reads a channel.
- SimpleCodec.SimpleCodec.Read: a body length of 2^63 or more becomes negative in the request to the buffer, which is taken to abort like a short read.
- Ranges.HandleAutoRange: headers are a map with exact names; the canonical spelling of names is left out.
