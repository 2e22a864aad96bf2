# A model of libzmq's engine

This project models the stateful core of the libzmq 4.3.2 sources vendored under `libs/zeromq`, and proves what that
code is for: what every step keeps, what holds over whole runs, and that the fast forms do what simple ones would.
Code that works in place is modelled in place: classes over their fields, loops with invariants, arrays of bytes.
`dafny verify dfyconfig.toml` checks all of it.

- **Subscriptions** (`MultiTrie`, `MultiTrieRuns`). The compressed trie that switches between no child, one child and
  a table of children is a set of pairs of prefix and pipe; adding, removing and looking up do to that set what plain
  set operations would, and no internal assertion can fail.
- **Ownership** (`Ownership*`). Objects in different threads form a tree and shut down by plug, own, term_req, term and
  term_ack. `Ownership` gives one step of an object, `OwnershipInvariant` says where a child can be,
  `OwnershipSteps` and `OwnershipEnds` prove that each step keeps it, and the other modules state what follows for
  whole runs. `OwnershipCode` holds the operations as they update the objects.
- **Pipes** (`Pipes`, `Framing`, `RoundRobin`, `Distribution*`, `FairQueue*`, `LoadBalancer*`). The arrays of pipes cut
  into prefixes by swapping, for sending to many, receiving from many and sharing work out.
- **Messages** (`Messages`, `MessageHands`, `MessageRuns`, `ReceiveBuffers`, `ReceiveBufferRuns`, `ReceivedHands`,
  `ReceivedMessages`). Reference counts of message contents and of the buffers messages are received into, apart and
  together. `MessageHands` and `ReceivedHands` tell without any counter which handle holds which content after given
  operations, and which content lies in which buffer; the counters are proved against that.
- **Engines** (`Decoder`, `Encoder`, `Wire`, `V2Framing`). The resumable decoder and encoder over any step machine, and
  ZMTP 2.0 framing as their instance, from the sender's messages to the receiver's.
- **Handshake metadata** (`Metadata`, `Mechanism`). Printing and parsing of the properties peers exchange.
- **Context** (`Context`, `ContextRuns`, `Inproc`, `InprocHistory`, `InprocCode`). Mailbox slots, shutting down, and how sockets of one
  process find each other.

`Sequences` and `Bytes` hold what the others share. Each atomic operation and each section under a lock is one step,
and steps of different threads interleave freely. A mailbox delivers the commands to one object in the order sent. A
frame is a number and the flag that tells whether more frames of its message follow. Whether a pipe has room is read
off its state; whether memory and threads are to be had is a parameter.

## Model

| member | source | states |
|---|---|---|
| `MultiTrie.Mtrie.Add` | libs/zeromq/src/generic_mtrie_impl.hpp:76-149 | The set of pairs gains exactly the pair given, the answer tells whether the prefix had none, and the trie keeps its shape: counts right, tables trimmed, no redundant node |
| `MultiTrie.Mtrie.RmEntry` | libs/zeromq/src/generic_mtrie_impl.hpp:325-421 | The set loses exactly the pair given; not_found, last_value_removed or values_remain is answered if and only if the pair was not there, the prefix has no pair any more, or still has one; the shape is kept |
| `MultiTrie.Mtrie.Rm` | libs/zeromq/src/generic_mtrie_impl.hpp:154-316 | Every pair of the pipe goes and no other; the callbacks name exactly the paths owed, all that had the pipe or only those left empty, in order and without repetition, out of a shared buffer that every frame may reallocate |
| `MultiTrie.Mtrie.Match` | libs/zeromq/src/generic_mtrie_impl.hpp:425-467 | The bag of pipes signalled is the pairs whose prefix begins the data |
| `MultiTrie.Mtrie.IsRedundant` | libs/zeromq/src/generic_mtrie_impl.hpp:469-472 | No pipes and no live children means that nothing at all is subscribed below |
| `MultiTrieRuns.MatchesCounts` | libs/zeromq/src/generic_mtrie_impl.hpp:425-467 | That bag holds a pipe once for each prefix of the data it is subscribed to |
| `MultiTrieRuns.OrderedOnce` | libs/zeromq/src/generic_mtrie_impl.hpp:154-316 | Callbacks in visiting order never name a path twice |
| `MultiTrieRuns.Run` | libs/zeromq/src/generic_mtrie.hpp:44-77 | The trie and the set of pairs stay together over any run of its operations |
| `MultiTrieRuns.LastWriteWins` | libs/zeromq/src/generic_mtrie.hpp:44-77 | After any run a pair is subscribed exactly when a step added it and no later one removed it |
| `MultiTrieRuns.ShapeFromEntries` | libs/zeromq/src/generic_mtrie_impl.hpp:226-316 | Two tries with the same pairs have the same nodes, down to the last, with the same pipes, ranges and counts: removing gives back all the room that adding took |
| `OwnershipRuns.NothingForTheDead` | libs/zeromq/src/own.cpp:155-207 | In every reachable state no command, reserved number or launch waits for a destroyed object, and no command that waits trips an assertion |
| `OwnershipRuns.ChildrenFirst` | libs/zeromq/src/own.cpp:118-130 | An owner is never destroyed before its child, and ownership has no cycles |
| `OwnershipRuns.OnePlace` | libs/zeromq/src/own.cpp:98-190 | A child is in exactly one stage of its life as its owner sees it, and the owner's count of acknowledgements awaited is the number of children in the stages that owe one |
| `OwnershipRuns.TerminatedOnce` | libs/zeromq/src/own.cpp:155-171 | Over any run an object is told to terminate at most once |
| `OwnershipProgress.ShutdownCompletes` | libs/zeromq/src/own.cpp:81-207 | Once an object terminates and nobody launches, reserves or asks any more, every order of deliveries is bounded, and when it is exhausted the whole subtree is destroyed |
| `OwnershipProgress.DeliveriesRunOut` | libs/zeromq/src/object.cpp:71-168 | Each delivery lowers one measure of the work left, whichever thread is scheduled |
| `OwnershipProgress.DeliveriesGoOn` | libs/zeromq/src/object.cpp:71-168 | As long as a command waits one can be delivered, so the deliveries can be driven to the end |
| `OwnershipFate.Fate` | libs/zeromq/src/own.cpp:98-207 | Who is left when all commands have been delivered, in whatever order: exactly the objects that are not terminating, have no request with their owner that comes when it owns them, and whose owner is left |
| `OwnershipRequests.RequestHeededIff` | libs/zeromq/src/own.cpp:98-148 | A child that asks to be terminated is gone in the end if and only if its owner is not between the two sends of launching it, or goes itself; whatever else is in flight or shutting down |
| `OwnershipRequests.TermChildHeededIff` | libs/zeromq/src/own.cpp:93-96 | An owner that terminates a child itself succeeds if and only if it has learnt of the child, or goes itself |
| `OwnershipRequests.LostRequest` | libs/zeromq/src/own.cpp:81-91 | A reachable run in which a child that has been plugged in asks in between, and lives on with nothing left to deliver |
| `OwnershipPromises.PromiseKept` | libs/zeromq/src/own.cpp:66-79 | Over any run, as long as more commands have been promised to an object by inc_seqnum than sent, whatever is terminated and delivered meanwhile, the object is there; and so it is while one that was sent waits |
| `OwnershipCode.Objects.IncSeqnum` | libs/zeromq/src/own.cpp:66-70 | One more command is to be waited for, and nothing else changes |
| `OwnershipCode.Objects.StartTermination` | libs/zeromq/src/own.cpp:155-171 | The loop over the owned set, in whatever order, sends each child one term and leaves what one step of the specification leaves |
| `Pipes.PipeArray.Erase` | libs/zeromq/src/array.hpp:96-106 | The last item takes the place of the erased one, and all stored positions agree with the places |
| `Distribution.Dist.Match` | libs/zeromq/src/dist.cpp:67-80 | Between messages the matching set gains exactly the pipe given, if it is eligible |
| `Distribution.Dist.ReverseMatch` | libs/zeromq/src/dist.cpp:82-96 | Between messages the swap loop leaves as matching exactly the eligible pipes that were not |
| `Distribution.Dist.Attach` | libs/zeromq/src/dist.cpp:50-65 | A pipe that comes in the middle of a message is eligible, but not active |
| `Distribution.Dist.PipeTerminated` | libs/zeromq/src/dist.cpp:103-121 | The pipe leaves every set it was in, and no other pipe leaves or joins one |
| `Distribution.Dist.ActivatedPipe` | libs/zeromq/src/dist.cpp:123-137 | A pipe becomes eligible again at once, and active only when no message is under way |
| `Distribution.Dist.Distribute` | libs/zeromq/src/dist.cpp:162-202 | Although each refusal reorders the array walked, each matching pipe is offered the frame exactly once and no other pipe at all; those that refuse leave all three sets |
| `Distribution.Dist.SendToMatching` | libs/zeromq/src/dist.cpp:145-160 | The same for a frame sent, which is then the last one in exactly the matching pipes that had room; after the last frame all eligible pipes are active |
| `DistributionHistory.ByHistory` | libs/zeromq/src/dist.cpp:50-160 | After any run a pipe is eligible exactly if it has come, or come back, and not gone or refused a frame since; and active exactly if no message is under way in whose middle it came |
| `DistributionHistory.Delivery` | libs/zeromq/src/dist.cpp:139-202 | Sending to all: a pipe takes as many frames as were sent while it was active and did not refuse |
| `DistributionHistory.FromThenOn` | libs/zeromq/src/dist.cpp:50-65 | So a pipe attached between messages that neither goes nor refuses takes every frame from then on, and one attached in the middle of a message every frame after its end |
| `DistributionHistory.MatchByHistory` | libs/zeromq/src/dist.cpp:67-101 | The pipes that match are told by what was matched, turned round, unmatched, gone and refused, and each frame is offered to exactly those |
| `DistributionRuns.NoHeadlessMessage` | libs/zeromq/src/dist.cpp:50-160 | Over any run no pipe takes a later frame of a message whose first frame it has not |
| `DistributionRuns.OutUntilTheEnd` | libs/zeromq/src/dist.cpp:123-160 | A pipe that came late or refused a frame is offered nothing until the message has ended |
| `DistributionRuns.WholeUnlessCutOff` | libs/zeromq/src/dist.cpp:209-223 | A pipe holds whole messages and at most the open beginning of the one being sent, if and only if it never left in the middle of one |
| `DistributionRuns.StaleHead` | libs/zeromq/src/dist.cpp:209-223 | A run in which a pipe has a message behind the head of another |
| `DistributionShares.Distribute` | libs/zeromq/src/dist.cpp:162-223 | The loop over the pipes and the reference counts together: whatever handles readers close meanwhile, the content ends with one reference for each handle still open, of those that shared it and those of the pipes that took the frame |
| `RoundRobin.Fair` | libs/zeromq/src/fq.cpp:83-150 | An active pipe that can always take its turn waits for at most size - 1 whole messages of others, though pipes are swapped out, come back and join |
| `RoundRobin.CurrentKept` | libs/zeromq/src/fq.cpp:52-64 | A termination takes the turn from its pipe if and only if that pipe was the last active one and is moved to a place other than the first |
| `RoundRobin.ActivatedIff` | libs/zeromq/src/lb.cpp:71-76 | With a pipe left that is not active: activating one makes that one active, and no other, if and only if it was not active; the turn moves if and only if it was its turn |
| `FairQueue.Fq.RecvPipe` | libs/zeromq/src/fq.cpp:83-126 | In the middle of a message the frame comes from the pipe that has the turn; else from the first in turn that has one; none if and only if no pipe at all has one; other pipes lose nothing |
| `FairQueue.Fq.HasIn` | libs/zeromq/src/fq.cpp:128-150 | No is answered only when no active pipe has anything; no pipe that has something is put out of action |
| `FairQueueRuns.WholeMessages` | libs/zeromq/src/fq.cpp:83-126 | Over any run in which no termination takes the turn, what comes out is whole messages one after the other, each pipe's in its order, and what has not come out is still in the pipe |
| `FairQueueRuns.TerminateInvIff` | libs/zeromq/src/fq.cpp:52-69 | A termination keeps the invariant behind that if and only if it keeps the turn |
| `FairQueueRuns.TerminationOutcome` | libs/zeromq/src/fq.cpp:52-126 | What the next read gives after a termination: the next frame of the message if the turn is kept, and if not a frame of another message, or the failure of an assertion, or nothing |
| `FairQueueMixUp.MixedUp` | libs/zeromq/src/fq.cpp:52-69 | A reachable state in which it happens: the message of another pipe comes out behind a first frame |
| `FairQueueFairness.Fair` | libs/zeromq/src/fq.cpp:71-150 | The bound on waiting in terms of messages that really come out |
| `LoadBalancer.Lb.SendPipe` | libs/zeromq/src/lb.cpp:83-158 | A frame taken is the last in one pipe and no other pipe changes; with -2 exactly the part of the message is taken back; -1 is answered if and only if no message is being sent or dropped and no pipe at all has room, and changes no pipe; every pipe that can be written to holds whole messages, and the current one the part being sent |
| `LoadBalancer.Answers` | libs/zeromq/src/lb.cpp:83-158 | When -1, -2 and 0 are answered, and that a frame goes to an active pipe that has room, to that of its message if there is one, or is dropped exactly while the rest of a message is |
| `LoadBalancerRuns.WholeOrGivenUp` | libs/zeromq/src/lb.cpp:51-158 | Over any run in which no termination takes the turn, of the messages the caller got rid of each went through one pipe, whole and in order, but one for each that was given up |
| `LoadBalancer.Lb.PipeTerminated` | libs/zeromq/src/lb.cpp:51-69 | The rest of a message is dropped if its pipe has gone; the same holds of all pipes, if the turn is kept |
| `LoadBalancer.Lb.HasOut` | libs/zeromq/src/lb.cpp:160-180 | No is answered only when no active pipe has room |
| `LoadBalancer.TerminatedFitIff` | libs/zeromq/src/lb.cpp:51-69 | The pipes that stay are in order if and only if the turn is kept |
| `LoadBalancer.TerminationOutcome` | libs/zeromq/src/lb.cpp:51-158 | Where the next frame goes after a termination in the middle of a message, in each case |
| `LoadBalancer.MixedUp` | libs/zeromq/src/lb.cpp:51-69 | A run in which the end of a message goes to another pipe than its beginning |
| `LoadBalancer.RefusedStays` | libs/zeromq/src/lb.cpp:105-131 | A pipe that refuses a later frame stays active with the turn; it can be swapped when it is activated then if and only if some pipe is not active, and the first of those becomes active and has the turn |
| `LoadBalancer.NoPlaceLeft` | libs/zeromq/src/lb.cpp:105-131 | A run after which the only pipe has refused a later frame, and there is none to swap it with |
| `LoadBalancer.Lb.Activated` | libs/zeromq/src/lb.cpp:71-76 | The swap is within the array if and only if some pipe is not active; the pipe changes places with the first of those, and all stays in order unless it is the one a message is going through |
| `Messages.Msg.Close` | libs/zeromq/src/msg.cpp:215-266 | The content loses one holder, and is given back if that was the last |
| `Messages.Msg.Move` | libs/zeromq/src/msg.cpp:268-287 | The handle takes over what the other one held; counts of both contents stay right, and nothing changes when one of the two is closed |
| `Messages.Msg.Copy` | libs/zeromq/src/msg.cpp:289-322 | Both handles hold the content and know that it is shared; what the target held loses a holder |
| `Messages.Msg.AddRefs` | libs/zeromq/src/msg.cpp:484-505 | References taken in advance are counted, whether the content was shared before or not |
| `Messages.Msg.RmRefs` | libs/zeromq/src/msg.cpp:507-549 | References given back are counted off, and the content is given back exactly when none is left |
| `MessageRuns.GivenBackOnce` | libs/zeromq/src/msg.cpp:55-322 | After any run of all operations on any handles, from none: each handle is of the kind and holds the content that the operations alone tell, numbered as made; a content has been given back, and then once, if and only if no handle holds it; the counter of a shared one is the number of its holders; one that is not flagged as shared has one holder |
| `MessageHands.Holders` | libs/zeromq/src/msg.cpp:55-322 | Who holds a content after one more operation on any run: a copy adds its target, a move puts it in place of its source, closing takes a handle out, a new content has one holder, and distributing puts the handles of the pipes that took the message in place of the sender's, but those that readers have closed |
| `MessageRuns.Pool.Step` | libs/zeromq/src/msg.cpp:55-322 | One operation by the reference counts does to the handles what the rules without counters say, and contents given back before stay so |
| `MessageRuns.Pool.AccountedFor` | libs/zeromq/src/msg.cpp:215-322 | The same of every state that keeps the invariant of the runs |
| `MessageRuns.Pool.DoDistribute` | libs/zeromq/src/msg.cpp:484-549 | References taken in advance, handed out and given back, while readers close handles: the handles end as the rules without counters say, the final count is the number still open, and without readers the number handed out in place of one; contents given back before stay so |
| `ReceiveBuffers.LaidBound` | libs/zeromq/src/decoder_allocators.cpp:37-47 | Messages that lie in a buffer without overlap and are not short are at most as many as fit, so there is a content slot for each |
| `ReceiveBuffers.Allocator.Allocate` | libs/zeromq/src/decoder_allocators.cpp:64-103 | The block handed out is fresh, or the old one with no message in it, though messages are closed in other threads meanwhile |
| `ReceiveBuffers.Allocator.Create` | libs/zeromq/src/v2_decoder.cpp:123-138 | A message takes a slot and a reference if and only if it is not short enough to be copied, and the slot exists |
| `ReceiveBufferRuns.FreedOnce` | libs/zeromq/src/decoder_allocators.cpp:64-144 | After any run a block has been freed, and then once, if and only if, as the operations tell, the allocator has let go of it and no message lies in it; its counter is the number of references |
| `ReceiveBufferRuns.TakenVacant` | libs/zeromq/src/decoder_allocators.cpp:64-103 | After any operations the decoder gets an empty block, the one it had if and only if no message lay in that |
| `ReceiveBufferRuns.LetGo` | libs/zeromq/src/decoder_allocators.cpp:105-144 | A block it has let go of never comes back to it, and gets no more messages |
| `ReceivedHands.NothingOverwritten` | libs/zeromq/src/decoder_allocators.cpp:64-103 | The decoder never gets a block in which a message lies that some handle holds, and gets its own again if and only if none does |
| `ReceivedHands.LaidInBlock` | libs/zeromq/src/v2_decoder.cpp:123-138 | A message received in place lies in the decoder's block and has the one handle it was received into; a short one lies nowhere |
| `ReceivedMessages.Inbox.BlockAccounted` | libs/zeromq/src/decoder_allocators.cpp:133-144 | A block counts the contents that lie in it and have not been given back, and has been freed, once, exactly when the decoder has let go of it and no handle holds a message in it |
| `ReceivedMessages.FreedWithMessages` | libs/zeromq/src/v2_decoder.cpp:123-138 | After any run of receiving, of everything that can be done with messages, and of the decoder giving up its block: each block counts the contents in it that, as the steps alone tell, some handle holds, and has been freed, once, exactly when there are none and the decoder has let go of it |
| `Decoder.ChunksDoNotMatter` | libs/zeromq/src/decoder.hpp:102-150 | For any step machine, any two ways to cut the same bytes give the same messages and the same state |
| `Decoder.Engine.Decode` | libs/zeromq/src/decoder.hpp:102-150 | One call, copying or in place, consumes a beginning of the bytes and answers what the machine answers for it |
| `Decoder.Engine.DecodeAll` | libs/zeromq/src/decoder.hpp:102-150 | Calls until the bytes are used up give what feeding them one by one gives |
| `Decoder.Engine.GetBuffer` | libs/zeromq/src/decoder.hpp:74-94 | Room is offered in the message itself if and only if it needs at least a buffer full |
| `Encoder.Engine.Encode` | libs/zeromq/src/encoder.hpp:76-129 | What is returned and what is still to come are together what was to come; the message is released only when nothing of it is left |
| `Encoder.Engine.Send` | libs/zeromq/src/encoder.hpp:76-129 | With any sizes of buffers the slices add up to the message's encoding |
| `Encoder.SendAll` | libs/zeromq/src/encoder.hpp:76-136 | And those of many messages to the stream of them |
| `V2Framing.MachinesProductive` | libs/zeromq/src/v2_decoder.cpp:62-167 | The two step machines never loop without moving a byte |
| `Wire.PutByte` | libs/zeromq/src/wire.hpp:62-101 | Integers are written with the highest byte first |
| `V2Framing.Layout` | libs/zeromq/src/v2_encoder.cpp:50-80 | The bytes of a message: the bits for more, large and command, the size in one byte or in eight with the highest first, and the body |
| `V2Framing.RoundTrip` | libs/zeromq/src/v2_encoder.cpp:50-80 | Decoding the encoding of messages gives them back, flags, short and long sizes and empty bodies included |
| `V2Framing.TooLong` | libs/zeromq/src/v2_decoder.cpp:94-108 | The messages before one that is too long come out, and nothing after them |
| `V2Framing.Transmit` | libs/zeromq/src/v2_decoder.cpp:62-167 | Encoder and decoder engines together, with any room for sending and any pieces received: the messages arrive as they were sent |
| `Metadata.AcceptedIff` | libs/zeromq/src/mechanism.cpp:231-284 | Exactly these bytes are accepted: properties none of which is refused, and then perhaps the beginning of one, cut off at one of two places |
| `Metadata.NameAlonePasses` | libs/zeromq/src/mechanism.cpp:244-255 | A name without a value is accepted though it is no list of properties |
| `Metadata.Handshake` | libs/zeromq/src/mechanism.cpp:162-191 | What a peer prints is accepted if and only if the two socket types go together, and then exactly its properties and its routing id are learnt |
| `Metadata.Compatible` | libs/zeromq/src/mechanism.cpp:304-360 | Which socket types accept each other, pair by pair |
| `Metadata.NamesSent` | libs/zeromq/src/mechanism.cpp:76-160 | The bytes of the names of socket types and properties that are sent |
| `Metadata.Example` | libs/zeromq/src/mechanism.cpp:117-178 | The bytes of the properties of a DEALER with an identity: each name behind its length, each value behind its length in four bytes |
| `Metadata.IdentitySaid` | libs/zeromq/src/mechanism.cpp:162-178 | An identity is sent if and only if the socket is a REQ, DEALER or ROUTER |
| `Metadata.CheckIsMutual` | libs/zeromq/src/mechanism.cpp:304-360 | One side accepts the other's type if and only if the other accepts its |
| `Mechanism.Mechanism.BasicPropertiesLen` | libs/zeromq/src/mechanism.cpp:193-212 | The length foretold is the length of what will be printed |
| `Mechanism.Mechanism.MakeCommandWithBasicProperties` | libs/zeromq/src/mechanism.cpp:214-229 | The command is the prefix and the properties, of exactly the size allocated, so no capacity assertion fails |
| `Mechanism.Mechanism.ParseMetadata` | libs/zeromq/src/mechanism.cpp:231-284 | The loop over the bytes gives the verdict and the properties the recursive reading gives, and reads only within its bytes |
| `Context.Ctx.Start` | libs/zeromq/src/ctx.cpp:279-349 | The slots are divided among threads and the pool of empty ones, or all taken back; the I/O threads made are added to the list in either case |
| `Context.StartedTwice` | libs/zeromq/src/ctx.cpp:312-349 | A second start after one that failed midway, which leaves a thread in the list twice |
| `Context.Ctx.CreateSocket` | libs/zeromq/src/ctx.cpp:351-389 | A socket is made if and only if the context is not terminating, could be started and has fewer sockets than allowed, and it can be made; slots stay divided |
| `Context.Ctx.DestroySocket` | libs/zeromq/src/ctx.cpp:391-407 | Its slot is free again, the other sockets keep theirs, and with the last one the reaper is asked to stop |
| `Context.Ctx.TerminateBegin` | libs/zeromq/src/ctx.cpp:131-190 | The assertion about sockets for pending connections holds if and only if there is memory for them and they and the sockets there are do not exceed the limit; if so, each socket is told to stop once, however often it comes |
| `Context.NoSlotLeft` | libs/zeromq/src/ctx.cpp:135-148 | With a limit of one socket and that one waiting for its peer, the assertion fails |
| `Context.SlotsCounted` | libs/zeromq/src/ctx.cpp:351-407 | Empty slots and sockets always add up to the limit |
| `ContextRuns.TerminatingIff` | libs/zeromq/src/ctx.cpp:131-224 | After any run the context is shutting down if and only if that was asked for after a socket had been made, and it knows the sockets made and not destroyed since |
| `ContextRuns.StoppedOnce` | libs/zeromq/src/ctx.cpp:131-224 | Over any mix of shutting down, terminating again and closing, the reaper is asked to stop once, when no socket is left, and answers once, with nothing left to do |
| `ContextRuns.NotStuck` | libs/zeromq/src/reaper.cpp:118-149 | While the wait for the reaper goes on, there is a socket open or taken over, or a command to process |
| `ContextRuns.WorkShrinks` | libs/zeromq/src/reaper.cpp:118-149 | Each step of closing lowers one measure, so the wait ends when all sockets are closed |
| `Inproc.JoinedOnce` | libs/zeromq/src/ctx.cpp:507-669 | However binders and connectors interleave: a connection is made at most once, and once exactly when it no longer waits; none waits at a registered address unless its binder is still to connect it |
| `Inproc.NothingComes` | libs/zeromq/src/ctx.cpp:557-658 | A socket has counted all commands sent to it if and only if none is on its way, no find holds a place for one, and no connection of its is pending |
| `InprocHistory.EndpointsByHistory` | libs/zeromq/src/ctx.cpp:507-555 | After any run the socket registered at an address is the one that asked for it while it was free, and has not given it up since |
| `InprocHistory.RightOnes` | libs/zeromq/src/ctx.cpp:557-658 | Every place held and every bind command is for the socket that was registered at the address when the connection came upon it, a connection is pending because nobody was, and the one told that it is connected is the socket that called |
| `InprocCode.Registry.FindEndpoint` | libs/zeromq/src/ctx.cpp:557-576 | The socket found, and no other, counts one more command to come |
| `InprocCode.Registry.ConnectPending` | libs/zeromq/src/ctx.cpp:600-613 | The loop connects exactly what is pending for the address, in the order in which it came, and keeps the rest |
| `InprocCode.Registry.PendConnection` | libs/zeromq/src/ctx.cpp:578-598 | An address bound in the meantime is connected to at once; else the connection is pending |

## Findings

Properties one would expect and that do not hold of the code, with an input and the exact condition.

- `own.cpp:98-108` takes a term_req from a child it does not own yet for one already served. A child that asks between
  the send_plug and the send_own of `launch_child` goes only if its owner does (`OwnershipRequests.LostRequest`);
  one that asks at any other time goes (`OwnershipRequests.RequestHeededIff`).
- `fq.cpp:52-64` sets `_current` to 0 although the swap has moved the current pipe to the place of the one that
  terminates. In the middle of a message its rest is then cut off from its beginning (`FairQueueMixUp.MixedUp`,
  `FairQueueRuns.TerminationOutcome`), exactly when the pipe whose turn it is was the last active one and the place is
  active and not the first (`RoundRobin.CurrentKept`).
- `lb.cpp:51-69` does the same: the rest of a message goes to another pipe (`LoadBalancer.MixedUp`), under the same
  condition (`LoadBalancer.TerminatedFitIff`).
- `lb.cpp:108-128` leaves a pipe that refuses a later frame among the active ones; lowering ZMQ_SNDHWM in the middle of
  a message can make a pipe refuse one. When it has room again, `activated` makes another pipe active instead
  (`LoadBalancer.RefusedStays`, `RoundRobin.ActivatedIff`), and swaps with an index past the end of the array if there
  is no other (`LoadBalancer.NoPlaceLeft`).
- `dist.cpp:209-223` does not take back the frames of a pipe that refuses a later one. The next message is then written
  behind the head that stays (`DistributionRuns.StaleHead`, `DistributionRuns.WholeUnlessCutOff`): a pipe holds whole messages exactly as long
  as it is not put out, in the middle of a message it has begun.
- `mechanism.cpp:248-255` ends the loop without an error when the bytes end after a name or after the length of a value
  (`Metadata.NameAlonePasses`, `Metadata.AcceptedIff`), although `mechanism.hpp:111-114` describes a list of properties
  and an error for everything else.
- `ctx.cpp:135-148` can abort the process in `zmq_ctx_term`: each pending inproc connection takes a socket of its own
  for a moment, and there may be no slot left (`Context.NoSlotLeft`, `Context.Ctx.TerminateBegin`).
- `ctx.cpp:341-348` takes back the slots when an I/O thread cannot be made, but not the list of those made. After another
  start the list has threads whose slots belong to others (`Context.StartedTwice`), exactly when a start failed
  after its first I/O thread (`Context.Ctx.Start`).

## Left out

- LoadBalancer.Lb.Activated: what a swap past the end of the array does is not modelled, only when it happens.
- OwnershipRequests.RequestHeededIff: with another launch half done, or a command promised and never sent, deliveries come to no end that could be judged.
- ReceivedMessages.FreedWithMessages: that messages are closed between the two halves of giving up a block is part of `ReceiveBufferRuns.FreedOnce`, not of this.
- Ownership: objects are records of a table and not class instances; an inbox for each object in place of one mailbox for each thread, which leaves more interleavings open; a set of owned objects has no order.
- Overridden `process_term` and `process_destroy` of sockets and sessions: pipes that have to end first, linger timers; destructors.
- The internals of mailboxes, `ypipe_t`, signalers and `pipe_t`: a pipe is a bounded box of frames, read and written whole.
- Conflation, delimiters and credentials in pipes, subscription forwarding and the rest of the socket types.
- Which of the message types that share nothing a message has; message metadata, groups and routing ids; moving or copying a message to itself.
- Version 1 framing, the first ZMTP greeting, heartbeats, and step machines of other protocols, for which the engines are proved with any machine.
- The reuse of the decoder's small header buffer: each piece of a header is read into a block of its own.
- CURVE, GSSAPI and ZAP; PLAIN and NULL beyond their metadata.
- Reallocation and clearing of tables are operations on sequences; running out of memory is modelled only for sockets and threads.
- Clipping the number of sockets to what the poller allows, socket options, thread parameters, fork and VMCI.
- Weak memory ordering.
