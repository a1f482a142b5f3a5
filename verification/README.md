# Verified model of the MQTT C client's protocol core

This project models the parts of the Eclipse Paho MQTT C client that decide whether messages arrive, in Dafny, and
proves what they keep. Run `dafny verify dfyconfig.toml` in this directory.

**The exchange and its crash recovery** (`Packets`, `MsgIds`, `Exchange`, `ExchangeProofs`, `Qos1Proofs`,
`Persistence`, `Handlers`, `CrashProofs`, `RestartOrder`, `Session`, `SessionProofs`, `CrashRuns`, `Qos1Sessions`,
`Qos1Certainty`, `Completion`, `ProtocolClient`, `Publications`). `ProtocolClient` is the client as a class: its
handlers update lists, store and socket in place and are proved against the functions of `Handlers` and `Persistence`,
which give a handler's store operations and writes in order; what each handler does to list, store and socket is also
stated outright, without them. `Session` runs a sender one operation at a time, with a crash possible between any two,
against a receiver over lossy channels; every new message gets the id that the source's search finds. `Exchange` is
the same protocol without a store. `SessionProofs` shows that every session is an exchange, and so inherits what is
proved there. `Completion` says which messages a session can still deliver and let go. Tags on messages and the count
of PUBACKs owed are history: no handler reads them. `Publications` is the global list of stored publications with
every list that points into it.

**The red-black tree** (`Shapes`, `Colors`, `Grafts`, `Balance`, `Fixups`, `Orders`, `Tree`, `TreeTheorems`,
`Replacing`). `Tree` is the pointer tree, nodes rewritten in place; a ghost picture of its links, annotated with
in-order sequences and black heights, carries the proofs.

**Resumable input and output** (`Frames`, `SocketBuffers`, `Reads`, `PacketReading`, `PacketWriting`, `WriteRuns`).
The system calls answer as any function of their number says: they take or deliver any part of what is offered or
asked for, nothing for now, or an error; sockets are positive numbers, as 0 marks a free queue in the code.

**Codecs and primitives** (`Codec`, `Properties`, `PropertyLists`, `PublishPackets`, `PublishSending`, `WireFormat`,
`Sha1`, `Sha1Example`, `Utf8`, `LinkedLists`, `Base64`). `WireFormat` states the byte layouts with their numbers, and
`Sha1Example` carries the message of the standard's example through SHA-1. Bitwise operations on bytes are written as
arithmetic where the proofs need numbers, and as bit vectors in SHA-1.

Where the code does not meet what its documentation or the standard promises, the model follows the code and the exact
condition is proved:

- ids of five digits: the removal of a finished message formats the V5 PUBREL key even for 3.1.1 clients and stops
  when it does not fit, so the message comes back after a restart (`CrashAtomic`, `CompletionSurvivesIff`,
  `ReusedIdPhaseIff`); deliveries stay exactly-once all the same (`Qos2ExactlyOnce` has no bound on ids);
- `writeInt4` takes a signed int: four-byte property values from 2^31 on are garbled unless they are multiples of
  2^24, 0xFFFFFFFF among them (`Int4Iff`, `RoundTripIff`, `NeverExpiresLost`);
- adding an equal key runs the insertion fix-up and can break the black heights (`ReplaceKeepsBalanceIff`, `AddOnce`);
- the id search never ends when nothing was assigned yet and every id is in use (`SearchEndsIff`);
- a restart keeps the sending order only when the gap around the wrap is the widest (`RestartKeepsOrderIff`);
- a QoS 1 message can be lost to a PUBACK left over from the last use of its id (`Qos1ReusedIdLost`), exactly when
  such a PUBACK can still come as it gets the id (`Qos1KeptIff`, `Qos1CertainIff`); a sender that repeats only on
  reconnect loses none (`Qos1PatientKeeps`);
- a repeated PUBREL has dup 0 and is answered only while the receiver has a record of the id: a sender whose PUBCOMP
  was lost, or whose restart put a reused five-digit id past PUBREC too early, keeps the message for ever
  (`CanFinishIff`);
- SHA-1 keeps the length in 32 bits (`PadIff`), and the Base64 length function wraps (`EncodeLengthIff`).

## Model

| member | source | states |
|---|---|---|
| SessionProofs.Qos2ExactlyOnce | src/MQTTProtocolClient.c:311-655 | Over every run of a persistent sender and a receiver (losses, reconnects, retries, id reuse, a sender crash between any two store operations and a restart in any key order), under both delivery rules, a QoS 2 message is delivered at most once, and exactly once when the sender between handlers no longer has it |
| SessionProofs.DeliversPublished | src/MQTTClient.c:1113-1167 | In every such run whatever is delivered was published, with its own content |
| SessionProofs.NoPublishAfterPubrel | src/MQTTProtocolClient.c:712-777 | In every such run no PUBLISH of an exchange is written after a PUBREL of it |
| SessionProofs.PhaseNeverBack | src/MQTTProtocolClient.c:506-511 | Once a QoS 2 message is past its PUBREC phase, or finished, no later point of the run, crashes included, has it waiting for PUBREC |
| SessionProofs.Refines | src/MQTTPersistence.c:185-355 | Every run of the store-level system is, step by step, a run of the abstract exchange, for all message ids |
| SessionProofs.RefinesOn | src/MQTTPersistence.c:185-355 | The refinement can be carried on from any point of a run without changing what came before |
| SessionProofs.FollowStep | src/MQTTProtocolClient.c:459-655 | Each store operation, write, receipt, reconnect or crash is one exchange step or none |
| SessionProofs.FollowCrash | src/MQTTPersistence.c:185-355 | A crash at any point followed by a restart is a restart the exchange allows |
| SessionProofs.ShowsPast | src/MQTTProtocolClient.c:506-511 | The store-level and the abstract notion of being past PUBREC agree |
| Qos1Sessions.Qos1PatientKeeps | src/MQTTProtocolClient.c:712-777 | In every run of the persistent, crashing sender that repeats a QoS 1 PUBLISH only when no PUBACK is owed for its id (as a sender does that repeats only on reconnect, 722), every QoS 1 message is delivered by the time the sender lets it go |
| Qos1Sessions.Qos1AsksOnceKeeps | src/MQTTProtocolClient.c:413-451 | The same for every run in which no two PUBACKs are ever owed for one id |
| Qos1Sessions.Qos1AtLeastOnce | src/MQTTProtocolClient.c:413-451 | In any run, with any repetitions and crashes, a QoS 1 message for whose id no PUBACK was owed when it was stored is delivered by the time the sender lets it go |
| Qos1Sessions.Qos1ReusedIdLost | src/MQTTProtocolClient.c:80-100 | The condition is needed: a run of store operations and writes, every id chosen by the source's rule and no crash, in which the PUBACK left over from an id's first use finishes the message that gets the id a lap later, and that message is never delivered |
| Qos1Certainty.Qos1CertainIff | src/MQTTProtocolClient.c:413-451 | For every run of the persistent sender and every continuation, crashes included: a QoS 1 message stored under an id is certain to be delivered by the time it is let go if and only if no PUBACK for the id could still come when it got it; so whenever the sender counts none owed |
| Qos1Proofs.Qos1KeptIff | src/MQTTProtocolClient.c:413-451 | For every run and every acceptable QoS 1 message: it is delivered by the time it is let go, however the run goes on, if and only if no PUBACK for its id can still come; so whenever none is owed by the sender's own count, and, when nothing written was lost, only then |
| Qos1Proofs.RunOwed | src/MQTTProtocolClient.c:413-451 | The PUBACKs that can still come are never more than the sender's own count of those owed on the present connection, and exactly those when nothing written was lost |
| Qos1Proofs.Qos1Deliveries | src/MQTTProtocolClient.c:413-451 | In every exchange run a QoS 1 message whose id was not in flight when it was given is delivered by the time the sender drops it |
| ExchangeProofs.RunInv | src/MQTTProtocolClient.c:311-655 | Every run of the exchange keeps its invariant: what is in flight, what the receiver holds and what was delivered agree with each sender phase, for every id |
| ExchangeProofs.Qos2Deliveries | src/MQTTProtocolClient.c:459-655 | At most one delivery in every exchange run, exactly one when the sender has let the message go |
| ExchangeProofs.PhaseNeverBack | src/MQTTProtocolClient.c:506-511 | Phases only move forward in every exchange run |
| ExchangeProofs.KeepsIds | src/MQTTProtocolClient.c:311-655 | Every step keeps the per-id part of the invariant |
| ExchangeProofs.KeepsInv | src/MQTTProtocolClient.c:311-655 | Every step keeps the whole invariant |
| ExchangeProofs.KeepsLog | src/MQTTProtocolClient.c:712-777 | Every step keeps the order of PUBLISH and PUBREL writes |
| ExchangeProofs.KeepsFinished | src/MQTTProtocolClient.c:607-655 | A message the sender has let go has been delivered once, whatever the step |
| ExchangeProofs.KeepsQos1 | src/MQTTProtocolClient.c:413-451 | Every step keeps the QoS 1 part of the invariant |
| ExchangeProofs.ReceiverPublishId | src/MQTTProtocolClient.c:311-405 | Receiving a QoS 2 PUBLISH keeps the invariant of its id, for both delivery rules |
| ExchangeProofs.ReceiverPubrelId | src/MQTTProtocolClient.c:528-600 | Receiving a PUBREL keeps the invariant of its id |
| ExchangeProofs.SenderId | src/MQTTProtocolClient.c:459-520 | Receiving a PUBREC, PUBCOMP or PUBACK keeps the invariant of its id |
| ExchangeProofs.RestartId | src/MQTTPersistence.c:185-355 | A restart that brings back finished messages past PUBREC keeps the invariant |
| CrashProofs.CrashAtomic | src/MQTTPersistence.c:265-332 | Stopping a handler after any operation and restarting in any key order rebuilds the unfinished messages as before the handler or as after it; once it has finished, as after it if and only if it did not complete a message with a five-digit id (any id for 3.1.1, ids the keys hold for V5) |
| CrashRuns.RunCrashAtomic | src/MQTTPersistence.c:185-355 | At every point of every run without a completed five-digit id (and, for V5, without a new one) a restart in any key order finds a store it can restore, and rebuilds the memory between handlers, the messages before or after the handler within one, and the same messages again when the restart itself was cut short |
| CrashProofs.CrashDuringRestart | src/MQTTPersistence.c:265-332 | Stopping the restart itself and restarting rebuilds the same messages |
| CrashProofs.HandlerSettles | src/MQTTPersistence.c:549-574 | After a handler that runs to its end memory and store agree if and only if it did not complete a message with a five-digit id |
| CrashProofs.HandlerCut | src/MQTTPersistence.c:549-574 | After any number of a handler's operations the store shows the state before or after, decided by its commit point |
| CrashProofs.RestoredMirrors | src/MQTTPersistence.c:185-355 | The rebuilt list holds exactly the unfinished messages of the store, in the store's phases |
| CrashProofs.RestoreIgnoresKeyOrder | src/MQTTPersistence.c:401-415 | The rebuilt list does not depend on the order in which the store lists its keys |
| CrashProofs.CompletionSurvivesIff | src/MQTTPersistence.c:549-574 | The completion of a 3.1.1 message survives a restart if and only if its id is below 10000: the removal formats a V5 PUBREL key first, and a five-digit id does not fit the key buffer |
| CrashProofs.ReusedIdPhaseIff | src/MQTTPersistence.c:549-574 | A new QoS 2 message reusing a completed id, after any operations on other ids, restarts in the right phase if and only if the id is below 10000 |
| CrashProofs.LongIdOps | src/MQTTPersistence.c:549-574 | For a five-digit id the removal touches only the first of its four keys |
| CrashProofs.DropCut | src/MQTTPersistence.c:549-574 | Cutting the removals of a completion anywhere leaves the message or removes it, never half of it, for every id |
| CrashProofs.ReleaseCut | src/MQTTProtocolClient.c:506-511 | Cutting the PUBREC handler anywhere leaves the message before or after PUBREC |
| CrashProofs.RestartCut | src/MQTTPersistence.c:318-332 | Cutting the purge of orphaned PUBRELs anywhere leaves the same unfinished messages |
| RestartOrder.RestartKeepsOrderIff | src/MQTTPersistence.c:605-642 | For ids sent within one lap, the rebuilt list is in sending order if and only if the gap between the last and the first message sent is the widest, equal gaps decided by the smaller id |
| RestartOrder.WrapIff | src/MQTTPersistence.c:605-642 | Sorting and wrapping gives the sending order back under exactly that condition |
| RestartOrder.TurnSorts | src/MQTTPersistence.c:401-415 | Turning the sending order at its wrap-around sorts it |
| Persistence.FitsExactly | src/MQTTPersistence.c:492-505 | Which keys fit the nine-byte key buffer, by kind, version and number of digits |
| Persistence.KeyIs | src/MQTTPersistence.c:492-505 | A key is the letters of its kind, a 5 for MQTT 5, a hyphen, and the id in decimal digits without leading zeros |
| Persistence.KeysDistinct | src/MQTTPersistence.c:477-505 | Different records never share a key string |
| Persistence.StemDecides | src/MQTTPersistence.c:216-275 | The prefix tests of the restore loop tell the kinds of key apart |
| MsgIds.FewOutstanding | src/MQTTProtocolClient.c:80-100 | Fewer than 65534 outstanding messages guarantee a nonzero id, a client's first id included |
| MsgIds.NoneLeftIff | src/MQTTProtocolClient.c:80-100 | 0 is returned if and only if every id but the last one assigned is in use |
| MsgIds.SearchEndsIff | src/MQTTProtocolClient.c:80-100 | The search loop ends if and only if the last id is not 0 or some id is free |
| ProtocolClient.Client.AssignMsgId | src/MQTTProtocolClient.c:80-100 | The result is the cyclically first unused id from 1 to 65535 after the last one, all ids passed over being in use, or 0 when all others are; only a nonzero result is remembered |
| ProtocolClient.Client.StartPublish | src/MQTTProtocolClient.c:165-190 | The message is listed last and waits for its first acknowledgement, its record is put under its key, and then one PUBLISH is written without dup, for every id the keys hold |
| ProtocolClient.Client.HandlePuback | src/MQTTProtocolClient.c:413-451 | A PUBACK for a listed QoS 1 message takes exactly that entry from the list, its keys from the store for ids below 10000, and writes nothing; any other changes nothing |
| ProtocolClient.Client.HandlePubrec | src/MQTTProtocolClient.c:459-520 | For a QoS 2 entry waiting for PUBREC: under 3.1.1, or with a reason code below 128, exactly one PUBREL without dup is written and the entry waits for PUBCOMP; otherwise exactly that entry is gone and nothing is written; any other PUBREC changes nothing |
| ProtocolClient.Client.HandlePubcomp | src/MQTTProtocolClient.c:607-655 | A PUBCOMP for a QoS 2 entry waiting for it takes exactly that entry from the list, its keys from the store for ids below 10000, and writes nothing; any other changes nothing |
| ProtocolClient.Client.Retries | src/MQTTProtocolClient.c:712-777 | The packets written correspond one to one, in list order, to the due entries reached, a PUBLISH with dup for a QoS 1 entry or one waiting for PUBREC and a PUBREL for one waiting for PUBCOMP; no other entry has a packet, and with room enough every due one has |
| ProtocolClient.Client.HandlePublish | src/MQTTProtocolClient.c:311-405 | A QoS 0 PUBLISH is delivered once, a QoS 1 one on a free socket delivered and answered by one PUBACK, a QoS 2 one answered by one PUBREC and recorded, with its publication under 3.1.1, delivered at once and only when new under V5; on a socket with output pending nothing changes; records, deliveries and answers are those of the exchange |
| ProtocolClient.Client.HandlePubrel | src/MQTTProtocolClient.c:528-600 | A PUBREL for a recorded id on a free socket delivers exactly the publication held (3.1.1) or nothing (V5), writes one PUBCOMP of the id, removes the record from list and store and leaves every other key; an unknown id is answered only if dup is set; on a socket with output pending nothing changes |
| ProtocolClient.Client.PutPacket | src/MQTTPersistence.c:434-520 | The record is stored if its key fits, and not otherwise |
| ProtocolClient.Client.RemoveSent | src/MQTTPersistence.c:533-580 | The removals stop at the first key that does not fit |
| ProtocolClient.Client.RemoveReceived | src/MQTTPersistence.c:533-596 | The removals of a received record stop at the first key that does not fit |
| ProtocolClient.Client.InsertOutbound | src/MQTTPersistence.c:401-415 | The loop inserts in id order |
| ProtocolClient.Client.WrapMsgID | src/MQTTPersistence.c:605-642 | The loop finds the first widest gap and the list starts again behind it |
| ProtocolClient.Client.RestorePackets | src/MQTTPersistence.c:185-355 | The loop rebuilds the outbound list and purges orphans as specified, although it looks keys up in a store it is changing; the inbound list has each received id of the store once, with its publication under 3.1.1 and without under V5; it fails exactly when a stored key does not fit |
| ProtocolClient.ReleaseAfterRestart | src/MQTTPersistence.c:245-260 | After a restart in any key order, the PUBREL of a received id delivers exactly the stored publication under 3.1.1 and nothing under V5, is answered by one PUBCOMP, and leaves neither record nor key |
| Completion.CanFinish | src/MQTTProtocolClient.c:311-655 | From every point of every run, crashes and losses included, each listed message that is not stuck has a continuation without losses after which the sender has let it go and it has been delivered, a QoS 2 message exactly once, under both delivery rules |
| Completion.CanSend | src/MQTTProtocolClient.c:165-190 | From every point between handlers, every new QoS 1 or 2 message with an id the search may give is delivered and let go in some continuation without losses, a QoS 2 message delivered exactly once, under both delivery rules |
| Completion.CanFinishIff | src/MQTTProtocolClient.c:539-547 | With nothing on its way, a listed message can still be let go if and only if it is not a QoS 2 message waiting for PUBCOMP of whose id the receiver has no record: the repeated PUBREL has dup 0 and is not answered |
| Completion.KeepsStuck | src/MQTTProtocolClient.c:539-547 | No step of the exchange, a restart or a reconnect included, frees such a message |
| Trees.Tree.RemoveNodeIndex | src/Tree.c:420-479 | Removing any node of a valid red-black tree gives a valid one without that entry, with count and size reduced |
| Trees.Tree.BalanceAfterRemove | src/Tree.c:401-412 | From a tree one black node short at the current node, or at the stand-in for a missing one, the loop ends in a valid tree with the same order |
| Trees.Tree.BARSub | src/Tree.c:364-398 | One round moves the shortage up or ends it, and always has a sibling to work with |
| Trees.Tree.AddByIndex | src/Tree.c:210-271 | A fresh key adds exactly its entry in order and keeps the tree valid; an equal key is refused or replaced; for both the links and colours become exactly what the fix-up makes of them |
| Trees.Tree.BalanceAfterAdd | src/Tree.c:191-201 | The loop computes the insertion fix-up and terminates by a measure that falls towards the root |
| Trees.Tree.BAASub | src/Tree.c:166-188 | One round is the recolouring or the rotations of the specification step |
| Trees.Tree.Rotate | src/Tree.c:147-163 | The pointer writes are the rotation, in all their aliasing cases |
| Trees.Tree.FindIndex1 | src/Tree.c:286-300 | The search finds the entry a finite map would give, or nothing when there is none |
| Trees.Tree.Place | src/Tree.c:214-230 | The descent ends at the equal entry or at the one empty place that keeps the order |
| Trees.Tree.Minimum | src/Tree.c:321-327 | The leftmost node is the first in order |
| Trees.Tree.Successor | src/Tree.c:330-345 | The successor is the next node in order, or null after the last |
| Trees.Tree.NextElement | src/Tree.c:348-355 | Iteration from null gives the first and then each next node in order |
| Trees.Tree.Walk | src/Tree.c:348-361 | Iterating from null to null visits every node once, in order |
| Trees.Tree.RemoveIndex | src/Tree.c:487-495 | Removal by content deletes the entry that compares equal, or nothing |
| Trees.Tree.Detach | src/Tree.c:431-443 | The relinking takes a node with at most one child out and nothing else |
| TreeTheorems.Perform | src/Tree.c:210-495 | Over any run of fresh additions and removals the tree stays valid, equals the finite map under every search, and counts its entries and sizes |
| TreeTheorems.PerformAdds | src/Tree.c:210-271 | Over any run of additions, of equal keys too and balanced or not, the tree stays in order, answers as the map of the last additions (of the first ones where duplicates are refused), and counts its entries and sizes |
| TreeTheorems.GatheredIsMap | src/Tree.c:210-271 | The list gathered by any additions is sorted and answers by the last one of each key, or by the first one |
| TreeTheorems.AddOnce | src/Tree.c:210-271 | An addition to a valid tree leaves it valid unless it replaces an entry, and then if and only if the entry's node is not bent; otherwise no black heights fit |
| TreeTheorems.HeightLogarithmic | src/Tree.c:364-412 | The height of a valid tree is at most twice the binary logarithm of one more than its nodes |
| TreeTheorems.HeightBounds | src/Tree.c:364-412 | Height and number of nodes are bounded by the black height |
| Replacing.ReplaceKeepsBalanceIff | src/Tree.c:232-268 | Adding an equal key keeps a valid tree valid if and only if its node is not a black inner grandchild under a red parent with a black uncle; otherwise no black heights fit the result |
| Replacing.BentHappens | src/Tree.c:210-271 | Adding six fresh keys to an empty tree leads to a valid tree in which adding a key again spoils the balance |
| Replacing.BentSpoils | src/Tree.c:176-185 | In that situation the rotations leave two subtrees of different black height under one node |
| Fixups.FixAddBalances | src/Tree.c:191-201 | The insertion fix-up ends in a valid red-black tree |
| Fixups.AddStepRises | src/Tree.c:166-188 | Each round keeps the state of the insertion fix-up |
| Fixups.AddStepKeeps | src/Tree.c:166-188 | Each round keeps links and order and moves up two levels or ends the loop |
| Balance.FarSinks | src/Tree.c:391-395 | A red far nephew ends the removal fix-up |
| Balance.LowerSinks | src/Tree.c:377-381 | With black nephews the shortage moves up to the parent |
| Balance.NearLacks | src/Tree.c:384-390 | A red near nephew is turned into the far case |
| Balance.RedSiblingLacks | src/Tree.c:368-374 | A red sibling is turned into a black one |
| Balance.CutBlack | src/Tree.c:451-466 | Taking out a black node leaves its place one black node short |
| Balance.SinkingEnds | src/Tree.c:411 | Painting the current node black ends the removal fix-up |
| Balance.RisingEnds | src/Tree.c:200 | Painting the root black ends the insertion fix-up |
| Colors.SiblingExists | src/Tree.c:366-376 | The sibling of a short subtree always exists and is a different child, so that a missing node picks the right side and the branch for a missing sibling is never taken |
| Colors.OuterStep | src/Tree.c:183-185 | The outer rotation of insertion restores the colour rules everywhere |
| Colors.InnerStep | src/Tree.c:178-182 | The inner rotation of insertion gives the outer case |
| Colors.RecolorStep | src/Tree.c:170-175 | The recolouring leaves a possible red-red pair only at the grandparent |
| Colors.FarStep | src/Tree.c:391-395 | The last rotation of removal restores the colour rules everywhere |
| Colors.LowerStep | src/Tree.c:377-381 | Lowering the sibling restores the balance below the parent |
| Shapes.RotateLinked | src/Tree.c:147-163 | A rotation keeps all links and the in-order sequence |
| Grafts.GrownLinked | src/Tree.c:252-258 | A new leaf keeps the links and goes next to its parent in order |
| Grafts.CutLinked | src/Tree.c:431-443 | Taking out a node with at most one child keeps the links and the order of the others |
| Orders.RunIsMap | src/Tree.c:210-361 | Any run of additions and removals leaves a list in order that answers every search as the finite map whose last command about the key decides |
| Orders.LookupIs | src/Tree.c:286-300 | A search function that falls along the order finds its zero, or nothing |
| Orders.InsertedLookup | src/Tree.c:210-271 | An addition changes the answer for its own key only |
| Orders.DeletedLookup | src/Tree.c:487-495 | A removal changes the answer for its own key only |
| PacketReading.PacketReader.Serve | src/MQTTPacket.c:103-178 | However the streams are cut up and the sockets interleaved, each socket's packets are the first packets of one pass over its stream, and all of them once it is drained or given up, unless the system has reported its end or an error; a socket is given up only then or when what follows its packets is malformed; every turn of a live socket asks the system for bytes; the default queue is free between calls |
| PacketReading.PacketReader.Factory | src/MQTTPacket.c:103-178 | A call asks the system for bytes and returns one whole well-formed packet made of the kept and the new bytes, or keeps them all; it fails on a fifth length byte, and otherwise only on an end or an error of a read |
| PacketReading.PacketReader.Getch | src/Socket.c:339-366 | A byte is replayed or read and kept; an interrupted header is kept whole; an error is an end or an error of the read |
| PacketReading.PacketReader.Getdata | src/Socket.c:377-417 | The data is completed from what was kept, or what there is of it is kept; no buffer comes back exactly on an end or an error of the read |
| PacketReading.PacketReader.Decode | src/MQTTPacket.c:325-351 | The loop computes the remaining length of one to four bytes; it fails only on an end or an error of a read or on a fifth length byte |
| PacketReading.PacketReader.Close | src/SocketBuffer.c:151-166 | Closing a broken socket frees the default queue and leaves the others |
| PacketReading.AccountIsOnePass | src/MQTTPacket.c:103-178 | Packets taken off a stream one by one are the one-pass reader's, all of them when no whole packet is left |
| PacketReading.KeptIncomplete | src/MQTTPacket.c:134-135 | What is kept between calls is never a whole packet |
| WireFormat.HeadFullIff | src/MQTTPacket.c:325-351 | A fixed header is complete if and only if one to four length bytes follow its first byte, all but the last with the top bit set, and it announces the sum of their low seven bits times 1, 128, 16384 and 2097152 |
| WireFormat.HeadBadIff | src/MQTTPacket.c:325-351 | It is bad if and only if four bytes behind the first have the top bit set |
| Frames.OnePassFlat | src/MQTTPacket.c:103-178 | The one-pass reader undoes the concatenation of well-formed packets |
| Frames.OnePassCovers | src/MQTTPacket.c:103-178 | The one-pass reader takes whole packets off the front and stops only where none is left |
| Frames.HeadStable | src/MQTTPacket.c:325-351 | Later bytes do not change a length that is complete or bad |
| Frames.HeadSnoc | src/MQTTPacket.c:345-346 | What one more length byte does to the value read so far |
| SocketBuffers.SocketBuffer.GetQueuedChar | src/SocketBuffer.c:219-244 | Replays the next kept header byte, and only that |
| SocketBuffers.SocketBuffer.QueueChar | src/SocketBuffer.c:303-334 | Keeps a header byte in the socket's queue or claims the free default queue |
| SocketBuffers.SocketBuffer.Interrupted | src/SocketBuffer.c:252-273 | Rewinds the queue, or files the default queue under the socket and makes a new one |
| SocketBuffers.SocketBuffer.Complete | src/SocketBuffer.c:281-295 | The socket's queue becomes the free default |
| SocketBuffers.SocketBuffer.Cleanup | src/SocketBuffer.c:151-166 | Whatever is kept for the socket is dropped, and nothing else |
| SocketBuffers.SocketBuffer.GetQueuedData | src/SocketBuffer.c:176-210 | The buffer is long enough for the packet, and the branch that copies after freeing is never taken |
| SocketBuffers.SocketBuffer.NewDefQ | src/SocketBuffer.c:59-96 | A new default queue is free and shares no memory |
| Reads.InterruptedHeader | src/SocketBuffer.c:252-273 | An interrupted header keeps every byte read and leaves the default queue free |
| Reads.InterruptedData | src/SocketBuffer.c:252-273 | Interrupted data keeps header and data and leaves the default queue free |
| Reads.CharReads | src/SocketBuffer.c:303-334 | A kept header byte extends what the socket has by exactly that byte |
| Reads.ReplayReads | src/SocketBuffer.c:219-244 | Replaying changes nothing that is kept |
| Reads.HeaderWhole | src/SocketBuffer.c:176-210 | After a full header the kept data is shorter than the packet and fits the buffer |
| PacketWriting.Writer.Putdatas | src/Socket.c:512-575 | With output pending the packet is refused and nothing is written; otherwise the system is asked once, it takes the bytes it answers with, the rest is kept, and the code says which, an error only for an error of the system |
| PacketWriting.Rebuild | src/Socket.c:891-907 | The rebuilt vector is the packet minus the bytes already written |
| PacketWriting.Writer.ContinueWrite | src/Socket.c:871-947 | A resumed write takes exactly the next bytes of the packet that the system answers with, reports exactly when it is finished, and fails exactly on an error of the system |
| PacketWriting.Writer.ContinueWrites | src/Socket.c:987-1030 | The first ready socket with pending output has its write continued, and every one has unless a write left the lists; nothing goes to other sockets, finished and failed writes leave the lists, and the errors are exactly those the system reported |
| PacketWriting.Writer.AcceptedInOrder | src/Socket.c:512-575 | After any run a socket without errors of the system has taken a prefix of its packets in order, all of them unless a write is pending |
| WriteRuns.Serve | src/Socket.c:512-575 | After any run of packets handed over and pending writes continued, on any sockets and with any partial writes, each socket without errors of the system has taken its packets that were not refused, in order and never interleaved, all of them unless a write is pending; a packet is refused only behind one that was not taken whole, or after an error, and any other is offered to the system |
| PacketWriting.Writer.NoPendingWrites | src/Socket.c:423-428 | Reports exactly whether the socket has pending output, and remembers its place if it has |
| PacketWriting.Writer.Resume | src/Socket.c:1003-1012 | After a removal the walk goes on at the list's current element, which is the next one if it was the one removed, or ends if there is none |
| PacketWriting.AccountsPut | src/Socket.c:541-570 | A partly taken packet splits into what was taken and what is left |
| Properties.RoundTripIff | src/MQTTProperties.c:208-344 | A list no longer than a packet is read back whole, using exactly its bytes, if and only if every four-byte integer is below 2^31 or a multiple of 2^24, every variable byte integer below 2^28 and every string below 65536 bytes |
| Properties.ReadListIff | src/MQTTProperties.c:313-333 | The reading loop gives back the entries under exactly that condition |
| Properties.ReadWireIff | src/MQTTProperties.c:165-297 | One property is read back, and no more than its bytes used, under exactly that condition |
| Properties.NeverExpiresLost | src/MQTTPacket.c:925-937 | The session expiry interval 0xFFFFFFFF is written so that 255 is read |
| Properties.LengthIff | src/MQTTProperties.c:128-155 | The kept length is the length of the bytes if and only if every variable byte integer is below 2^28 |
| Properties.TableFound | src/MQTTProperties.c:73-86 | Every identifier of the table is found with its type |
| Properties.TypeIs | src/MQTTProperties.c:32-86 | Every identifier has the type section 2.2.2.2 of MQTT 5 gives it, listed by number, and every other number has none |
| WireFormat.PropertyBytes | src/MQTTProperties.c:165-205 | A property is its identifier, then one byte, two or four bytes with the highest first, length bytes, or strings behind their two-byte lengths, a pair's name before its value |
| PropertyLists.PropertyList.Add | src/MQTTProperties.c:102-162 | A known identifier is appended, across growth of the array, and the length kept; an unknown one is refused |
| PropertyLists.PropertyList.Write | src/MQTTProperties.c:208-235 | The pointer moves over exactly the bytes of the list |
| PropertyLists.PropertyList.LenIff | src/MQTTProperties.c:89-93 | The computed length is the space written if and only if every variable byte integer and the length itself are below 2^28 |
| PropertyLists.PropertyList.Read | src/MQTTProperties.c:300-344 | The loop returns 1 with the list the specification reads, and otherwise an empty list |
| PropertyLists.OutBuffer.WriteProperty | src/MQTTProperties.c:165-205 | A property of each of the seven types is written as its bytes |
| PropertyLists.OutBuffer.WriteVbi | src/MQTTPacket.c:297-316 | The loop writes the encoding of the length |
| Codec.Int4Iff | src/MQTTPacket.c:925-951 | Writing and reading four bytes undo each other if and only if the value is below 2^31 or a multiple of 2^24, because the writer's argument is a signed int |
| Codec.VbiLenIff | src/MQTTPacket.c:990-1003 | The length function counts the bytes of an encoding if and only if the value is below 2^28 |
| WireFormat.EncodeIs | src/MQTTPacket.c:297-316 | A length below 2^28 is written as the fewest length bytes whose weighted sum it is |
| WireFormat.FourBytes | src/MQTTPacket.c:925-936 | A value below 2^31 is written as its four bytes, the highest first |
| WireFormat.IntegersRead | src/MQTTPacket.c:359-951 | Two or four bytes are read with the highest first |
| Codec.DecodeEncode | src/MQTTPacket.c:297-351 | An encoded length decodes to itself and stops where it ends, whatever follows |
| Codec.LenStringIff | src/MQTTPacket.c:954-978 | A string is read back if and only if it is shorter than 65536 bytes |
| PublishPackets.RestoreIff | src/MQTTPersistence.c:363-392 | A sent PUBLISH is restored from the store in all its fields if and only if its properties survive their encoding |
| PublishPackets.ParseIff | src/MQTTPacket.c:553-594 | A PUBLISH is parsed back as it was built under exactly that condition |
| PublishPackets.SentIsFrame | src/MQTTPacket.c:250-288 | What is sent is one whole packet of the stream, whatever follows it |
| WireFormat.PublishBytes | src/MQTTPacket.c:835-898 | A PUBLISH is the byte 0x30 with dup in bit 3, QoS in bits 2 and 1 and retain in bit 0, the length bytes of the rest, the topic behind its two-byte length, the id if QoS is not 0, the properties behind their length under V5, and the payload |
| PublishPackets.HeaderBits | src/MQTTPacket.c:846-849 | The fields of the header byte come apart again |
| Publications.Store.StoredIffHeld | src/MQTTProtocolClient.c:256-282 | A publication is in the global list if and only if some message entry or pending write holds it |
| Publications.Store.OneHolder | src/MQTTProtocolClient.c:200-248 | No two entries hold the same publication |
| Publications.Store.HandlePublish2 | src/MQTTProtocolClient.c:333-403 | A QoS 2 PUBLISH puts a fresh publication in place of the one kept under its id, which is dropped, or appends an entry, keeping the publication unless the V5 rule hands it over at once; every stored publication keeps one holder and count 1; nothing changes while a write is pending |
| Publications.Store.HandlePubrel | src/MQTTProtocolClient.c:528-600 | The first entry with the id leaves the list with its publication, if it has one, and every other stored publication keeps its one holder; nothing changes for an unknown id or while a write is pending |
| Publications.Store.Hold | src/MQTTProtocolClient.c:103-132 | A stored copy gets its one holder: an outbound message or a pending QoS 0 write at the end of its list |
| Publications.Store.Release | src/MQTTProtocolClient.c:437-447 | A finished entry leaves its list and its publication leaves the global list, and no other does |
| Publications.Store.RemovePublication | src/MQTTProtocolClient.c:289-301 | A publication whose holder is gone is taken out of the global list, whatever else is still to be removed |
| Publications.Store.EmptyList | src/MQTTProtocolClient.c:921-935 | Emptying a list removes exactly the publications held in it |
| Publications.Store.CheckPendingWrites | src/MQTTClient.c:2997-3019 | Exactly the copies whose socket has nothing left to write are removed, the others keep their order |
| PublishSending.SendPublish | src/MQTTPacket.c:835-898 | The packet handed to the socket is the one that restores to the message, the space computed for id and properties is exactly filled, and the code is what the system's answer makes it |
| Sha1.Context.Update | src/SHA1.c:173-196 | Any sequence of updates leaves the state of the concatenated message |
| Sha1.Context.Final | src/SHA1.c:139-171 | The digest is that of the message padded with its length in bits modulo 2^32, hence the standard's below 2^29 bytes |
| Sha1.Context.ProcessBlock | src/SHA1.c:95-137 | The rounds over sixteen words in place compute the standard's 80-word schedule and compression |
| Sha1.Context.Expand | src/SHA1.c:114-115 | One in-place step keeps the last sixteen words of the schedule |
| Sha1Example.DigestAbc | src/SHA1.c:77-171 | The digest of "abc" is the published one, by way of every word of its schedule and the registers after every tenth round |
| Sha1Example.Roots | src/SHA1.c:118-124 | The four round constants are the integer parts of 2^30 times the square roots of 2, 3, 5 and 10 |
| Sha1Spec.PadLayout | src/SHA1.c:147-157 | The padded message is the message, the octet 0x80, fewer than 64 zeros, and the length in bits in eight octets, the highest first |
| Sha1Spec.PadIff | src/SHA1.c:147-157 | The padding is the standard's if and only if the message is below 2^29 bytes |
| Sha1Spec.PadBlocks | src/SHA1.c:149-159 | The padded message is a whole number of blocks |
| Sha1Spec.HashAppend | src/SHA1.c:173-196 | Hashing whole blocks and then the rest is hashing everything |
| Utf8.Validate | src/utf-8.c:129-148 | A byte string is accepted if and only if it encodes some sequence of Unicode scalar values |
| Utf8.CharValidate | src/utf-8.c:76-120 | The loops over the table accept exactly the rows of the announced length, whether char is signed or not |
| Utf8.ValidIff | src/utf-8.c:129-148 | The same equivalence for the validation function |
| Utf8.RowsSay | src/utf-8.c:53-64 | The rows of each length accept exactly the well-formed sequences |
| LinkedLists.List.FindItem | src/LinkedList.c:154-189 | With at most one match the remembered position and a linear scan agree, and what is found is remembered |
| LinkedLists.List.Unlink | src/LinkedList.c:201-236 | One match goes, both chains stay mirror images, and the remembered position stays or moves on |
| LinkedLists.List.AppendNoMalloc | src/LinkedList.c:69-81 | The element goes to the end of both chains |
| LinkedLists.List.Insert | src/LinkedList.c:107-131 | The element goes before the given one, or to the end |
| LinkedLists.List.DetachHead | src/LinkedList.c:268-286 | The first element goes and the remembered position stays alive |
| LinkedLists.List.PopTail | src/LinkedList.c:306-324 | The last element goes and the remembered position stays alive |
| Base64.RoundTrip | src/Base64.c:100-253 | For data below 2^30 bytes and buffers of the computed lengths decoding gives the data back |
| Base64.Encode | src/Base64.c:179-235 | The loop writes the encoding as far as whole groups fit |
| Base64.Decode | src/Base64.c:100-177 | The loop writes the decoded bytes as far as there is room |
| Base64.DecodedEncoded | src/Base64.c:100-235 | Decoding undoes encoding for every data |
| Base64.EncodedDigits | src/Base64.c:179-235 | Each group of three bytes of the data, or what is left of it, becomes the letters of RFC 4648's alphabet for its digits to base 64, and = where there is no byte |
| Base64.UngroupDigits | src/Base64.c:100-177 | Four letters decode to the three bytes whose digits they are; a third or fourth character that is no letter leaves one or two bytes and ends the decoding |
| Base64.Alphabet | src/Base64.c:181-184 | The encoding table is the alphabet of section 4 of RFC 4648 with = behind it |
| Base64.AlphabetBack | src/Base64.c:102-122 | The decoding table gives a letter's place in the alphabet, and 64 exactly for every other byte |
| Base64.EncodeLengthIff | src/Base64.c:250-253 | The encoded length is exact if and only if the data is below 2^30 bytes |
| Base64.DecodeLengthExact | src/Base64.c:239-248 | The decoded length of an encoding is the length of the data |

## Left out

- Receiver crashes: the receiver's memory is intact in every run, and its store operations are proved per handler only.
- The store record of an inbound QoS 2 PUBLISH, which the packet reader writes before the handler runs; it matters only after a receiver crash.
- Store operations and memory allocation that fail: both succeed in the model.
- Clean sessions and clients without persistence: every modelled sender keeps a store.
- One protocol version per store and client; a V5 client with ids of 10000 or more meets keys it cannot write or read, and its restart is modelled as failing.
- Records are kept decoded in `Persistence`; `RestoreIff` says when the stored bytes give the record back.
- An unset `nextMessageType` of a QoS 1 message is modelled as PUBREC.
- The branch of `createMessage` that shares a publication, which no caller reaches, and the sharing of topic and payload strings; `Publications` holds owners and counts only, and gives a pending write its socket as id.
- Fairness: `CanFinish` and `CanSend` give a continuation in which a message is finished, but nothing forces retries and reconnects to happen; timers and socket readiness are the parameters `due`, `room`, `free` and `sent`.
- PUBRECs with an error in whole runs: the receivers of `Session` answer with reason code 0, as this client does; the handler's branch for other codes is proved for one call (`HandlePubrec`).
- The queue of received messages kept across restarts, and its order.
- The second index of a tree, heap tracking and removals from a tree that adding an equal key has unbalanced.
- The union of words and bytes in the SHA-1 context: the words are a second array, as the bytes are dead once the words are made.
- The copy of old contents when an empty read buffer is reallocated.
- Bytes read past the end of a malformed packet or property: the functions return `Overrun` there.
- `MQTTProperties_write`'s return value, which always counts one byte for the length field.
- List `size` fields after removals, which the code does not reduce.
- Packets other than PUBLISH and the four acknowledgements; decoding of a packet inside `MQTTPacket_Factory` after its bytes are whole.
- TLS, WebSocket framing, proxies, `select`, threads, logging and connection setup.
- Trees.Tree.RemoveNodeIndex: assumes a valid red-black tree, which every run keeps unless an equal key is added in the situation of `ReplaceKeepsBalanceIff`.
- PacketWriting.Writer.ContinueWrites: a ready socket may be passed over in a call in which a write leaves the lists, as the walk then goes on from the list's current element, wherever that is.
- ProtocolClient.Client.AssignMsgId: assumes the condition of `SearchEndsIff`, without which the loop in the source does not end.
- Base64.Encode: assumes a buffer length of at most 2^32 - 4, beyond which the character count would wrap.
