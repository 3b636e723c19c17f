# VSE steering, verified

VSE is a kernel module that steers received packets to CPUs. An operator stages a match and a CPU
number through a control device, an entry is put at the head of a flow table, and every received
packet goes to the CPU of the newest entry it matches: the CPU number is written into the kernel's
receive-packet-steering (RPS) tables and into the packet's `rxhash`. This project models that path
end to end and proves what it does, over all inputs, all histories and all interleavings.

| file | models |
|---|---|
| `Wrappers.dfy`, `Integers.dfy` | options and machine integers |
| `OpenFlow.dfy` | the wildcard word and its flags (`openflow.h`) |
| `Packets.dfy` | frames, VXLAN decoding against section 5 of RFC 7348, the socket buffer |
| `Matching.dfy` | the accumulating matcher, storing a record, satisfiability and coverage (`vse_flow_table.c`) |
| `FlowSpec.dfy` | the table as a sequence: first match, newest wins, transparent entries |
| `FlowTable.dfy` | the table as it is: a circular doubly linked list on the heap |
| `ConcurrentLookup.dfy` | the same list in small steps, one memory write or read at a time, with any number of readers |
| `Staging.dfy` | the control device as a fold over command histories |
| `Device.dfy` | the control device as it is: globals updated by each ioctl (`vse_dev.c`) |
| `Sessions.dfy` | any number of clients opening, driving and closing the device (`vse_dev.c`) |
| `Cli.dfy`, `SetEntry.dfy` | what a session of the command-line client publishes, and the program that issues it (`vse_set_entry.c`) |
| `Rules.dfy` | what sessions do to the steering of packets, and when one acts as a single rule |
| `Rps.dfy`, `RpsTables.dfy` | the RPS tables as values and as arrays on the heap (`vse_rps.c`) |
| `RpsInterleaving.dfy` | the two table writes of a route interleaving with those of any number of others |
| `Steering.dfy` | a received packet, and runs that mix packets and control calls (`vse_main.c`) |
| `Executions.dfy` | the objects driven through whole event sequences, against the models of sessions and mixed runs |
| `CoreTable.dfy` | the load sampler and the core selector (`vse_core_table.c`) |

Objects the program updates in place are classes, and each of their methods is proved against a
function on values; the main results are lemmas about those functions. Ghost fields (`ring`,
`contents`, `freed`, `history`) record what the heap stands for. Machine integers are bit-vectors,
wrapped as `U8` and `U32` where they are only stored and compared.

Main results:

- **Every packet follows history.** `Steering.Vse.HandleData` and `Steering.PacketsFollowHistory`: a
  packet leaves with the CPU of the newest published entry whose declared criteria it meets, read
  off the command history alone; if there is none, its hash and all tables are unchanged.
- **Lookup is linearizable** beside control calls whose insertions take six separate memory writes, and
  gives the CPU that the history of the calls completed at its start gives
  (`ConcurrentLookup.LookupIsLinearizable`, `LookupFollowsHistory`).
- **Client sessions are serialisable**: every interleaving leaves the device as the sessions that got it
  do when they run one after another in open order (`Sessions.SessionsAreSerialisable`), and
  `Rules.ClientsSteer` says where that sends each packet, killed clients and failed allocations included.
- **Exactly when a command line is one rule**, for every outcome of its allocations
  (`Rules.SessionIsOneRule`); if all succeed, when no option after an `--irq` changes the rule that
  stood there, unless no packet could meet that rule (`Rules.GrantedSessionIsOneRule`).
- **The objects do what the models say** over whole runs: `Executions.RunClients`,
  `Executions.RunMixed`.
- **The ring stays a ring**, and unloading frees every entry exactly once (`FlowTable.Table`).
- **Exact matching conditions**: what a record means, which records can match anything, and when one
  covers another (`Matching.MatchPacket`, `MatchableIsExact`, `CoverageIsExact`).
- **Routes are never undone exactly in tables of 256 slots or more**, and in a table of any size a route
  stands exactly if the last write to its slot was of the same CPU (`Rps.NeverUndoneIffLarge`,
  `Rps.StandsIffLastIsSame`, `Steering.RouteStandsToTheEnd`).
- **Routes written by several CPUs at once** end as after a serial order if the socket flow table has 256
  slots or more (`RpsInterleaving.InterleavingIsSerial`); two routes on one queue can end as after no
  serial order exactly if their CPU numbers collide in both tables (`RpsInterleaving.UnserialIffCollide`).
- **Loads account for the busy time** of any run up to three partial ticks an interval, plus exactly
  what the one-byte loads lost by wrapping (`CoreTable.LoadAccounting`).

## Assumptions

- Memory is sequentially consistent and control calls are serialised. The code takes no lock for either.
- Each system call is one step of a session; in particular `device_open`, which tests and
  increments its counter without a lock, is atomic.
- `nw` is never assigned in `vse_do_match`. It is read as intended: the IP header at `skb->data`,
  where the network header has just been reset to, so the TOS byte is byte 1 there.
- Packets hold enough bytes for all fixed offsets, with an IP header of 20 bytes.
- Whether an entry can be allocated is an input of every publishing command; if it cannot, the table
  is unchanged.
- The byte order of the machine is a parameter. The client and the module run on the same machine.
- The set of RPS tables is fixed during a run, no two share an array, their masks have the form
  2^k - 1, and VSE is their only writer.
- No handler is in flight when the module is unloaded; the code does not wait for one.
- Copies from user memory succeed, and every option the client finds is followed by a word, as the
  code demands before it reads it. That word may be anything, another option included. `atoi` is an
  arbitrary function of it, and `sscanf` of it and of the octets it scans into, which start out with
  whatever is on the stack.
- CPUs are numbered from 0 and all are online. A clock tick is a whole number of jiffies.

## Where the code surprises

- `VSE_IOCTL_SET_IRQ` has no `break` (vse_dev.c:219-221), so it publishes an entry, and the client
  publishes again at the end (vse_set_entry.c:152). With the single `--irq` last, as in README.md:91,
  the duplicate is harmless, and even helps if one of the two allocations fails
  (`Rules.IrqLastIsOneRule`). With `--irq` first, the early entry constrains nothing and claims every
  packet that the options do not describe (`Rules.IrqFirstIsNot`).
- On a little-endian machine the mask in vse_flow_table.c:46 is applied before the byte swap and
  clears bits 16 to 19 of the network identifier (`Packets.VniDecoding`). An entry for an identifier
  with one of these bits set matches no packet (`Matching.MatchableIsExact`): `--vni 65536` claims
  nothing, and packets that carry 65536 are taken for 0 (`Rules.HighVniClaimsNothing`,
  `Packets.VniBit16IsLost`).
- The client passes the address of an `unsigned int` and the device reads one byte (vse_dev.c:130,
  vse_set_entry.c:126): on a little-endian machine CPU numbers below 256 arrive, on a big-endian one
  only 0 does (`Cli.IrqArrives`). `--irq 256` is CPU 0 (`Rules.HighIrqIsLost`).
- The header that the TOS byte is read from is never set (vse_flow_table.c:157 and 174). That matters
  exactly for records that can match and constrain the machine id (`Matching.TosMatters`), and the
  command-line client cannot make one (`Rules.SessionsIgnoreTos`).
- In one round the client tests a word for all four options in turn and goes on testing the value of
  the one it found, so a value that is itself an option may count as both
  (`SetEntry.LaterOptionAsValue`, `SetEntry.EarlierOptionAsValue`).
- Core selection is commented out (vse_rps.c:125-127), so `NO_IRQ` is written to the tables and to
  `rxhash` like any CPU number.
- Nothing ever assigns a machine to a core: `vm_id` is set to `NOT_VM` (vse_core_table.c:115-117) and
  to nothing else. So selection always returns the current CPU, whatever the loads
  (`CoreTable.SelectFromStart`).
- Before the first INIT the staging record is all zero, so every wildcard bit is clear, and whatever
  is published then can match no packet (`Staging.DeadBeforeInit`).
- The load is stored in a `__u8` (vse_core_table.h:32): it understates a core's busy time by at most
  three partial ticks exactly when the ticks fit in a byte (`CoreTable.LoadIsExactUnlessTruncated`).
  A core that was busy for 256 ticks shows load 0 (`CoreTable.FullByteShowsNothing`).

## Model

| member | source | states |
|---|---|---|
| `OpenFlow.WordBits` | openflow.h:467-498 | on the bits: bits 3, 8, 10 and 21 say by being 0 that the outer destination, the network identifier, the inner destination and the machine id are asked for, and a live word has all others of the 22 set and none beyond |
| `OpenFlow.LiveWordIsItsFields` | openflow.h:466-498 | among wildcard words that leave every unsupported field open, the word is determined by the four fields it constrains |
| `OpenFlow.ClearFlag` | vse_dev.c:57 | `&= ~FLAG` constrains that field, leaves the other three as they were, and makes no word live or dead |
| `OpenFlow.SetFlag` | vse_flow_table.c:177 | `\|= FLAG` settles that field, leaves the other three as they were, and makes no word live or dead |
| `OpenFlow.AllSettled` | vse_flow_table.c:198 | once no supported field is left constrained, the final equality test is the question whether the word is live |
| `Packets.VniDecoding` | vse_flow_table.c:40-47 | on a header encoded as in section 5 of RFC 7348, extraction gives the identifier back on big-endian machines and loses bits 16-19 on little-endian ones, so it inverts the encoding exactly when these are zero; the reserved byte is ignored |
| `Packets.VniBit16IsLost` | vse_flow_table.c:46 | a packet encapsulated with identifier 0x10000 is taken for 0 on a little-endian machine |
| `Packets.ExtractedBytes` | vse_flow_table.c:40-47 | for any bytes whatever extraction reads bytes 32 to 34 in network order, without bits 16-19 on a little-endian machine, and looks at no other byte |
| `Packets.Layout` | vse_flow_table.c:44-52 | in any packet of a 20-byte IP header, UDP, VXLAN and an inner frame of any length, the TOS byte, the bytes of the identifier and the inner destination are those of these parts |
| `Packets.FirstByteInMemory` | vse_dev.c:130 | the one byte read of an integer is its low one on a little-endian machine and its high one on a big-endian one |
| `Packets.ExtractedVniInImage` | vse_flow_table.c:40-47 | whatever bytes a packet carries, the extracted identifier is below 2^24 and, on a little-endian machine, has bits 16-19 clear |
| `Packets.SkBuff.SettleMacHeader` | vse_main.c:47-49 | a MAC header that is set stays where it is, one that is not is set to the data, and either way the packet reads as it did before |
| `Packets.SkBuff.ViewOfBytes` | vse_flow_table.c:162-166 | in bytes of the buffer: the outer destination is the six at the MAC header if that is set and at the data if not; TOS is byte 1 and the inner destination bytes 36 to 41 after the data |
| `Matching.VmIdDiffers` | vse_flow_table.c:174 | the masked xor is non-zero exactly when the low seven bits of the machine id differ from the upper six of the TOS byte |
| `Matching.MatchPacket` | vse_flow_table.c:173-198 | the early-exit, accumulating matcher accepts exactly if the word is live and the packet agrees with the record on every constrained field, for all 2^32 wildcard words |
| `Matching.MatchesBytes` | vse_flow_table.c:173-198 | the verdict on a packet in bytes of the packet and bits of the word, field by field |
| `Matching.MatchesBuffer` | vse_flow_table.c:162-198 | the same on the bytes of a buffer, at its MAC header and its data |
| `Matching.Verdict` | vse_flow_table.c:198 | if all constrained fields agreed and were settled, comparing with `OFPFW_ALL` decides the declarative match |
| `Matching.DoMatch` | vse_flow_table.c:154-199 | the matcher on a socket buffer accepts exactly by the bytes at its MAC header and its data that the bits of the word ask for; resetting the network header is its only effect |
| `Matching.StoredFields` | vse_flow_table.c:77-100 | bit by bit of the word: the fields asked for are copied whole, all others stay zero |
| `Matching.StoringKeepsMeaning` | vse_flow_table.c:77-100 | copying only the constrained fields into a zeroed entry changes no match, for every packet and wildcard word, and is idempotent |
| `Matching.SpecimenMatches` | vse_flow_table.c:173-198 | a live record with a six-bit machine id and an extractable network identifier is met by a packet built from its values |
| `Matching.MatchableIsExact` | vse_flow_table.c:154-199 | a record can match some packet if and only if it is such a record |
| `Matching.CoveringMatches` | vse_flow_table.c:173-198 | a live record with fewer or equal constrained fields and the same values accepts everything the covered one accepts |
| `Matching.CoverageIsExact` | vse_flow_table.c:173-198 | and for satisfiable covered records that is the only way to accept all those packets |
| `Matching.TosMatters` | vse_flow_table.c:157-174 | the byte read from the header that is never set makes a difference for some packet if and only if the record can match at all and constrains the machine id |
| `FlowSpec.LookupFindsNewest` | vse_flow_table.c:201-220 | the scan returns the entry that matches and has no matching entry before it |
| `FlowSpec.NewestExists` | vse_flow_table.c:201-220 | whenever the scan returns something, some entry is the newest that matches |
| `FlowSpec.LookupMisses` | vse_flow_table.c:201-220 | the scan finds nothing exactly when no entry matches |
| `FlowSpec.LookupAppend` | vse_flow_table.c:210-217 | newer entries override older ones, and packets they do not claim fall through |
| `FlowSpec.ShadowedForPacket` | vse_flow_table.c:210-217 | taking out an entry is invisible to a packet that a newer entry claims whenever it does |
| `FlowSpec.CoveredEntryIsTransparent` | vse_flow_table.c:201-220 | taking out an entry that a newer live entry covers, or an exact repeat of a newer record, is invisible to every packet |
| `FlowTable.ListNode.constructor` | vse_flow_table.c:54-64 | a new entry is zeroed and unlinked |
| `FlowTable.ListNode.SetMatch` | vse_flow_table.c:77-100 | filling a zeroed record in place gives the stored form of the data, the form `StoringKeepsMeaning` is about |
| `FlowTable.LinkedAfterRemoval` | vse_flow_table.c:70 | redirecting the two links around one node of a ring leaves a ring of all the others in the same order |
| `FlowTable.JoinNeighbours` | vse_flow_table.c:70 | unlinking changes exactly those two links, also when both neighbours are the sentinel, and no record |
| `FlowTable.Unlink` | vse_flow_table.c:70 | so what is left is a ring of all the other nodes, in order, with their records |
| `FlowTable.LinkedAfterInsertion` | vse_flow_table.c:134 | linking a node in between the first node of a ring and its successor gives a ring with it in second place |
| `FlowTable.LinkAfter` | vse_flow_table.c:134 | the four writes of `list_add` set exactly those four links, also when the sentinel is alone, and no record |
| `FlowTable.Table.constructor` | vse_flow_table.c:31 | the initial list is a well-formed, empty ring |
| `FlowTable.Table.HeadLinks` | vse_flow_table.c:31 | in every valid list the sentinel links to the first and the last node, and to itself if there is none |
| `FlowTable.Table.NodeLinks` | vse_flow_table.c:134 | each node links to the one after it and the one before it, is not the sentinel, occurs once and is not freed |
| `FlowTable.Table.ListAdd` | vse_flow_table.c:134 | the four link writes leave a well-formed ring with the new node in front of all old ones, in order, and no record changed |
| `FlowTable.Table.Add` | vse_flow_table.c:121-137 | a successful addition puts one complete, newly allocated entry in front; a failed one changes nothing; the list stays a ring with inverse links and without aliasing |
| `FlowTable.Table.ListDel` | vse_flow_table.c:70 | exactly the given node leaves the ring, which stays well-formed |
| `FlowTable.Table.Delete` | vse_flow_table.c:66-75 | a linked entry leaves the ring, an unlinked one does not touch it, both are freed once with links cleared, and null does nothing |
| `FlowTable.Table.CleanUp` | vse_flow_table.c:144-152 | draining terminates with an empty ring, frees every published entry exactly once, newest first, and leaves the freed nodes with the links they were freed with |
| `FlowTable.Table.DeleteFirst` | vse_flow_table.c:148-151 | each round keeps the ring valid, shortens it by its first node, and writes to no node freed earlier |
| `FlowTable.Table.LookUp` | vse_flow_table.c:201-220 | the walk over the nodes returns the node of the newest matching entry, or null exactly when none matches, and agrees with first match on the sequence; the network header changes only if an entry was examined |
| `ConcurrentLookup.NewEntryIsZero` | vse_flow_table.c:54-64 | the entry a publishing call starts from is zero in every field and linked to nothing |
| `ConcurrentLookup.ChainUnique` | vse_flow_table.c:210 | the walk from an address to the sentinel is determined by memory, so the table at a state is well-defined |
| `ConcurrentLookup.TableUnique` | vse_flow_table.c:210-217 | so there is at most one sequence of entries that is the table at a state |
| `ConcurrentLookup.StepOnStaging` | vse_dev.c:153-229 | every step keeps the staging record that of the calls made, an addition under way that of the last of them, and only the last write of an addition completes a publication in the history |
| `ConcurrentLookup.StepKeepsWalk` | vse_flow_table.c:121-137 | no step of a control call or of any reader changes forward links, records or CPU numbers on a walk without the unpublished node, and of the backward links at most that of the table's first node |
| `ConcurrentLookup.StepOnTable` | vse_flow_table.c:121-137 | additions are atomic for readers: only the write to the sentinel's `next` changes the table, and it adds one complete entry in front |
| `ConcurrentLookup.MemoryHoldsTable` | vse_flow_table.c:121-137 | in every state of every run, the entries in memory are exactly the table that the history of the completed calls leads to |
| `ConcurrentLookup.TableIsCompleted` | vse_flow_table.c:121-137 | the same about the walk from the sentinel |
| `ConcurrentLookup.StepOnBackLinks` | vse_flow_table.c:134 | at every write of an addition the backward links lead from the sentinel along the table, by way of the new node from the moment the writer redirects the first of them |
| `ConcurrentLookup.RingBetweenCalls` | vse_flow_table.c:31-134 | whenever no addition is under way, forward and backward links are those of one ring through the sentinel |
| `ConcurrentLookup.LookupBegins` | vse_flow_table.c:210 | a reader that has read the sentinel's `next` has the whole table of that moment ahead of it |
| `ConcurrentLookup.ReaderStep` | vse_flow_table.c:210-217 | any step of the system keeps a reader on its part of its table; only its own steps shorten that part, and it returns only what its table gives |
| `ConcurrentLookup.LookupInProgress` | vse_flow_table.c:210-217 | at every point of a lookup, nodes examined and nodes still ahead add up to the table it began with |
| `ConcurrentLookup.LookupIsLinearizable` | vse_flow_table.c:201-220 | under every interleaving of control calls and readers a lookup returns what a sequential scan gives on the table of the calls completed when it read the sentinel's `next`, within as many examinations as that table has entries, plus one |
| `ConcurrentLookup.LookupFollowsHistory` | vse_flow_table.c:201-220 | so it returns the CPU in force at the newest of those calls whose declared criteria the packet meets, and nothing exactly if there is none |
| `ConcurrentLookup.LookupCanGoOn` | vse_flow_table.c:210-217 | at every point of a lookup the next node is there to be examined, so that no interleaving makes a reader follow a bad link |
| `ConcurrentLookup.WriterCanGoOn` | vse_flow_table.c:121-137 | at every point of an addition the cell of its next write is there |
| `Staging.InitStages` | vse_dev.c:156-162 | INIT sets all 22 wildcard bits, zeroes every field, and stages CPU 255 |
| `Staging.OctetStages` | vse_dev.c:61-119 | an octet is written to its own place of its own address, and only the sixth asks for the field |
| `Staging.OthersStage` | vse_dev.c:54-132 | machine id and network identifier are written whole and asked for at once; the CPU number is staged on its own; publishing and unknown commands stage nothing |
| `Staging.StagedValue` | vse_dev.c:54-132 | a command changes a byte or word of the staging state exactly if it writes it, to what it writes |
| `Staging.StagedFields` | vse_dev.c:54-132 | a command constrains exactly the field it completes; only INIT opens fields and makes a dead word live |
| `Staging.LastWrittenAt` | vse_dev.c:153-229 | the last-written datum is what the last command writing that place wrote |
| `Staging.NeverWritten` | vse_dev.c:34-36 | and zero if there is no such command, as the globals are loaded |
| `Staging.SlotHoldsLastWritten` | vse_dev.c:153-229 | after any command history every field, address octet and the CPU number hold the datum last written to them |
| `Staging.WildcardsAreDeclarations` | vse_dev.c:54-162 | after any history, the word is live exactly if there has been an INIT, and then a field is constrained exactly if it was completed since the last one |
| `Staging.RecordIsStaged` | vse_dev.c:153-229 | the record read off the last writes is the staging record |
| `Staging.StagedMeaning` | vse_dev.c:222-224 | the entry published after a history accepts exactly the packets that carry every value declared since the last INIT |
| `Staging.NewestMetIrqIsNewest` | vse_dev.c:153-229 | the CPU read off a history is the one in force at the latest publication whose declarations the packet meets, and there is none exactly if it meets none |
| `Staging.SteeringGrows` | vse_dev.c:219-225 | one more command claims exactly the packets that meet what it publishes, and leaves all other steering as it was |
| `Staging.SteeringIsNewestMet` | vse_dev.c:153-229 | scanning the table that a history builds gives the CPU read off that history |
| `Staging.SteeringByHistory` | vse_dev.c:153-229 | so a packet goes where the newest publication it meets sends it, and nowhere exactly if it meets none |
| `Staging.DeadBeforeInit` | vse_dev.c:34-36 | whatever is published before the first INIT is dead |
| `Staging.LiveAfterInit` | vse_dev.c:156-162 | everything published from the first INIT on is live, and lies in front of the dead entries, which stay |
| `Staging.SettersCommute` | vse_dev.c:54-126 | two field setters can be exchanged exactly if they write different places or the same datum |
| `Staging.PublishingDoesNotCommute` | vse_dev.c:219-225 | no field setter can be exchanged with SET_ENTRY or SET_IRQ: from some state the two orders publish different entries |
| `Device.VseDevice.constructor` | vse_dev.c:34-36 | the loaded device is the start of every history: zero staging, nobody has it open, empty list |
| `Device.VseDevice.Open` | vse_dev.c:134-143 | refuses with `-EBUSY`, changing nothing, while a handle is open; otherwise counts one handle |
| `Device.VseDevice.Release` | vse_dev.c:145-151 | counts one handle less and touches neither staging nor table |
| `Device.VseDevice.SetVmId` | vse_dev.c:54-59 | the staged state afterwards is that of the SET_VM_ID command |
| `Device.VseDevice.SetDlIndst` | vse_dev.c:61-89 | the staged state afterwards is that of the command for that octet; only the sixth completes the field |
| `Device.VseDevice.SetDlDst` | vse_dev.c:91-119 | the staged state afterwards is that of the command for that octet; only the sixth completes the field |
| `Device.VseDevice.SetVni` | vse_dev.c:121-126 | the staged state afterwards is that of the SET_VNI command |
| `Device.VseDevice.Publish` | vse_dev.c:223 | the stored form of the staging record and the CPU number in force become the newest entry, if memory allows |
| `Device.VseDevice.Dispatch` | vse_dev.c:155-227 | staging moves as the command says, and the table grows by one entry exactly for SET_IRQ and SET_ENTRY, with the staging after the command |
| `Device.VseDevice.Ioctl` | vse_dev.c:153-229 | every call succeeds and keeps the globals and the heap list equal to the fold of the whole call history, extended by this call with its allocation outcome |
| `Sessions.SessionForgets` | vse_dev.c:156-162 | a call sequence that starts with INIT stages and publishes the same from every state of the device |
| `Sessions.LogFollowsPhase` | vse_set_entry.c:103-153 | the calls a client has made are the initial part of its own script, as long as its progress says, and none if it was refused |
| `Sessions.MutualExclusion` | vse_dev.c:134-151 | in every reachable state at most one handle is open, and its holder is the one client running, the last to have opened |
| `Sessions.RunIsSerial` | vse_dev.c:134-229 | for every interleaving of any number of clients, with any scripts, killed ones and failed allocations included, the device ends exactly as after the calls of whole sessions one after another in open order |
| `Sessions.SerialContributions` | vse_dev.c:156-162 | if the scripts start with INIT, sessions run one after another add to the table what each adds when it runs alone from a freshly loaded device, the latest in front |
| `Sessions.SessionsAreSerialisable` | vse_dev.c:134-229 | for every interleaving the device ends as the granted sessions leave it that run one after another in open order, and the table is the concatenation, latest in front, of what the calls of each alone determine |
| `Cli.IrqArrives` | vse_set_entry.c:126-132 | the CPU number given is the one that arrives exactly if it is below 256, on a big-endian machine exactly if it is 0 |
| `Cli.NoIrqIs255` | vse_dev.c:160 | without an `--irq` the CPU is 255 |
| `Cli.RuleMeaning` | vse_set_entry.c:109-150 | the rule of an option list accepts exactly the packets that carry the last value given for each kind of option |
| `Cli.SixIndst` | vse_set_entry.c:48-62 | the six ioctls stage the whole inner address and complete the field once, from any state and with any allocation outcomes |
| `Cli.SixDst` | vse_set_entry.c:64-78 | the six ioctls stage the whole outer address and complete the field once, from any state and with any allocation outcomes |
| `Cli.OptionStages` | vse_set_entry.c:111-150 | the ioctls of one more option turn the rule of the options before it into the rule of all of them, and publish exactly if it is `--irq` and its allocation succeeds |
| `Cli.OneEntryPerIrq` | vse_set_entry.c:123-133 | before the final publication a session has published at most one entry per `--irq`, and exactly one if all allocations succeed |
| `Cli.BodyPublishes` | vse_set_entry.c:109-150 | after INIT and the options, whichever allocations succeed, the device stages their rule over the entries of the irq options and the table found, whatever that was |
| `Cli.SessionPublishes` | vse_set_entry.c:109-152 | a whole session stages the rule of its options and adds one entry for every `--irq`, each the rule of the options before it, and a final one of all options, as far as their allocations succeed |
| `Rules.SessionSteers` | vse_set_entry.c:109-152 | the entries of a session send a packet to the CPU of the newest of its successful publications whose options the packet meets |
| `Rules.SessionMetIsNewest` | vse_set_entry.c:109-152 | that publication is, by position, the last granted one in the option list, the final one included, whose options so far the packet meets |
| `Rules.SessionMetMisses` | vse_set_entry.c:109-152 | and there is no such CPU exactly if the packet meets none of the granted publications |
| `Rules.SessionIsOneRule` | vse_set_entry.c:109-152 | whichever allocations succeed, the session acts on every table and packet as the single rule its options spell out if and only if every entry published that can match holds the final rule and, if that can match, its first entry is there with the final CPU |
| `Rules.GrantedSessionIsOneRule` | vse_set_entry.c:109-152 | if all allocations succeed that is so if and only if each rule in force at an `--irq` is the final rule or cannot match any packet |
| `Rules.IrqLastIsOneRule` | README.md:91 | the documented use, one `--irq` at the end, is one rule with that CPU if and only if one of its two allocations succeeds or no packet can meet the rule |
| `Rules.IrqFirstIsNot` | vse_dev.c:219-225 | `--irq 3 --vni 10` is not one rule, if the first allocation succeeds |
| `Rules.HighVniClaimsNothing` | vse_flow_table.c:46 | on a little-endian machine `--vni 65536 --irq 3` claims no packet |
| `Rules.HighIrqIsLost` | vse_dev.c:130 | on a little-endian machine `--irq 256` names CPU 0 |
| `Rules.SessionsIgnoreTos` | vse_flow_table.c:173-178 | where any session sends a packet does not depend on the TOS byte |
| `Rules.SessionOverrides` | vse_set_entry.c:109-152 | after a session, from any history, packets that meet one of its publications go where it sends them and all others where they went before |
| `Rules.NoIrqSteersTo255` | vse_rps.c:125-130 | a session without `--irq` sends the packets that meet it to CPU 255 |
| `Rules.ContributionIsPublications` | vse_set_entry.c:103-153 | a client adds the publications of its session that it got to and whose allocations succeeded, however early it was killed |
| `Rules.ContributionsSteer` | vse_set_entry.c:109-152 | contributions one after another send each packet to the CPU of the last client with a publication it meets, from the newest such publication |
| `Rules.ClientsSteer` | vse_set_entry.c:103-153 | so do any number of clients in any interleaving, killed half-way or not and with any allocations failing, in the order in which they got the device |
| `Rules.LatestMetIsLast` | vse_set_entry.c:103-153 | the client that decides is the last in open order whose session sends the packet anywhere |
| `Rules.LatestMetMisses` | vse_set_entry.c:103-153 | and the packet is sent nowhere exactly if there is no such client |
| `Rules.OneRuleClientsSteer` | vse_set_entry.c:109-152 | if each of these sessions is one rule, that is the CPU of the last client whose options the packet meets |
| `SetEntry.IoctlSetVni` | vse_set_entry.c:24-34 | issues the commands of a `--vni` option |
| `SetEntry.IoctlSetIrq` | vse_set_entry.c:36-46 | issues the command of an `--irq` option, with the first byte in memory of the integer |
| `SetEntry.IoctlSetDlIndst` | vse_set_entry.c:48-62 | issues the six commands of a `--dl_indst` option, in order |
| `SetEntry.IoctlSetDlDst` | vse_set_entry.c:64-78 | issues the six commands of a `--dl_dst` option, in order |
| `SetEntry.PlainWord` | vse_set_entry.c:112-149 | as long as no value is itself an option, `--vni` and `--irq` take the next word as a number, `--dl_indst` as the inner and `--dl_dst` as the outer address, which stays in the octets, and any other word is skipped |
| `SetEntry.OneOption` | vse_set_entry.c:111-150 | each of the four command lines with one option stages that option with its value |
| `SetEntry.PlainIsWellFormed` | vse_set_entry.c:111-150 | a vector in which every option is followed by a word that is none is one the client can read |
| `SetEntry.LaterOptionAsValue` | vse_set_entry.c:112-149 | a value that is an option tested for later, in the order `--vni`, `--irq`, `--dl_indst`, `--dl_dst`, is both the value and an option with the word after it |
| `SetEntry.EarlierOptionAsValue` | vse_set_entry.c:112-149 | a value that is an option tested for no later than its own option is only a value |
| `SetEntry.OneRound` | vse_set_entry.c:112-149 | one round of four tests issues the options it finds: the current word, and then its value if that is an option tested for later, and so on; the address octets are those the last scan left |
| `SetEntry.OptionLoop` | vse_set_entry.c:111-150 | over an argument vector in which every option found is followed by a word, the loop terminates having issued the commands of the options found, in order, whatever the stack held |
| `SetEntry.RunClient` | vse_set_entry.c:88-155 | a client with arguments that gets the device issues INIT, its options and SET_ENTRY, closes the device and returns 0; with too few arguments or no device it fails without an ioctl |
| `Rps.SlotInRange` | vse_rps.c:84-86 | masked indices are within every table |
| `Rps.SlotIsRemainder` | vse_rps.c:84-86 | for masks 2^k - 1 the slot is the CPU number modulo the table size |
| `Rps.SlotHoldsLast` | vse_rps.c:84-86 | after any writes a slot holds the last CPU number written to it, and what it held before if there was none |
| `Rps.WrittenSlotIsCongruent` | vse_rps.c:84-86 | so each written slot holds a CPU number congruent to it modulo the table size |
| `Rps.CollideIffCongruent` | vse_rps.c:84-86 | two CPU numbers share a slot exactly if they are congruent modulo the table size |
| `Rps.NoCollisionsIffLarge` | vse_rps.c:84-86 | different CPU numbers never share a slot if and only if the table has at least 256 slots |
| `Rps.RouteKept` | vse_rps.c:83-89 | in a table without collisions no later write undoes an earlier one |
| `Rps.RouteStays` | scripts/set_rps.sh:5-9 | in a table of 256 slots or more, every CPU number ever written stands in the slot of its own number |
| `Rps.StandsIffLastIsSame` | vse_rps.c:84-86 | in a table of any size a write still stands after all others if and only if the last write to its slot was of the same CPU number |
| `Rps.NeverUndoneIffLarge` | scripts/set_rps.sh:5-9 | no write is ever undone, whatever is written, if and only if the table has at least 256 slots |
| `Rps.SockFollowsRequests` | vse_rps.c:83-89 | after any packets over any queues, the shared table is what the requests that found both tables make of it, in order |
| `Rps.QueueFollowsRequests` | vse_rps.c:83-89 | and each queue's table is what those for that queue make of it |
| `RpsTables.HashTable.Store` | vse_rps.c:84-86 | the array holds the CPU number at its remainder modulo the size and is otherwise as it was, which is the write on values |
| `RpsTables.GetRxQueue` | vse_rps.c:42-64 | the recorded queue if it is in use, the first if none is recorded, null if the recorded one is out of range |
| `RpsTables.RpsState.StoreRoute` | vse_rps.c:80-89 | both arrays are written, at the remainder modulo their sizes, if both tables exist, and none otherwise; no other array changes |
| `RpsTables.RpsState.SetSockFlowTable` | vse_rps.c:66-93 | fails exactly if the packet has no queue; the arrays written are that of its queue and the socket table's, and all tables afterwards are those of that one request |
| `RpsTables.RpsState.DoRps` | vse_rps.c:123-133 | the same, and the packet's `rxhash` is the CPU number, `NO_IRQ` included |
| `RpsInterleaving.FlowFollowsBegun` | vse_rps.c:84-85 | however routes interleave, a queue's table is what the routes on it make of it, in the order of their first writes |
| `RpsInterleaving.SockFollowsWrites` | vse_rps.c:86 | and the socket flow table what the second writes make of it, in an order of their own |
| `RpsInterleaving.BegunAccounted` | vse_rps.c:84-86 | every CPU number written first has reached the socket flow table or is outstanding, nothing else has, and the numbers of writes agree |
| `RpsInterleaving.InterleavingIsSerial` | vse_rps.c:83-89 | with a socket flow table of 256 slots or more, any number of complete routes on any queues leaves every table as after routing the packets one after another, under every interleaving |
| `RpsInterleaving.CompleteRouteStands` | scripts/set_rps.sh:5-9 | with both tables of 256 slots or more, a complete route stands in both, whatever is under way or comes later |
| `RpsInterleaving.WritesCommute` | vse_rps.c:84-86 | two writes to one table can be exchanged exactly if their CPU numbers do not collide there |
| `RpsInterleaving.TwoRoutesEnd` | vse_rps.c:83-89 | two complete routes on one queue leave the order of their beginning in its table, and that order or the opposite one in the socket table |
| `RpsInterleaving.OvertakingIsMixed` | vse_rps.c:83-89 | the opposite one is reached when the second route overtakes the first between the tables |
| `RpsInterleaving.UnserialIffCollide` | vse_rps.c:83-89 | two routes on one queue can end with tables that no serial order gives if and only if their CPU numbers are different and share a slot in both tables |
| `Steering.Vse.Classify` | vse_main.c:47-51 | the entry found carries the CPU that the command history gives for the packet as received |
| `Steering.Vse.Deliver` | vse_main.c:53-57 | an entry routes the packet, no entry leaves hash and tables alone; the device is not touched |
| `Steering.Vse.HandleData` | vse_main.c:43-60 | the packet leaves with the CPU of the newest entry whose declared criteria it meets, its route written; if there is none, `rxhash` and every table are unchanged |
| `Steering.Vse.Cleanup` | vse_main.c:83-94 | the hook is gone, the list empty, and every entry freed once |
| `Steering.RunSplits` | vse_main.c:43-60 | a run that mixes packets and control calls leaves the device its control calls alone lead to, and the tables that the packets' requests lead to |
| `Steering.PacketsFollowHistory` | vse_main.c:43-60 | in any such run, each packet leaves with the CPU the calls before it determine, and with nothing changed if they determine none |
| `Steering.RouteStandsToTheEnd` | scripts/set_rps.sh:5-9 | with tables of 256 slots or more, the route of every packet stands in both tables to the end of the run, whatever is published and received later |
| `Executions.AnswerClient` | vse_dev.c:134-229 | one open, ioctl or release on the device object moves globals, list and counter, and answers, as the session model steps |
| `Executions.RunClients` | vse_dev.c:134-229 | a freshly loaded device object under any interleaving of clients ends with the globals, the list, the counter and the answers of the session model |
| `Executions.RunMixed` | vse_main.c:43-60 | a freshly loaded module under any mixture of control calls and packets ends with the globals, the list and all RPS tables of the model of mixed runs; each packet leaves with the hash of its turn, and a buffer received again arrives with the hash it left with |
| `Executions.SessionThenPacket` | vse_set_entry.c:103-153 | on the objects: after a client's session a packet leaves with the CPU of the newest publication of the session it meets, with 255 if it meets the options and they name no CPU, and as before the session if it meets none |
| `Executions.HeldSinceLast` | vse_rps.c:37-40 | between two arrivals a buffer holds the packet it came with and the hash it left with the last time |
| `Executions.HeldFromStart` | vse_main.c:43-60 | a buffer that has not arrived yet holds what it came with |
| `CoreTable.Sampler.constructor` | vse_core_table.c:104-138 | no core has a machine assigned and the first samples are zero |
| `CoreTable.Sampler.GetCpuStatus` | vse_core_table.c:31-40 | the current samples are the counters of every CPU |
| `CoreTable.Sampler.GetCoreTableLoad` | vse_core_table.c:42-59 | each core's load is that of its interval, with wrapping counters and a one-byte result; machine assignments are kept |
| `CoreTable.Sampler.CopyPrevStatus` | vse_core_table.c:61-70 | the previous samples become the current ones |
| `CoreTable.Sampler.Update` | vse_core_table.c:72-78 | loads are measured from the samples of the previous update, and the next interval starts at the present ones |
| `CoreTable.Sampler.RunTimer` | vse_core_table.c:72-87 | over any number of updates each CPU shows the loads of its own successive intervals, without gap or overlap, ends with the last of them, and keeps its machine |
| `CoreTable.Sampler.CoreSelection` | vse_core_table.c:89-102 | returns the least core that has a machine (`vm_id` other than 0xff) and a load below 40, and the current one exactly if there is none |
| `CoreTable.TicksIsDivision` | vse_core_table.c:52-54 | counting whole ticks is truncating division |
| `CoreTable.TickSumIsQuotients` | vse_core_table.c:48-54 | user, nice and system time are each divided into ticks on their own and the quotients added, although the counters wrap |
| `CoreTable.Widths` | vse_core_table.h:30-55 | counters and their differences wrap at 64 bits, loads at 8 |
| `CoreTable.TickSumBound` | vse_core_table.c:48-54 | even when counters wrap, an interval's ticks understate its busy time by at most three partial ticks |
| `CoreTable.LoadIsExactUnlessTruncated` | vse_core_table.c:52-54 | the stored load does so if and only if the ticks fit in its one byte |
| `CoreTable.LoadsAreLowBytes` | vse_core_table.h:32 | over a run the ticks are the loads plus 256 for each wrap of a load |
| `CoreTable.LoadAccounting` | vse_core_table.c:42-78 | over any number of updates, the loads and their wraps account for the busy time since the first sample up to three partial ticks an interval; there are no wraps exactly if every interval's ticks fit in a byte |
| `CoreTable.TimerAccounting` | vse_core_table.c:72-87 | the same of the loads that the timer records for each CPU |
| `CoreTable.SelectedCoreBound` | vse_core_table.c:89-102 | an eligible core was busy for at most 39 ticks and three partial ones in its last interval if and only if its ticks fitted in the byte |
| `CoreTable.SelectAfterUpdates` | vse_core_table.c:72-102 | that holds of the core returned after two successive updates, if one is eligible; otherwise the current core is returned |
| `CoreTable.SelectFromStart` | vse_core_table.c:89-117 | from initialisation on, whatever is sampled, selection returns the current core |
| `CoreTable.FullByteShowsNothing` | vse_core_table.h:32 | a CPU that was busy for 256 ticks shows load 0 |

## Left out

- Module loading, `register_chrdev`, reference counts, printing and `WARN_ONCE`: no property of their own.
- The mlx4 driver and the kernel's own readers and writers of the RPS tables are not part of this model.
- Weak memory, compiler reordering and RCU: see the assumptions.
- Concurrent unloading: `ConcurrentLookup` has one writer that adds; draining is modelled in `FlowTable` with nothing else running.
- `vse_add_table_entry` (vse_flow_table.c:102-119): the same addition with `NO_IRQ`; nothing calls it.
- `vse_check_rps_table` (vse_rps.c:95-121): reads only, and nothing calls it.
- Most of `openflow.h`, and the match fields `dl_src`, `nw_src`, `nw_dst`, `dl_insrc` and others that no code reads or writes: only the wildcard constants are used.
- Command lines that end in an option without a value, which `main` reads beyond, and faults while copying from user memory. The checks `vni < 0` and `irq < 0` can never succeed on unsigned values and have no counterpart.
- CPU hotplug and the difference between possible and online CPUs, which matters for the array sizes in vse_core_table.c:109-126; re-arming the timer is another update.
- Allocation failures while the core table is set up (vse_core_table.c:109-132).
- Matching.DoMatch: takes the intended reading of the unassigned `nw`, see the assumptions; `Matching.TosMatters` says for which records that matters.
- FlowTable.Table.Delete: the poison values that `list_del` leaves in the links are overwritten at once and not modelled; a freed node is recorded as freed, and its memory is never handed out again.
- ConcurrentLookup.LookupIsLinearizable: a reader's examination of one node, its match and the read of its `next` are one step; all of a published node's fields stay constant, so splitting it would add no behaviour.
- Device.VseDevice.SetVni: writes the value and clears the wildcard bit in one assignment, as do the other setters; nothing else runs in between.
- Steering.RunSplits: in mixed runs the receipt of a packet is one step. Its parts are modelled step by step on their own: lookups beside control calls in `ConcurrentLookup`, the two table writes of several packets in `RpsInterleaving`.
- CoreTable.LoadAccounting: a counter may wrap, but must not make a full turn of 2^64 jiffies within one interval, which the counters could not show.
