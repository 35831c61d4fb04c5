# Verified models of the Bluetooth daemon and of the player's text building

The player ships a slice of a Bluetooth daemon. These Dafny modules model the parts of it that have
state, arithmetic or a wire format, in the form of the C code (classes whose methods update fields,
loops over arrays), and prove what that code keeps.

- **Extended inquiry response** (`EirFormat`, `EirParser`, `EirEncoder`, `EirRoundTrip`): the
  length/type/value format of the Core Specification, Vol 3, Part C, section 8. A recursive decoder is
  the meaning of a byte string; the pointer loop refines it; the encoder writes exactly the bytes of a
  field list under the 240-byte budget; both ends are joined by a round trip.
- **MD5** (`Md5Words`, `Md5Block`, `Md5`): the unrolled block function against the table-driven form of
  RFC 1321, and the streaming context against the one-shot digest.
- **Attribute database** (`AttDatabase`, `AttAllocator`, `AttQueries`): the sorted list, the two
  allocators of free handles, the four range queries and what each calls the end of a service.
- **Discovery** (`DiscoveryFilter`, `DiscoveryClients`): merging client filters into one kernel filter,
  and the two client lists kept by asynchronous steps. The filter in force covers every discovering
  client after every sequence of events.
- **Service authorization** (`AuthQueue`): conservation and order of the request queue, and when
  somebody attends to its head.
- **GATT cache** (`GattDb`, `GattText`, `GattStore`, `GattCache`, `GattRoundTrip`, `GattExact`): the
  attribute database of a device, the lines as sprintf writes and sscanf reads them, the saver, the
  two passes of the loader, and what comes back.
- **Advertising instances** (`Advertising`), **default agents** (`AgentStack`) and **SQL text**
  (`SqlText`).

`Bytes`, `Sequences` and `Text` hold what several of them use.

Properties that do not hold of the code as it stands are stated with their exact condition:

- The SOME tag of a UUID field does not mean that a UUID is missing: the space test comes before the
  duplicate test (`SomeTagWithoutOmission`, `SomeTagOmitsIff`).
- The downward allocator can answer a block that overlaps an attribute which no service owns
  (`OrphanOverlap`, `Answer128IsFree`).
- `read_by_group` gives its last group the last handle of the database when it runs off the list, even
  if a service of the other kind follows (`SecondaryServiceIsSwallowed`, `GroupEndsAgree`,
  `AllGroupEndsAgree`).
- `read_by_type` takes length 0 for "no length yet" (`EmptyFirstMatchMixesLengths`, `UniformExactlyIf`).
- A comment of `merge_discovery_filters` says that pathloss is filtered in the daemon. For every filter
  that is accepted, the test there is always true (`ProximityNeverRejects`).
- A filtered client that disconnects while it alone discovers stays behind as a preset client
  (`LoneClientStaysBehind`), and a preset client that disconnects while another one alone discovers
  stops that one (`OtherDiscoveryStops`): only the number of discovering clients counts. `Disconnect`
  has the condition.
- An agent's late reply answers the next request in the queue if its own was answered meanwhile because
  the device had become trusted (`LateReply`); `AgentReply` has the condition.
- A queued request can be left alone: when the one in front of it is withdrawn (`WithdrawnHead`), or for
  good once the number of a removed idle source is kept (`StaleSource`). `AuthQueue.Authorizations.Step`
  has both conditions.
- A client can be among those that discover while discovery neither runs nor will (`LateStarter`,
  `RejectedStop`, `FailedStart`). `DiscoveryClients.Adapter.Step` has the condition.
- `find_insert_loc` does not see a service that lies wholly inside the new one
  (`ContainedServiceIsMissed`, `PlaceIsFreeIff`).
- `name2utf8` needs more than its buffer for an invalid name of 250 bytes without a NUL, or of more
  (`AsciiInBuffer`).
- The GATT cache drops the descriptors of the database hash (`HashDescriptorIsLost`, `CompleteIff`),
  renumbers includes (`IncludeMoves`), and is refused as a whole if an extended-properties descriptor
  is stored without a value, because its characteristic lacks the property bit or no such descriptor
  of it has a value of two bytes whose low byte is not zero (`MissingBitRefusesAll`), or if an include
  leads to a service that is not active (`CacheRoundTrip`). Lines of the same handle replace each other
  (`SharedHandleRefusesAll`). `ComesBackIff` says when the database comes back as it was.
- A block without any field leaves the transmit power of a zeroed record at 0 instead of 127, since
  nothing is parsed then (`RoundTrip`).

`dafny verify dfyconfig.toml` checks the project.

## Model

| member | source | states |
|---|---|---|
| `EirFormat.FieldsOfEncode` | `include/src/eir.c:265-281` | decoding a run of encoded fields gives those fields back, then whatever the rest holds |
| `EirFormat.FieldsAreMaximalPrefix` | `include/src/eir.c:265-281` | on every byte string the decoded fields are the maximal well-formed prefix: they encode to a prefix, and no field starts behind it |
| `EirFormat.StuckTailIsIgnored` | `include/src/eir.c:265-278` | bytes behind a zero length, or behind a field that runs over the end, never change the result |
| `EirFormat.ParseTurn` | `include/src/eir.c:265-380` | one turn of the loop, a field consumed and applied, leaves the meaning of the whole string unchanged |
| `EirFormat.AsciiIsUtf8` | `include/src/eir.c:140-161` | every ASCII name without NUL is accepted as UTF-8, so it is kept unchanged |
| `EirParser.AsciiInBuffer` | `include/src/eir.c:148-160` | an invalid name keeps every access inside the buffer on the stack if and only if it is shorter than the buffer, or as long and holds a NUL; then the text is its ASCII form, stripped |
| `EirParser.Name2Utf8` | `include/src/eir.c:140-161` | the C loop computes the name text: the bytes themselves if valid, otherwise ASCII with spaces, stripped |
| `EirParser.EirData.ParseUuid16` | `include/src/eir.c:81-98` | the list grows by all 16-bit UUIDs of the field, in order; nothing else changes |
| `EirParser.EirData.ParseUuid32` | `include/src/eir.c:100-117` | the same for 32-bit UUIDs |
| `EirParser.EirData.ParseUuid128` | `include/src/eir.c:119-138` | the same for 128-bit UUIDs, each with its bytes reversed |
| `EirParser.EirData.ParseServiceData` | `include/src/eir.c:197-238` | service data is recorded under its UUID exactly if the field is long enough and at most 238 bytes |
| `EirParser.EirData.ParseField` | `include/src/eir.c:280-377` | the switch does to the record what the type of the field asks for |
| `EirParser.EirData.Parse` | `include/src/eir.c:254-381` | the pointer loop refines the recursive decoder on every buffer, reading inside it only; a null buffer resets flags and power |
| `EirParser.EirData.ParseOob` | `include/src/eir.c:383-404` | fails exactly on a block that is too short or lies about its length, and then changes nothing; otherwise address and fields are applied |
| `EirEncoder.DistinctOnce` | `include/src/eir.c:556-587` | a UUID field is free of duplicates and holds only eligible UUIDs of the list |
| `EirEncoder.DistinctOfPrefix` | `include/src/eir.c:556-587` | the UUIDs listed for a prefix of the list are a prefix of those for all of it |
| `EirEncoder.AllTagIsComplete` | `include/src/eir.c:570-593` | a field tagged ALL holds every eligible UUID |
| `EirEncoder.OmitsIffOverCapacity` | `include/src/eir.c:556-593` | whatever its tag, a field omits an eligible UUID exactly if there are more different ones than fit |
| `EirEncoder.SomeFieldListsPrefix` | `include/src/eir.c:570-593` | a field tagged SOME lists the distinct eligible UUIDs of a prefix of the list |
| `EirEncoder.SomeTagOmitsIff` | `include/src/eir.c:570-593` | a field tagged SOME omits an eligible UUID if and only if the distinct ones do not happen to fill it |
| `EirEncoder.SomeTagWithoutOmission` | `include/src/eir.c:423-463` | counterexample: a block of fourteen 128-bit UUIDs, one of them repeated, is tagged SOME although its field has every UUID of the list |
| `EirEncoder.CollectUuid16` | `include/src/eir.c:556-587` | the pass stops at the first eligible UUID that finds the field full, stays inside the scratch array, and leaves there the listed UUIDs |
| `EirEncoder.CollectUuid128` | `include/src/eir.c:416-453` | the 128-bit pass, whose duplicate search compares reversed bytes in the buffer, writes exactly the listed UUIDs and stops when full |
| `EirEncoder.GenerateUuid128` | `include/src/eir.c:408-464` | writes the 128-bit field: present with no UUID if one was cut, absent if nothing is eligible |
| `EirEncoder.EncodeAllFields` | `include/src/eir.c:466-613` | all the fields together keep to the 240 bytes of EIR data |
| `EirEncoder.OobBytes` | `include/src/eir.c:466-613` | the block has between 8 and 8 + 240 bytes |
| `EirEncoder.CreateOob` | `include/src/eir.c:466-613` | exactly the returned number of bytes is written, they are the block, and every other byte of the buffer keeps its value |
| `EirRoundTrip.Uuids16Back` | `include/src/eir.c:598-601` | 16-bit UUIDs read back as the list that was written |
| `EirRoundTrip.Uuids128Back` | `include/src/eir.c:119-138` | 128-bit UUIDs read back as the list that was written, although both sides reverse bytes |
| `EirRoundTrip.RoundTrip` | `include/src/eir.c:383-613` | for every address, class, key, name, device id and UUID list: parsing the written block into a zeroed record gives the address, the low 24 bits of the class, the keys, the name cut to 48 bytes, the device id if the vendor is not zero, and the 16-bit then 128-bit UUIDs listed |
| `EirRoundTrip.NameComesBack` | `include/src/eir.c:523-540` | a name that is valid after the cut comes back cut, and marked complete exactly if nothing was cut |
| `EirRoundTrip.Transfer` | `include/src/eir.c:383-613` | the two imperative pieces run one after the other over one buffer satisfy the round trip |
| `Md5Words.DecodeEncode` | `include/md5.h:188-212` | Decode undoes Encode on every word array |
| `Md5Words.EncodeDecode` | `include/md5.h:188-212` | Encode undoes Decode on every byte array whose length is a multiple of four |
| `Md5Words.Encode` | `include/md5.h:187-200` | the loop writes the little-endian bytes of the words and touches nothing behind them |
| `Md5Words.Decode` | `include/md5.h:202-211` | the loop reads the little-endian words |
| `Md5Block.FourSteps` | `include/md5.h:106-176` | four unrolled steps bring every register back to its name: they are four steps of the table-driven form |
| `Md5Block.Round1` | `include/md5.h:106-122` | the sixteen statements of round one are steps 1 to 16 of RFC 1321, section 3.4 |
| `Md5Block.Round2` | `include/md5.h:124-140` | round two is steps 17 to 32 |
| `Md5Block.Round3` | `include/md5.h:142-158` | round three is steps 33 to 48 |
| `Md5Block.Round4` | `include/md5.h:160-176` | round four is steps 49 to 64 |
| `Md5Block.MD5Transform` | `include/md5.h:100-185` | the unrolled code refines the table-driven block function |
| `Md5.ChainExtend` | `include/md5.h:259-260` | transforming one more block extends the fold over the full blocks |
| `Md5.BufferIndex` | `include/md5.h:242-243` | the position in the buffer can be read off the low counter word |
| `Md5.CounterStep` | `include/md5.h:246-249` | the counter statements with their split carry add 8 times the length modulo 2^64 |
| `Md5.MD5.Update` | `include/md5.h:237-271` | for every way of cutting the input: afterwards the full blocks are chained, the buffer holds exactly the tail, and the counter is right |
| `Md5.MD5.AppendPadding` | `include/md5.h:280-289` | the two calls of Final append exactly the padding and the length before padding of RFC 1321, sections 3.1 and 3.2 |
| `Md5.MD5.Final` | `include/md5.h:275-298` | the digest is that of the whole message in one go, its text two digits a byte, and the context is wiped |
| `Md5.DigestFile` | `include/md5.h:320-341` | for every sequence of reads the digest is that of the concatenation |
| `Text.HexBytesAt` | `include/md5.h:301-307` | digit pair i of the text is byte i of the digest |
| `AttDatabase.SortedIsCanonical` | `include/src/attrib-server.c:250-256` | a strictly ascending database is determined by which attributes it holds |
| `AttDatabase.GattServer.AddNew` | `include/src/attrib-server.c:339-365` | refuses a used handle and changes nothing; otherwise exactly the new attribute is added and the order stays strictly ascending |
| `AttDatabase.GattServer.Del` | `include/src/attrib-server.c:1598-1625` | removes exactly the attribute with the handle, or reports that there is none |
| `AttDatabase.GattServer.Update` | `include/src/attrib-server.c:1557-1596` | changes value, and type if one is given, of that attribute only |
| `AttAllocator.FindUuid16Avail` | `include/src/attrib-server.c:1435-1475` | the upward scan answers the first gap in front of a service, below the first 128-bit service, or the free top |
| `AttAllocator.Answer16IsFree` | `include/src/attrib-server.c:1435-1475` | every nonzero answer starts a block of unused handles inside 1 to 0xffff that lies below all 128-bit services |
| `AttAllocator.FindUuid128Avail` | `include/src/attrib-server.c:1477-1521` | the downward scan answers the highest gap behind a service, above the last 16-bit service |
| `AttAllocator.Answer128IsFree` | `include/src/attrib-server.c:1477-1521` | a nonzero answer starts a block of unused handles if and only if some gap behind a service holds the block, or the database is empty, or the room below the first service reaches above every attribute that no service owns; it lies above all 16-bit services |
| `AttAllocator.OrphanOverlap` | `include/src/attrib-server.c:1489-1520` | counterexample: with an attribute in front of every service the answer overlaps it |
| `AttAllocator.PlacedKeepsOrder` | `include/src/attrib-server.c:1523-1555` | placing a service where its allocator says keeps 16-bit services below 128-bit ones |
| `AttAllocator.RunsStayOrdered` | `include/src/attrib-server.c:1435-1521` | over every run of placements and removals 16-bit services stay below 128-bit services and every attribute has a service |
| `AttAllocator.RunsPlaceOnFreeHandles` | `include/src/attrib-server.c:1435-1521` | after every run, wherever an allocator points the whole block is unused |
| `AttAllocator.AddBlock` | `include/src/attrib-server.c:339-365` | on a free block every single add succeeds |
| `AttAllocator.RegisterService` | `include/src/attrib-server.c:1523-1555` | finding a place and adding the attributes: a found place takes the whole service, no place changes nothing |
| `AttQueries.MatchesAll` | `include/src/attrib-server.c:438-461` | the positions a query is about are exactly the attributes in range that match |
| `AttQueries.FindSvcRange` | `include/src/attrib-server.c:258-292` | finds a service declaration and the last attribute before the next service of either kind |
| `AttQueries.FindByType` | `include/src/attrib-server.c:703-761` | answers exactly the matching attributes, each with the end of its group; the error cases and codes |
| `AttQueries.FindByTypeAgrees` | `include/src/attrib-server.c:258-292` | its ends are those of find_svc_range if and only if the service ends inside the range; up to 0xffff always |
| `AttQueries.ReadByType` | `include/src/attrib-server.c:534-584` | the first matches as long as they are readable and fit the length; which error comes when |
| `AttQueries.TypeAnswerIsUniform` | `include/src/attrib-server.c:550-584` | for a first value that is not empty, the longest run of matches with one length, in strictly ascending handle order |
| `AttQueries.UniformExactlyIf` | `include/src/attrib-server.c:550-584` | all values of an answer have one length if and only if the first match is not empty or no match has a value |
| `AttQueries.EmptyFirstMatchMixesLengths` | `include/src/attrib-server.c:550-584` | counterexample: with an empty first value, two attributes of two lengths are answered together |
| `AttQueries.FindInfo` | `include/src/attrib-server.c:623-701` | the longest run of attributes in range with one UUID width, its format, and no answer at all for 32-bit UUIDs |
| `AttQueries.ReadByGroup` | `include/src/attrib-server.c:413-502` | lengths are compared before permissions; every group but the last ends where the next service starts; the last one runs to the end of the database if the scan does |
| `AttQueries.GroupEndsAgree` | `include/src/attrib-server.c:439-502` | exactly when a reported end is that of find_svc_range: always for a group that another one follows, otherwise by how the scan ended |
| `AttQueries.AllGroupEndsAgree` | `include/src/attrib-server.c:439-502` | up to 0xffff, with nothing at 0xffff: all ends agree if and only if some match does not fit the common length or the last service of the database has the requested type |
| `AttQueries.SecondaryServiceIsSwallowed` | `include/src/attrib-server.c:439-502` | counterexample: the only primary service is reported to end with the secondary service behind it |
| `DiscoveryFilter.ParseFilter` | `include/src/adapter.c:2304-2513` | which dictionaries are refused, that an empty one stands for no filter, that an accepted filter says what the last entry of each kind says and names exactly the UUIDs of all, is in range and never has both limits |
| `DiscoveryFilter.ExtractUniqueUuid` | `include/src/adapter.c:1942-1949` | inserts a UUID into a strictly ascending list unless it is there |
| `DiscoveryFilter.MergeDiscoveryFilters` | `include/src/adapter.c:1955-2028` | bearers are the union; the limit is the lowest if every filter sets one and none otherwise; the UUIDs are the ascending union, or none if a filter names none; a regular client clears the filter |
| `DiscoveryFilter.IsFilterMatch` | `include/src/adapter.c:6007-6059` | the loop with its flag decides exactly whether some client matches |
| `DiscoveryFilter.KernelPassesExactly` | `include/src/adapter.c:1955-2028` | without a regular client the merged filter passes a device if and only if some filter scans its bearer, some accepts its UUIDs and some accepts its signal |
| `DiscoveryFilter.NoWantedDeviceIsLost` | `include/src/adapter.c:1976-2028` | a device that some client wants passes both the merged filter and the match in the daemon |
| `DiscoveryFilter.ProximityNeverRejects` | `include/src/adapter.c:6047-6051` | for accepted filters the proximity test is always true: only UUIDs decide |
| `DiscoveryFilter.MergedIsCanonical` | `include/src/adapter.c:2088-2114` | lists of filters that say the same give the same merged filter, so the comparison part by part finds it |
| `DiscoveryFilter.RearrangedSaysTheSame` | `include/src/adapter.c:2102-2111` | reordering or repeating clients, or UUIDs inside a filter, says the same |
| `DiscoveryFilter.AscendingIsCanonical` | `include/src/adapter.c:2103-2111` | two strictly ascending lists with the same members are equal |
| `DiscoveryClients.MergedCovers` | `include/src/adapter.c:1955-2028` | a merged filter covers every client it was merged from |
| `DiscoveryClients.RemovalKeeps` | `include/src/adapter.c:1864-1890` | removing a client keeps owners unique, presets filtered and the timer for someone |
| `DiscoveryClients.Adapter.Remove` | `include/src/adapter.c:1864-1890` | the client leaves both lists, or stays as a preset one with its filter; without clients the timer is disarmed |
| `DiscoveryClients.Adapter.UpdateFilter` | `include/src/adapter.c:2116-2159` | the current filter is the merged one; discovery is restarted unless it is unchanged and running |
| `DiscoveryClients.Adapter.StopClient` | `include/src/adapter.c:2161-2198` | when a stop takes effect at once and what it leaves, and when it has to wait for the kernel |
| `DiscoveryClients.Adapter.StartDiscovery` | `include/src/adapter.c:2235-2302` | who starts, with which filter, when a reply is owed later, and every refusal |
| `DiscoveryClients.Adapter.Enlist` | `include/src/adapter.c:2282-2302` | the client comes first in the list, and is owed a reply exactly if discovery is restarted |
| `DiscoveryClients.Adapter.SetDiscoveryFilter` | `include/src/adapter.c:2515-2570` | sets, replaces or takes away the filter of a discovering or a preset client, and nothing of any other client |
| `DiscoveryClients.Adapter.StopDiscovery` | `include/src/adapter.c:2572-2606` | refused, done at once, or pending, with the whole new state: both lists, the timer, the filter and what is sent |
| `DiscoveryClients.Adapter.Disconnect` | `include/src/adapter.c:2200-2207` | a client that disconnects is forgotten at once if and only if two clients discover or discovery is idle |
| `DiscoveryClients.Adapter.StopComplete` | `include/src/adapter.c:1892-1927` | after the kernel stopped the client no longer discovers, but it stays as a preset one if it has a filter, even after a disconnection; the timer stays as it was if someone still discovers |
| `DiscoveryClients.Adapter.StartComplete` | `include/src/adapter.c:1452-1528` | which commands, flags and replies a finished start leads to, in every case |
| `DiscoveryClients.Adapter.StartTimeout` | `include/src/adapter.c:1530-1614` | the one command sent when the timer fires, told from the state before; the filter in it covers every client |
| `DiscoveryClients.Adapter.DiscoveringChanged` | `include/src/adapter.c:1712-1764` | when a report of the kernel arms or disarms the timer |
| `DiscoveryClients.Adapter.Suspend` | `include/src/adapter.c:1655-1689` | disarms the timer and stops a running discovery only if someone discovers |
| `DiscoveryClients.Adapter.Resume` | `include/src/adapter.c:1691-1710` | arms the timer only if someone discovers |
| `DiscoveryClients.Adapter.PowerDown` | `include/src/adapter.c:6336-6356` | both lists are emptied and the timer is disarmed |
| `DiscoveryClients.LoneClientStaysBehind` | `include/src/adapter.c:1864-2207` | counterexample, from a new adapter: one filtered client starts, disconnects and is stopped; it stays as a preset client |
| `DiscoveryClients.OtherDiscoveryStops` | `include/src/adapter.c:2161-2207` | counterexample, from a new adapter: a preset client disconnects and the discovery of another one is stopped |
| `DiscoveryClients.Adapter.Step` | `include/src/adapter.c:1452-2606` | whoever discovers is served: discovery runs, the timer is armed, it is suspended or a start is on its way. Each event keeps this if and only if it is none of four: a lone start that finds the old filter while discovering is still noted, the completed stop of one client while others wait, a start that fails for the client in front, a suspension completed after it was resumed |
| `DiscoveryClients.LateStarter` | `include/src/adapter.c:1892-2302` | counterexample, from a new adapter: who starts while the only other client is being stopped is told that all is well and is not served |
| `DiscoveryClients.RejectedStop` | `include/src/adapter.c:1892-2302` | counterexample, from a new adapter: discovery ends by itself, so that stopping fails; the next client is not served |
| `DiscoveryClients.FailedStart` | `include/src/adapter.c:1513-1521` | counterexample, from a new adapter: a client whose start fails is not served, and can neither start again nor stop |
| `DiscoveryClients.Adapter.Run` | `include/src/adapter.c:1452-2606` | over every sequence of events: each owner at most once in both lists, presets have filters, the timer only for someone, and the current filter covers every discovering client |
| `AuthQueue.ExactlyOnePlace` | `include/src/adapter.c:6413-6650` | every accepted request is queued, or was answered in turn, or was cancelled, or was dropped: one of these, once |
| `AuthQueue.ServeKeeps` | `include/src/adapter.c:6416-6430` | answering the head keeps the account and the order of answers |
| `AuthQueue.CancelKeeps` | `include/src/adapter.c:1217-1231` | cancelling from anywhere keeps the account, the order, and the agent at the head |
| `AuthQueue.DropKeeps` | `include/src/adapter.c:6628-6650` | so does dropping a request |
| `AuthQueue.Authorizations.Authorize` | `include/src/adapter.c:6517-6560` | refused without a device or while disconnecting; otherwise queued last under a new number |
| `AuthQueue.Authorizations.Cancel` | `include/src/adapter.c:6628-6650` | takes out exactly that request, without an answer |
| `AuthQueue.Authorizations.ServicesComplete` | `include/src/adapter.c:6504-6515` | that request no longer waits; nothing else changes |
| `AuthQueue.Authorizations.RemoveDevice` | `include/src/adapter.c:1200-1234` | the others stay queued in order, and exactly the requests of the device are cancelled, in order; nothing else of the history changes |
| `AuthQueue.Authorizations.AgentReply` | `include/src/adapter.c:6413-6442` | the head is answered; it is the request the agent was asked about if and only if that one is still queued |
| `AuthQueue.LateReply` | `include/src/adapter.c:6413-6502` | counterexample: a request is asked about and then answered because its device became trusted when another one came; the late reply of the agent answers the next request |
| `AuthQueue.Authorizations.Process` | `include/src/adapter.c:6444-6502` | terminates; which requests in front are answered and how, and what the first remaining one waits for |
| `AuthQueue.Authorizations.Step` | `include/src/adapter.c:1200-6650` | somebody attends to the head: it waits for services or an agent, or the queue will be processed. Each event keeps this if and only if it does not take away the head in front of a request that is ready, without the source being armed, and the number of the source is not stale; when that number becomes stale, and that it stays so |
| `AuthQueue.WithdrawnHead` | `include/src/adapter.c:6628-6650` | counterexample: the request behind one that waits is not processed when that one is withdrawn |
| `AuthQueue.BecomeStale` | `include/src/adapter.c:6431-6436` | the reply to the last request removes the source that a withdrawn one had armed, but keeps its number |
| `AuthQueue.StaleSource` | `include/src/adapter.c:6413-6560` | counterexample: after that no request is ever answered, whatever events follow |
| `AuthQueue.Authorizations.Run` | `include/src/adapter.c:1177-6650` | over every run: conservation, first in first out apart from removals, and an agent only at the head; once the number of the source is stale, only replies still to come answer anything |
| `GattDb.InsertLoc` | `include/src/shared/gatt-db.c:600-631` | the first service that the range meets with one of its ends, or else the first one behind it |
| `GattDb.PlaceIsFreeIff` | `include/src/shared/gatt-db.c:600-631` | inserting at the place found keeps the ranges apart if and only if no service lies wholly inside the new one |
| `GattDb.ContainedServiceIsMissed` | `include/src/shared/gatt-db.c:617-624` | counterexample: a range around a service is inserted behind it |
| `GattDb.InsertLast` | `include/src/shared/gatt-db.c:600-631` | a service behind all others is inserted at the end |
| `GattDb.FindIs` | `include/src/shared/gatt-db.c:1457-1482` | among ascending ranges a handle leads to the one service that holds it |
| `GattText.ServiceBack` | `include/src/device.c:3413-3448` | a service line gives back the service |
| `GattText.IncludeBack` | `include/src/device.c:3380-3391` | an include line gives back where the included service starts; its handle, end and UUID are dropped |
| `GattText.ChrcBack` | `include/src/device.c:3331-3351` | a characteristic line gives back value handle, properties, hash if there is one, and UUID; its own handle is dropped |
| `GattText.UuidIsNoHash` | `include/src/device.c:3344-3351` | a UUID cannot be mistaken for a hash |
| `GattText.BytesBack` | `include/src/device.c:3269-3281` | reading the digits of a hash gives its bytes back |
| `GattText.Str2Val` | `include/src/device.c:3269-3281` | the loop reads pairs of digits until one is no number or enough are read |
| `GattText.DescBack` | `include/src/device.c:3283-3311` | a descriptor line reads back, except an extended-properties descriptor without a value |
| `GattText.KindBack` | `include/src/device.c:3486-3523` | the kind that is read is the text in front of the first colon that was written |
| `GattText.MistakenKind` | `include/src/device.c:3482-3530` | in a file that the saver did not write, an extended-properties value from 0x2800 to 0x2803 makes its line fail |
| `GattText.LineBack` | `include/src/device.c:3283-3448` | a line gives back what the loader takes from it if and only if it is readable |
| `GattStore.Saver.StoreChrc` | `include/src/device.c:2182-2231` | writes the line of the characteristic, then its descriptors with its extended properties, and none for the database hash |
| `GattStore.Saver.StoreIncl` | `include/src/device.c:2233-2261` | writes the include if there is an attribute where it points |
| `GattStore.Saver.StoreService` | `include/src/device.c:2263-2294` | writes the service, its includes, its characteristics |
| `GattStore.Saver.StoreDb` | `include/src/device.c:2296-2337` | sets the lines of every active service in the order of the database |
| `GattStore.WrittenIff` | `include/src/device.c:2179-2290` | the file gets a line for every entry if and only if no two of them belong to the same handle; otherwise one has replaced another |
| `GattStore.NestedIsOneWalk` | `include/src/shared/gatt-db.c:1410-1447` | visiting characteristics and then the descriptors of each is one walk over the attributes |
| `GattStore.AllStoredIff` | `include/src/device.c:2199-2230` | every descriptor has a line if and only if each follows a characteristic other than the database hash |
| `GattStore.CompleteIff` | `include/src/device.c:2158-2294` | a service is stored with a line for every attribute if and only if no descriptor is an orphan or belongs to the database hash |
| `GattCache.LoadFile` | `include/src/device.c:3450-3536` | two passes: services first, then everything; one bad line refuses the file |
| `GattCache.RestoredSize` | `include/src/device.c:3450-3536` | whatever a file holds, it makes at most one service or attribute for each line |
| `GattCache.ApplyEntry` | `include/src/shared/gatt-db.c:786-1054` | what a stored line inserts: an include behind the last slot whatever its handle was, a characteristic by the handle of its value; and when it fails |
| `GattCache.FillBody` | `include/src/device.c:3480-3530` | the lines behind a service line fill its slots in order, or nothing is loaded |
| `GattRoundTrip.BodyOk` | `include/src/device.c:3480-3530` | all lines of a stored service can be loaded if and only if its includes lead to active services and its extended-properties descriptors are stored with a value |
| `GattRoundTrip.DeclareAll` | `include/src/device.c:3457-3478` | after the first pass every active service is declared, with its range |
| `GattRoundTrip.FillAll` | `include/src/device.c:3480-3533` | the second pass fills every service, or fails at the first that cannot be loaded |
| `GattRoundTrip.CacheRoundTrip` | `include/src/device.c:3450-3536` | with a handle of its own for every line, a stored database is loaded, in its loaded form, if every active service can be, and otherwise refused as a whole; with a shared one what is loaded is smaller than what was written |
| `GattRoundTrip.StoreAndLoad` | `include/src/device.c:2158-3536` | storing and loading put together |
| `GattExact.ItemsIff` | `include/src/device.c:2158-3536` | the attributes of a service come back as they were if and only if includes lead on the handles behind the declaration, values are those the cache stores, and every descriptor has a characteristic that stores it |
| `GattExact.ComesBackIff` | `include/src/device.c:2158-3536` | storing and loading gives the database back if and only if the handles of its attributes differ, every active service can be loaded, every service is active and every attribute is kept |
| `GattExact.HashDescriptorIsLost` | `include/src/device.c:2199-2230` | counterexample: a database hash with a descriptor is loaded without it |
| `GattExact.IncludeMoves` | `include/src/device.c:3386-3404` | counterexample: an include with a gap in front of it comes back on another handle |
| `GattExact.MissingBitRefusesAll` | `include/src/device.c:3307-3311` | counterexample: an extended-properties descriptor under a characteristic without the property bit makes the whole cache unreadable |
| `GattExact.SharedHandleRefusesAll` | `include/src/shared/gatt-db.c:786-830` | counterexample: a characteristic whose value follows its service declaration at once replaces the line of the service, and the whole cache is unreadable |
| `Advertising.SetAndClear` | `src/bluez_util.c:134-155` | setting or clearing the bit of one identifier changes that of no other |
| `Advertising.UidMap.Get` | `src/bluez_util.c:134-146` | takes the least free identifier up to the maximum; 0 exactly if there is none |
| `Advertising.UidMap.Clear` | `src/bluez_util.c:149-155` | frees that identifier only; 0 changes nothing |
| `Advertising.HowMany` | `include/src/advertising.c:1226-1237` | distinct identifiers up to m are at most m, and m exactly if none is missing |
| `Advertising.LeastClearIsFree` | `include/src/advertising.c:1181-1188` | the least clear bit is the least instance no live client holds; there is none exactly if all are live |
| `Advertising.EchoIsNeeded` | `include/src/advertising.c:991` | the account survives an answer of the kernel if and only if it echoes the requested instance |
| `Advertising.Manager.Register` | `include/src/advertising.c:1147-1194` | who is refused, and that an accepted client gets the least free instance |
| `Advertising.Manager.Remove` | `include/src/advertising.c:178-202` | the client leaves the queue and keeps its instance until it is freed |
| `Advertising.Manager.Unregister` | `include/src/advertising.c:1196-1224` | removes exactly the client that is named |
| `Advertising.Manager.AddComplete` | `include/src/advertising.c:957-1010` | keeps the client, or takes it out if the kernel failed |
| `Advertising.Manager.FreeIdle` | `include/src/advertising.c:105-137` | the first waiting client is freed and the bitmap is again that of the live ones |
| `Advertising.Manager.SupportedInstances` | `include/src/advertising.c:1226-1237` | the subtraction never underflows |
| `Advertising.Manager.Run` | `include/src/advertising.c:105-1237` | over every run a bit is set exactly if one live client holds the instance, and no instance exceeds the maximum |
| `AgentStack.WithoutAgentIsOneLess` | `include/src/agent.c:168-184` | taking an agent out of the queue removes one occurrence of it |
| `AgentStack.FrontAfter` | `include/src/agent.c:168-184` | only if the agent in front leaves does the capability in front change |
| `AgentStack.RaisingIsUndone` | `include/src/agent.c:151-184` | an agent that was the default for a while leaves the queue as if it had never asked |
| `AgentStack.AgentManager.AddDefault` | `include/src/agent.c:151-166` | the agent comes to the front, the others keep their order |
| `AgentStack.AgentManager.RemoveDefault` | `include/src/agent.c:168-184` | the next agent becomes the default |
| `AgentStack.AgentManager.Create` | `include/src/agent.c:275-296` | the first agent is the default, any other comes last |
| `AgentStack.AgentManager.Register` | `include/src/agent.c:939-970` | each refusal, and the whole new state |
| `AgentStack.AgentManager.Disconnect` | `include/src/agent.c:186-200` | the agent disappears from table and queue, although it is taken out twice |
| `AgentStack.AgentManager.Unregister` | `include/src/agent.c:972-996` | each refusal, and the whole new state |
| `AgentStack.AgentManager.RequestDefault` | `include/src/agent.c:998-1021` | each refusal, and the whole new state |
| `AgentStack.AgentManager.Get` | `include/src/agent.c:259-273` | the agent of the owner, else the default; none only if no agent is registered |
| `AgentStack.AgentManager.Run` | `include/src/agent.c:138-1021` | over every run each registered agent is queued once, and the capability pushed last is that of the one in front, or invalid |
| `SqlText.EscapedBack` | `src/db.cpp:500-505` | an escaped text inside quotes reads back as it was, whatever follows |
| `SqlText.UnescapedBack` | `src/db.cpp:89-93` | without escaping a text reads back if and only if it has no quote |
| `SqlText.Escape` | `src/db.cpp:500-505` | the replacement in place computes the escaped text |
| `SqlText.ValuesBack` | `src/db.cpp:101-115` | the VALUES text reads back as one row per string, in order, each equal to the original |
| `SqlText.Database.AddToPlaylist` | `src/db.cpp:101-115` | pushes the two statements, and the rows of the second are exactly the given strings; nothing for an empty list |

## Left out

- D-Bus, the main loop, key files, the management socket and sockets: a command that is sent is recorded, a completion is an event, a timer is armed or not.
- Allocation failures, logging, property-changed signals and reference counts.
- EirParser.Name2Utf8: for an invalid name that does not fit into the buffer of the C code the model goes on with a sequence that has no bound; UTF-8 validity is the predicate of RFC 3629 without NUL.
- EIR: 16-, 32- and 128-bit UUIDs are values; their conversion to text, and its failure for unknown widths, is not part of this model. `HCI_MAX_EIR_LENGTH` (240) and the service class of the device id record (0x1200) come from headers that are not part of the repository.
- EirRoundTrip.RoundTrip: the name is a C string, so it holds no zero byte.
- Md5.MD5.Update: `UINT4` is the four-byte word of its comment, not the wider type of an LP64 platform; one call is at most 2^32 - 64 bytes, so that `i + 63` does not wrap.
- ATT: encoding of the answers, the limit of a list by the MTU, the callback of an attribute (its result is the parameter `status`, together with the permission check), and notification sessions.
- AttAllocator.RegisterService: the permissions of the attributes are set to 0, as they play no part in placing them.
- AttAllocator.FindUuid128Avail: handle 0, which the Attribute Protocol reserves, is not in the database.
- Attributes, clients and queued requests are values in a sequence that the methods replace, identified by handle, owner or number; the aliasing of pointers to them is not captured.
- DiscoveryFilter.ParseFilter: UUID texts are numbers with the same order; an entry of a wrong type and an unknown key are one case.
- DiscoveryFilter.MergeDiscoveryFilters: the number of UUIDs is not cut to 16 bits.
- DiscoveryFilter.KernelPassesExactly: the kernel is modelled by what the code says of the filter: 127 stands for no limit, no UUIDs for any.
- DiscoveryClients.Adapter.Step: the kernel answers every command that starts discovery; which commands are under way is counted beside the fields of the adapter.
- DiscoveryClients.Adapter.Run: the scan type of the adapter stays the same; the discoverable flag, passive scanning and temporary devices are left out; a completion for a client that is gone from both lists does nothing.
- AuthQueue.Authorizations.Run: callbacks do not touch the queue; numbers do not wrap at 2^32 and are counted for one adapter; an idle source that is armed runs at some time, nothing is claimed about when.
- GattText.LineBack: white space, signs and a 0x prefix in front of a scanned number or word, which the stored lines never have, are not skipped; UUIDs are their canonical 36 characters and compared as text.
- GattText.ChrcBack: the text of a hash is a value; that the array of 32 characters it is scanned into has no room for its end is not modelled.
- GattText.Str2Val: reading stops at the end of a text that has an odd digit.
- GattDb: services and their slots are values that insertion replaces; read and write callbacks, permissions, notification and the hash of the database are left out, and an attribute is a declaration by its kind, not by its type.
- GattStore.Saver.StoreDb: a key file is the sequence of its lines, in which setting a key that is there replaces its line where it stands; the database does not include a service that has been removed.
- GattCache.LoadFile: a key file has each key once; the database that is filled is empty before; what a refused file leaves in it is not described.
- Advertising.Manager.Run: a client is removed once, the features are read before any registration, and the kernel echoes the instance; what is advertised is left out.
- AgentStack.AgentManager.Run: adapters start with an invalid capability; the requests that agents serve are left out.
- SqlText.Database.AddToPlaylist: the name of the playlist is not quoted and not part of the claim; texts hold no zero character.
- Pairing, the remaining adapter and device code, UUID and appearance tables, playlists, tags, joystick, network and user interface of the player: lookup, plumbing or library calls.
