# USBProxy: descriptors, relays and the mass-storage filter

USBProxy sits between a USB host and a USB device. It reads the device's descriptors into a tree, prints them back for the gadget
side, and relays every endpoint through a reader thread, a bounded queue and a writer thread with a chain of packet filters. This
project models those parts and proves what they keep.

| module | models |
|---|---|
| Wire, Records, Buffers, DefinitionErrors | bytes and words, length/type records, writing through a cursor, the result of `is_defined` |
| Interfaces, InterfaceGroups, Configurations | the descriptor tree: parser, printer, lookups, validator |
| Placement, RoundTrip, Normalisation, Idempotence | what parsing after printing, and printing after parsing, do to a tree and to a chain of records |
| GadgetDescriptor, WalkFailures | the block handed to gadgetfs, the walk that rewrites polling intervals in it, and configurations it leaves half done |
| StringTables, Devices | the string table, the language list, validation of a whole device |
| SafeQueues, Runs | the two-class bounded queue; runs of a machine and counting over them |
| SetupFilters, ControlRelay, ControlHandshake, ControlProgress, ControlLoss, ControlEnd, ControlStop | endpoint 0: two threads and two queues |
| DataRelay, ZeroLength, DataPipeline, DataProgress, DataStop | a data endpoint: reader, injectors and writer over one queue |
| MassStorage, VirtualDisk, WriteBlocking | the mass-storage filter and the disk it pretends to be |
| Criteria, Routing | which filters, injectors and queues belong to which endpoint |
| HexStrings | hexadecimal text in one pre-sized buffer |

Objects that the program updates in place are classes, and each of their methods is proved equal to a function on values; the
properties are lemmas about those functions. Threads are machines whose steps are one queue operation, one proxy call, one filter
pass or one look at a stop flag. Runs interleave the steps freely, and what the outside world answers (the host, the device, the
filters as they stand at that moment) comes with each step, so a statement about every run covers every behaviour of theirs.

Main results:

- `RoundTrip.RoundTrip`: parsing what a defined configuration prints rebuilds the configuration, if and only if its HID and generic
  records are of types the parser files there.
- `Normalisation.Permutation`, `Normalisation.NormalOrder`: parsing and printing a chain sorts it, and keeps its records if and only
  if a condition a caller can check holds. `Idempotence.NormalTwice`: exactly when doing it twice is possible and the same as doing
  it once, told from the chain's first block; `Idempotence.CleanTwice`: always for chains that begin with an interface record.
  `Idempotence.StrayEndpointMoves` and `Idempotence.StrayEndpointOverflows` are the two ways it fails.
- `GadgetDescriptor.GenerateDescriptor`, `GadgetDescriptor.WalkOnDefined`: a host that steps through the block by the lengths it
  states finds every configuration; the walk's pointer arithmetic agrees with the printer, and at either speed it rewrites every
  interval exactly when no endpoint record strayed out of the endpoint slots with an interval to change.
  `WalkFailures.StrayUnpatched` is a configuration where one did, `WalkFailures.AlternateUnpatched` one with two alternate settings.
- `ControlHandshake.Handshake`, `ControlHandshake.OneInFlight`, `ControlHandshake.PollsWhenComplete`: one request at a time, one
  reply each, decided by its own device call, which asks what the host asked. `ControlHandshake.Transparent`: without filters each
  reply is the device's verdict on exactly the host's request.
- `ControlLoss.LostIffSuppressed`, `ControlLoss.ForwardedIffPassed`: a request is lost exactly when the first pass over it says so.
  `ControlProgress.PolledOrLost`: the threads get back to polling within a bound, unless the request was lost or the program is
  over. `ControlEnd.EndsExactly`: when it is over. `ControlEnd.PolledAgain`: so without filters, with a host that stays and keeps its
  configuration, they always do.
- `ZeroLength.StutterEquivalent`, `DataPipeline.ReceivedToSent`, `DataPipeline.SendsAreImages`,
  `DataPipeline.OneTransferAtATime`: of what a proxy hands over on a data endpoint nothing is lost, doubled or reordered, and
  `ZeroLength.OfferedExactly` tells which zero-length transfers are passed on. `DataProgress.WriterKeepsTaking`: the writer keeps
  working until stopped. `DataStop.WriterStops`, `ControlStop.WriterStops`: no lost wake-up.
- `VirtualDisk.LooksWritable`: the host sees an ordinary writable disk, the device sees no write.
  `WriteBlocking.AllOrNothing`, `WriteBlocking.StatusesInOrder`: writes pass or are suppressed whole, with one status each.
  `WriteBlocking.SwitchedByPassword`, `WriteBlocking.PasswordSwitches`: which password turns that on and off.
- `Routing.DataRelays.StartDataRelaying`: every endpoint of the active configuration that can be relayed is, and nothing else is.
- `StringTables.TableIsMap`, `Devices.LookupsTotal`, `HexStrings.WideSpells`.

Where the program and its comments differ, the model follows the program: `DefinitionErrors.h` calls the detail of an invalid
descriptor a byte position counted from one, but `Endpoint::is_defined` reports 5 for `bInterval`, which is byte 7.

What the program takes for granted, and the model states as a precondition: a descriptor chain whose records stay inside the reply
and fit the fixed-size structures, and which has a block for every interface number; data packets of a whole block when the
mass-storage filter looks at block data; non-empty passwords with in-band signalling; string indices inside the table when a
device is validated; a sound language list when a string is added; fewer than 256 filters in the runs of endpoint 0, because the
loop counter is a byte.

## Model

| member | source | states |
|---|---|---|
| Records.RecordsAtFlatten | src/lib/Interface.cpp:24-76 | cutting the bytes of well-formed records at their length bytes gives the records back |
| Records.FlattenRecordsAt | src/lib/Interface.cpp:24-76 | and putting the records of a chain end to end gives its bytes back |
| Records.KindsPartition | src/lib/Interface.cpp:55-76 | HID, endpoint and other records of a block make up the block, none twice |
| Buffers.Memcpy | src/lib/Endpoint.cpp:45-48 | exactly the bytes from the cursor on change, to the source's |
| Buffers.Append | src/lib/Interface.cpp:158-176 | the cursor moves by the record's length and the buffer holds the records written so far |
| Interfaces.FirstBlock | src/lib/Interface.cpp:34-76 | the part of a chain one run of the parsing constructor takes is its first block: the leading records, an interface record and what follows it up to the next interface record |
| Interfaces.ReadLeading | src/lib/Interface.cpp:34-44 | the first loop stops at the first interface record and keeps every record before it as a generic one |
| Interfaces.ReadBody | src/lib/Interface.cpp:55-76 | the second loop stops at the next interface record or the end, and files each record by its type: last HID record, endpoints in order, all others generic |
| Interfaces.ParseInterface | src/lib/Interface.cpp:24-77 | the constructor takes exactly one block off the chain and builds the setting the block describes |
| Interfaces.InterfaceOfIntact | src/lib/Interface.cpp:46-77 | a setting built from a well-formed block has arrays as long as its counters say |
| Interfaces.GetFullDescriptorLength | src/lib/Interface.cpp:137-156 | the length is that of the printed bytes, whatever endpoint slots are empty |
| Interfaces.PrintInterface | src/lib/Interface.cpp:158-176 | the buffer changes in exactly the printed bytes (interface, HID, generic records, endpoints) and the cursor ends behind them |
| Interfaces.EndpointError | src/lib/Endpoint.cpp:56-69 | no error exactly for an endpoint record of the right length, type, address and attributes, with a legal interval |
| Interfaces.InterfaceError | src/lib/Interface.cpp:263-282 | no error exactly when the header is sound and every endpoint slot holds a defined endpoint |
| Interfaces.InterfaceIsDefined | src/lib/Interface.cpp:263-282 | the method reports that verdict, with the first slot that is wrong |
| InterfaceGroups.AddShows | src/lib/InterfaceGroup.cpp:59-79 | the group then shows the setting under its own number and all others as before; alternate setting 255 makes the byte count wrap, and it shows nothing |
| InterfaceGroups.InterfaceGroup.AddInterface | src/lib/InterfaceGroup.cpp:59-74 | the growing method does that to the object |
| InterfaceGroups.InterfaceGroup.GetFullDescriptorLength | src/lib/InterfaceGroup.cpp:36-46 | the length is that of the settings present |
| InterfaceGroups.InterfaceGroup.PrintGroup | src/lib/InterfaceGroup.cpp:48-57 | the settings present are written in order of alternate setting, each byte once, and the cursor ends behind them |
| InterfaceGroups.GroupError | src/lib/InterfaceGroup.cpp:105-117 | no error exactly when every alternate setting is there, defined, and bears its group's and its own number |
| InterfaceGroups.InterfaceGroup.IsDefined | src/lib/InterfaceGroup.cpp:105-117 | the method reports that verdict |
| Configurations.ParseRound | src/lib/Configuration.cpp:49-53 | one round of the parse loop takes a block off the chain and leaves the settings of the rest to be added |
| Configurations.FittingParsable | src/lib/Configuration.cpp:47-52 | records stepped over in a reply are well-formed, so only their fit in the fixed-size structures is taken for granted |
| Configurations.Configuration.ReadInterfaces | src/lib/Configuration.cpp:47-51 | the parse loop gives the table in which the settings of all blocks were added in order |
| Configurations.Configuration.constructor | src/lib/Configuration.cpp:44-75 | parsing a whole reply does that to a new table, and each group has its only setting active or the one the device names |
| Configurations.Configuration.AddInterface | src/lib/Configuration.cpp:141-147 | the setting is added to the group of its number, made if it is missing, and no other group changes |
| Configurations.Configuration.GetFullDescriptorLength | src/lib/Configuration.cpp:114-124 | nine bytes and those of every group present |
| Configurations.Configuration.GetFullDescriptor | src/lib/Configuration.cpp:126-139 | the new buffer is exactly the header and the printed groups: every byte written, none outside |
| Configurations.TreeError | src/lib/Configuration.cpp:194-212 | no error exactly when header, length, attributes and every group are as they should be |
| Configurations.Configuration.IsDefined | src/lib/Configuration.cpp:194-212 | the method reports that verdict |
| Configurations.Configuration.QueryActive | src/lib/Configuration.cpp:54-76 | a group with one setting has it active, any other the one the device names |
| Configurations.Configuration.GetInterfaceAlternate | src/lib/Configuration.cpp:149-153 | the method looks its numbers up in the table |
| Configurations.LookUpTotal | src/lib/Configuration.cpp:149-153 | on a defined configuration a lookup finds something exactly in range, and it bears the numbers asked for |
| Placement.AtAddAll | src/lib/Configuration.cpp:141-147 | after any list of additions a slot shows what the additions to its group leave there one after the other, alternate setting 255 emptying it |
| Placement.ShownStays | src/lib/InterfaceGroup.cpp:59-74 | what a slot shows is a setting that no later one replaces or hides, or was there before |
| Placement.StaysShown | src/lib/InterfaceGroup.cpp:59-74 | and every such setting is shown |
| Placement.LastWithPrinted | src/lib/Configuration.cpp:126-139 | the printed list names each slot at most once, with the setting it shows |
| RoundTrip.BlocksOfPrinted | src/lib/Interface.cpp:158-176 | the parser cuts a printed chain into exactly the printed settings |
| RoundTrip.ReparseTidy | src/lib/Interface.cpp:24-77 | parsing what a well-typed setting prints gives the setting back |
| RoundTrip.Rebuild | src/lib/Configuration.cpp:141-147 | adding a table's printed settings to an empty table rebuilds the table |
| RoundTrip.RoundTrip | src/lib/Configuration.cpp:23-53 | for a defined configuration, print then parse is the identity if and only if every HID and generic record has a type filed there |
| RoundTrip.ParsedAllWellTyped | src/lib/Interface.cpp:55-76 | a chain that begins with an interface record parses into well-typed settings only |
| Normalisation.NormalOrder | src/lib/Configuration.cpp:126-139 | parse then print orders settings strictly by interface number, then alternate setting |
| Normalisation.Permutation | src/lib/Interface.cpp:34-76 | parse then print permutes the records if and only if no block has two HID records, no alternate setting is 255 and no two blocks share their numbers; else records are lost |
| Normalisation.LossFreeTotal | src/lib/Configuration.cpp:114-124 | then the total length is kept |
| Idempotence.SecondPassPossible | src/lib/Interface.cpp:55-63 | the parser can read a normal form if and only if a later block takes the first one's place, or the first one's leading endpoint records have the right size and find room in its endpoint array |
| Idempotence.NormalTwice | src/lib/Interface.cpp:34-76 | for every chain: the second pass is possible and changes nothing if and only if, unless a later block takes the first one's place, its leading endpoint records can be read back and its extra records are in order |
| Idempotence.CleanTwice | src/lib/Interface.cpp:34-76 | a chain that begins with an interface record is normalised by one pass, whatever records that loses |
| Idempotence.LossFreeTwice | src/lib/Interface.cpp:34-44 | on a loss-free chain both conditions are about the first block, with no exception |
| Idempotence.NormalThrice | src/lib/Interface.cpp:34-76 | when the second pass is possible the third is, and it changes nothing |
| Idempotence.StrayEndpointMoves | src/lib/Interface.cpp:34-44 | a chain whose second normalisation is possible and differs from its first |
| Idempotence.StrayEndpointOverflows | src/lib/Interface.cpp:55-63 | a chain whose normal form the parser would read past the end of an endpoint array |
| GadgetDescriptor.NewIntervalEncodes | src/Plugins/Hosts/HostProxy_GadgetFS.cpp:117-126 | for an old interval of at least 1 the new value n satisfies 2^(n-1) <= 8*old < 2^n |
| GadgetDescriptor.PatchSetting | src/Plugins/Hosts/HostProxy_GadgetFS.cpp:104-129 | the inner loops turn buffer and cursor into what the walk function says, for any setting whose walk stays inside the buffer |
| GadgetDescriptor.PatchIntervals | src/Plugins/Hosts/HostProxy_GadgetFS.cpp:100-130 | so does the walk over the active settings of any configuration, however many alternate settings there are |
| GadgetDescriptor.WalkSettingAgrees | src/Plugins/Hosts/HostProxy_GadgetFS.cpp:104-129 | over the print of a filled setting the walk gives the print of the setting with new intervals, and ends behind it |
| GadgetDescriptor.WalkAgrees | src/Plugins/Hosts/HostProxy_GadgetFS.cpp:100-130 | over the print of a table with one setting in each group it gives the print of the table with new intervals |
| GadgetDescriptor.IntervalFixed | src/Plugins/Hosts/HostProxy_GadgetFS.cpp:117-126 | the one interval that is its own new value is 6, besides 0 where the machine makes 0 of it |
| GadgetDescriptor.WalkOnSetting | src/Plugins/Hosts/HostProxy_GadgetFS.cpp:104-129 | for a setting that validates: the walk changes the interval of every endpoint record and nothing else, if and only if the endpoint records kept outside its endpoint slots need no change |
| GadgetDescriptor.WalkChanges | src/Plugins/Hosts/HostProxy_GadgetFS.cpp:100-130 | the same for a table of such settings, one in each group; record lengths never change |
| GadgetDescriptor.WalkOnDefined | src/Plugins/Hosts/HostProxy_GadgetFS.cpp:87-130 | so it is for every configuration that validates at either speed and has one alternate setting per interface |
| WalkFailures.StrayUnpatched | src/Plugins/Hosts/HostProxy_GadgetFS.cpp:100-130 | a configuration parsed from a chain that validates and whose first endpoint record keeps its interval |
| WalkFailures.AlternateUnpatched | src/Plugins/Hosts/HostProxy_GadgetFS.cpp:100-130 | a configuration that validates, with two alternate settings of which the walk patches only the active one |
| GadgetDescriptor.HeaderRewritten | src/Plugins/Hosts/HostProxy_GadgetFS.cpp:96-98 | the rewritten header states the printed length, has the plain type and no remote wakeup, and is otherwise as it was |
| GadgetDescriptor.ContributionStates | src/Plugins/Hosts/HostProxy_GadgetFS.cpp:75-98 | what a configuration contributes states its own length, is of the plain type without remote wakeup, keeps the rest of the header, and goes on with the printed records, or with what the walk makes of them |
| GadgetDescriptor.BlockRead | src/Plugins/Hosts/HostProxy_GadgetFS.cpp:62-134 | stepping through both passes by the lengths stated there finds every contribution, and ends behind the last |
| GadgetDescriptor.RunPass | src/Plugins/Hosts/HostProxy_GadgetFS.cpp:66-86 | one pass writes the configurations one after the other, with rewritten headers, and leaves the rest of the buffer |
| GadgetDescriptor.GenerateDescriptor | src/Plugins/Hosts/HostProxy_GadgetFS.cpp:57-141 | the block is four zero bytes, the pass of one speed, the pass of the other with new intervals, and the device descriptor; stepping from byte 4 by the stated lengths finds every configuration and ends where the device descriptor begins |
| StringTables.USBString.FromUnicode | src/lib/USBString.cpp:62-76 | the string is the text up to its zero, and its length byte is right exactly up to 126 units |
| StringTables.USBString.AppendChar | src/lib/USBString.cpp:111-117 | only the language list grows, by one unit; it stays consistent exactly below 254 bytes |
| StringTables.LookUpAdded | src/lib/Device.cpp:259-297 | adding a string changes the lookup of its own index and language, and no other, though the row doubles up |
| StringTables.TableIsMap | src/lib/Device.cpp:259-297 | after any additions a lookup finds the string added last, or what was there before |
| StringTables.LanguagesComplete | src/lib/Device.cpp:351-359 | the language list stays free of doubles and lists exactly what it listed and the languages used |
| StringTables.ListStays | src/lib/Device.cpp:259-297 | the list stays the first string of row zero while nothing else is added for index and language zero |
| StringTables.StringTable.constructor | src/lib/Device.cpp:111-130 | a device without proxy starts with US English alone |
| StringTables.StringTable.AddLanguage | src/lib/Device.cpp:351-359 | a language is appended if it is not listed; the list stays sound exactly up to 126 languages |
| StringTables.StringTable.AddString | src/lib/Device.cpp:259-297 | rows, growth and language list change as the functions above say, the list being sound exactly up to 126 languages |
| StringTables.StringTable.GetString | src/lib/Device.cpp:317-334 | the lookup, with language zero standing for the first listed one |
| StringTables.StringError | src/lib/Device.cpp:391-410 | no error exactly when the string is there in every listed language, or the index is zero |
| StringTables.StringTable.IsStringDefined | src/lib/Device.cpp:391-410 | the method reports that verdict, with the first language missing |
| Devices.ConfigsError | src/lib/Device.cpp:428-435 | no error exactly when every configuration is there, numbered from one, and defined |
| Devices.DeviceError | src/lib/Device.cpp:412-461 | no error exactly when descriptor, configurations, languages and all referenced strings are as they should be |
| Devices.Device.ConfigurationsDefined | src/lib/Device.cpp:428-435 | the loop over configurations reports the first error |
| Devices.Device.NamesDefined | src/lib/Device.cpp:450-461 | the nested loops check every string reference in order |
| Devices.Device.IsDefined | src/lib/Device.cpp:412-461 | the method reports the device's verdict |
| Devices.LookupsTotal | src/lib/Device.cpp:412-461 | on a device that validates, stated lengths are true, lookups in range succeed with the right numbers, and every string referred to exists in every language |
| Devices.NamesAre | src/lib/Device.cpp:441-461 | the strings that are checked are those of the device, of its configurations and of all their alternate settings, and no others |
| SafeQueues.SafeQueue.Enqueue | src/lib/SafeQueue.hpp:35-46 | appended, or refused at the limit |
| SafeQueues.SafeQueue.EnqueuePriority | src/lib/SafeQueue.hpp:69-80 | the same for the priority class |
| SafeQueues.SafeQueue.Dequeue | src/lib/SafeQueue.hpp:48-67 | the first priority item, or the first normal one when there is none |
| SafeQueues.SafeQueue.IsEmpty | src/lib/SafeQueue.hpp:82 | empty means both classes are |
| SafeQueues.SafeQueue.Size | src/lib/SafeQueue.hpp:84 | the number of items, zero exactly when empty |
| SafeQueues.RunConserves | src/lib/SafeQueue.hpp:35-80 | over every run each class has accepted exactly what it delivered followed by what it holds, and holds at most 10000 |
| SafeQueues.NormalYields | src/lib/SafeQueue.hpp:58-64 | a normal item is delivered only when every priority item has been |
| SafeQueues.RefusedAtLimit | src/lib/SafeQueue.hpp:37-40 | an item is refused only when its class has 10000 undelivered ones |
| SetupFilters.Reach | src/lib/RelayWriter.cpp:110-114 | a pass ends at the first filter that is not wanted any more, or behind the last |
| SetupFilters.NonePicks | src/lib/RelayWriter.cpp:110-114 | filters that do not pick the packet leave it alone |
| SetupFilters.OnePicks | src/lib/RelayWriter.cpp:110-114 | the one filter that picks it makes of it what it does on its own |
| SetupFilters.FilterOut | src/lib/RelayWriter.cpp:110-114 | the first loop applies exactly the filters up to there, in order, when its one-byte counter reaches that far |
| SetupFilters.FilterIn | src/lib/RelayWriter.cpp:134-138 | the second loop does so from where it starts |
| ControlHandshake.FiltersOfReply | src/lib/RelayWriter.cpp:110-138 | the pass over a request ends behind some filter; the pass over the reply to a read starts with the first filter, that over the reply to a write where the first pass ended, and each applies its filters in order |
| ControlHandshake.ReplyAsGiven | src/lib/RelayWriter.cpp:126-138 | when every filter saw the request of a write, the reply is as the device gave it |
| ControlRelay.AfterCall | src/lib/RelayWriter.cpp:119-133 | the packet that comes back makes the reader tell the host exactly the device's verdict; nothing but the verdict, the stated length and the data of a read has changed |
| ControlRelay.ReaderKeeps | src/lib/RelayReader.cpp:69-134 | every step of the reader keeps the handshake's invariant |
| ControlRelay.WriterKeeps | src/lib/RelayWriter.cpp:98-140 | and every step of the writer |
| ControlRelay.RunKeeps | src/lib/RelayReader.cpp:69-134 | so it holds after every interleaving, with stops at any time |
| ControlHandshake.OneInFlight | src/lib/RelayReader.cpp:69-134 | at most one setup packet is in both queues and both threads together, and none while the host is polled |
| ControlHandshake.PollsWhenComplete | src/lib/RelayReader.cpp:71-83 | at every poll, each request so far was put to the device once and answered once, in order |
| ControlHandshake.AskedWhenIdle | src/lib/RelayReader.cpp:80-87 | a request is read only when the transfer of the one before it is complete |
| ControlHandshake.OneForEach | src/lib/RelayWriter.cpp:98-140 | device calls and replies are one for each request, in order, but for what the request under way lacks |
| ControlHandshake.RepliesAreDecided | src/lib/RelayReader.cpp:108-122 | each of send_data, ack and stall follows from the device's answer to that very request, unless a filter changed the packet |
| ControlHandshake.CallsArePassed | src/lib/RelayWriter.cpp:115-127 | each call asks the device what the first pass let through before it, which is what the host asked unless a filter changed it |
| ControlHandshake.Handshake | src/lib/RelayReader.cpp:69-134 | all of this together, over every run, with requests told apart by their number |
| ControlHandshake.Transparent | src/lib/RelayWriter.cpp:98-140 | without filters each reply the host gets is the device's verdict on exactly the request the host made |
| ControlProgress.UndisturbedRun | src/lib/RelayReader.cpp:69-134 | while no stop is requested, a request under way is in flight, complete, or was lost to a filter |
| ControlProgress.BackToPolling | src/lib/RelayReader.cpp:101-131 | the steps until the host is polled again are bounded by a measure of the state and three for each time-out |
| ControlProgress.BlockedWhenLost | src/lib/RelayWriter.cpp:116-117 | both threads block exactly when the request under way was lost to a filter and they have come to rest |
| ControlProgress.PolledOrLost | src/lib/RelayReader.cpp:101-131 | a run the threads cannot prolong without polling has ended at a poll, with the program, or at rest after a suppressed request; its length is bounded as above |
| ControlProgress.LostForGood | src/lib/RelayWriter.cpp:116-117 | after a suppressed request no reply is sent and the host is not polled, however long the threads run |
| ControlLoss.FirstPassIsAsked | src/lib/RelayReader.cpp:80-87 | the first pass is over what the host asked, every part of it still to be filtered and transmitted |
| ControlLoss.DecidedByFilters | src/lib/RelayWriter.cpp:108-117 | over every run: a request is suppressed, or forwarded in a given form, exactly if a first pass over it ended that way |
| ControlLoss.OneFirstPass | src/lib/RelayWriter.cpp:98-117 | no request goes through two first passes |
| ControlLoss.LostIffSuppressed | src/lib/RelayWriter.cpp:116-117 | over every run: the request under way is lost if and only if the first pass over it, wherever it ended, cleared transmit_out or transmit |
| ControlLoss.ForwardedIffPassed | src/lib/RelayWriter.cpp:108-117 | and a request is forwarded if and only if the pass left both set, in the form the pass left |
| ControlLoss.NeverLost | src/lib/RelayWriter.cpp:108-117 | without filters no request is ever lost |
| ControlLoss.PolledWithoutFilters | src/lib/RelayReader.cpp:101-131 | so without filters a run that cannot be prolonged without a poll has ended at a poll or with the program |
| ControlLoss.AllHeard | src/lib/RelayReader.cpp:69-134 | every request of the host, every result of the device and every outcome of a wait is in the trace, in order and nothing else of the kind |
| ControlEnd.PolledIsGiven | src/lib/RelayReader.cpp:74-99 | what the reader acts on after a poll is what the host answered to it |
| ControlEnd.EndsExactly | src/lib/Manager.cpp:666-685 | over every run: the program ends if and only if the reader learns of a disconnect, or another configuration is chosen after one that is not zero |
| ControlEnd.PolledAgain | src/lib/RelayReader.cpp:69-134 | without filters and stops, with no disconnect and no change of configuration, the threads always get back to polling the host, within the bound |
| ControlStop.WriterStops | src/lib/RelayWriter.h:54-58 | once please_stop returned, the setup writer takes at most one item, asks the device at most once, leaves within five steps, and never blocks |
| ControlStop.ReaderStops | src/lib/RelayReader.h:37-41 | the same for the setup reader: at most one reply, two steps |
| ControlStop.FlagsLowered | src/lib/RelayWriter.cpp:142-143 | a thread that left its loop has its flag down, until a later stop |
| DataRelay.FilterPacket | src/lib/RelayWriter.cpp:165-171 | the loop applies every filter that picks the packet, in order, to what the one before left |
| DataRelay.ChainConcat | src/lib/RelayWriter.cpp:165-171 | the filters work one after the other, each on what the ones before left |
| DataRelay.ChainOne | src/lib/RelayWriter.cpp:165-171 | a filter is applied exactly to the packets it picks |
| DataRelay.FreshPacket | src/lib/Packet.h:23-23 | a packet made of a buffer holds it, and is to be filtered and transmitted |
| ZeroLength.CollapseKeepsData | src/lib/RelayReader.cpp:163-179 | collapsing runs of zero-length packets keeps all packets with data, in order |
| ZeroLength.CollapseLast | src/lib/RelayReader.cpp:163-179 | and never removes the end of a sequence |
| ZeroLength.CollapseFixed | src/lib/RelayReader.cpp:163-179 | it is a normal form: it leaves alone exactly the sequences with no two zero-length packets in a row |
| ZeroLength.StutterEquivalent | src/lib/RelayReader.cpp:147-195 | what the proxy hands over and what the reader offers or still holds collapse to the same sequence, whatever the consumer does, but for one buffer that a stop may drop |
| ZeroLength.LeftOutWhileBusy | src/lib/RelayReader.cpp:186-194 | a zero-length packet is left out only behind another one while the queue is not empty |
| ZeroLength.OfferedExactly | src/lib/RelayReader.cpp:186-194 | over every run: a zero-length transfer is passed on exactly if it follows one with data (or 2^32 zero-length ones), or the queue is empty |
| DataPipeline.NothingLost | src/lib/SafeQueue.hpp:35-67 | when nothing is injected or refused, the packets offered are those taken followed by those queued |
| DataPipeline.QueueConserves | src/lib/SafeQueue.hpp:35-80 | each class accepts what it delivers and holds, the one for priority exactly what is injected |
| DataPipeline.InjectedAccepted | src/lib/Injector.cpp:75-89 | the priority class accepts the injected packets, as long as it is not full |
| DataPipeline.SendsAreImages | src/lib/RelayWriter.cpp:155-186 | sends are, in order, the filters' images of taken packets whose transmit flag stayed set; at most one is held back or dropped by a stop |
| DataPipeline.OneTransferAtATime | src/lib/RelayWriter.cpp:155-186 | no send starts before the last one completed |
| DataPipeline.EndToEnd | src/lib/RelayReader.cpp:147-195 | from what the reader's proxy hands over to the writer's hands the transfers are the same up to runs of zero-length ones, those on the way included |
| DataPipeline.ReceivedToSent | src/lib/RelayWriter.cpp:155-186 | from what one proxy hands over to what the other is sent too, when the filters keep the packets, with at most one packet held back or dropped by each stop |
| DataPipeline.PassesAndWaits | src/lib/RelayWriter.cpp:165-185 | the writer's passes are over the filters as they stand then, and its waits end as its proxy says |
| DataPipeline.WholeChain | src/lib/RelayWriter.cpp:165-171 | when nothing is injected or refused, every pass applies the whole chain that stands there |
| DataProgress.ReaderKeepsReceiving | src/lib/RelayReader.cpp:151-195 | until it is asked to stop the reader stays in its loop, with at most four steps between two calls of its proxy |
| DataProgress.WriterKeepsTaking | src/lib/RelayWriter.cpp:154-186 | until it is asked to stop the writer stays in its loop, waits on nothing but an empty queue, and spends at most eight steps on an item and two on a time-out |
| DataProgress.AtWork | src/lib/RelayReader.cpp:151-195 | over every run a thread that was not asked to stop is in its loop |
| DataStop.WriterStops | src/lib/RelayWriter.h:54-58 | once please_stop returned, even with its null packet refused, the writer takes at most one item, starts at most one send, leaves within two steps, and never blocks |
| DataStop.ReaderStops | src/lib/RelayReader.h:37-41 | once asked to stop the reader calls its proxy at most once, offers at most one packet, and leaves within three steps |
| DataStop.FlagsLowered | src/lib/RelayWriter.cpp:187-188 | a thread that left its loop has its flag down, until a later stop |
| MassStorage.HuntIsRight | src/Plugins/Filters/PacketFilter_MassStorage.cpp:145-181 | a password reported is really in the block |
| MassStorage.PacketFilterMassStorage.Search | src/Plugins/Filters/PacketFilter_MassStorage.cpp:148-162 | the loop reports what the search function does |
| MassStorage.PacketFilterMassStorage.CheckForPassword | src/Plugins/Filters/PacketFilter_MassStorage.cpp:145-181 | only the in-band switch changes, as the function says whose meaning SwitchedByPassword and PasswordSwitches give |
| MassStorage.PacketFilterMassStorage.CacheRead | src/Plugins/Filters/PacketFilter_MassStorage.cpp:49-64 | a cached block replaces the packet's, a new one is remembered |
| MassStorage.PacketFilterMassStorage.CacheWrite | src/Plugins/Filters/PacketFilter_MassStorage.cpp:123-142 | the block is remembered under its address |
| MassStorage.PacketFilterMassStorage.QueuePacket | src/Plugins/Filters/PacketFilter_MassStorage.cpp:42-45 | the tag is appended to the pipe |
| MassStorage.PacketFilterMassStorage.FilterPacket | src/Plugins/Filters/PacketFilter_MassStorage.cpp:183-288 | filter and packet become what the step function says |
| MassStorage.PacketFilterMassStorage.GetPackets | src/Plugins/Filters/PacketFilter_MassStorage.cpp:306-335 | the first tag leaves the pipe and becomes a status of success |
| MassStorage.CswIsStatus | src/Plugins/Filters/PacketFilter_MassStorage.cpp:306-335 | a made-up status is itself taken for a status and carries its tag |
| VirtualDisk.WrapperRead | src/Plugins/Filters/PacketFilter_MassStorage.cpp:185-236 | every field of a command wrapper (Bulk-Only Transport 1.0, section 5.1) is read where the host put it, most significant byte first |
| VirtualDisk.WrittenAt | src/Plugins/Filters/PacketFilter_MassStorage.cpp:252-263 | after a write each of its blocks is at its place |
| VirtualDisk.NotWrittenAt | src/Plugins/Filters/PacketFilter_MassStorage.cpp:252-263 | and the rest of the disk is unchanged |
| VirtualDisk.ReadMany | src/Plugins/Filters/PacketFilter_MassStorage.cpp:265-270 | the data of a read becomes the data of the overlaid disk |
| VirtualDisk.WriteMany | src/Plugins/Filters/PacketFilter_MassStorage.cpp:252-263 | the data of a write is held back and overlays the disk, and its status is queued at its last block |
| VirtualDisk.OthersPass | src/Plugins/Filters/PacketFilter_MassStorage.cpp:183-204 | packets of other commands pass unchanged |
| VirtualDisk.LooksWritable | src/Plugins/Filters/PacketFilter_MassStorage.cpp:206-270 | over any sequence of commands each read delivers the device's disk overlaid with the host's earlier writes, each write gets its status, and no packet of a write is transmitted |
| VirtualDisk.EmptyWriteUnanswered | src/Plugins/Filters/PacketFilter_MassStorage.cpp:258-262 | a suppressed write of no blocks never gets a status |
| WriteBlocking.DataOfWrite | src/Plugins/Filters/PacketFilter_MassStorage.cpp:252-263 | inside a write the decision to block, the tag and the block count stay, whatever the blocks hold |
| WriteBlocking.AllOrNothing | src/Plugins/Filters/PacketFilter_MassStorage.cpp:220-263 | a write passes unchanged as a whole or is suppressed as a whole, and then of n >= 1 blocks it queues exactly one status, at the n-th |
| WriteBlocking.SwitchedByPassword | src/Plugins/Filters/PacketFilter_MassStorage.cpp:145-181 | the switch goes off only when written data holds the unblock password, and on only when it holds the block password |
| WriteBlocking.PasswordSwitches | src/Plugins/Filters/PacketFilter_MassStorage.cpp:145-181 | and it does when the block begins with that password and has room for it twice |
| WriteBlocking.SwitchTakesEffect | src/Plugins/Filters/PacketFilter_MassStorage.cpp:220-224 | with in-band signalling the switch decides whether the next write goes to the device |
| WriteBlocking.DataChangesFromCache | src/Plugins/Filters/PacketFilter_MassStorage.cpp:183-288 | a packet's data changes only to the cached block at a read, its length never, and only packets of a write are held back |
| WriteBlocking.WrittenIsRead | src/Plugins/Filters/PacketFilter_MassStorage.cpp:49-64 | with caching a written block is what a later read of its address delivers, blocked or not |
| WriteBlocking.ReadStays | src/Plugins/Filters/PacketFilter_MassStorage.cpp:49-64 | and so is a block that was read |
| WriteBlocking.OthersLeaveAlone | src/Plugins/Filters/PacketFilter_MassStorage.cpp:240-249 | other commands, and packets that are no data, change nothing |
| WriteBlocking.StatusesInOrder | src/Plugins/Filters/PacketFilter_MassStorage.cpp:306-335 | the k-th made-up status carries the k-th queued tag, over any mix of packets and fetches |
| Routing.Slot | src/lib/Injector.cpp:23-29 | an address has one place, told by direction and number |
| Routing.SiteIsLast | src/lib/Manager.cpp:420-432 | a place is wired for the last endpoint with its direction and number that is not isochronous |
| Routing.EndpointSitesAre | src/lib/Manager.cpp:414-418 | of each setting every endpoint that is there is considered, in order, and nothing else |
| Routing.SitesAre | src/lib/Manager.cpp:404-418 | over a whole configuration, exactly the endpoints of its settings |
| Routing.FiltersForAre | src/lib/Manager.cpp:455-467 | a filter is applied to an endpoint exactly if it is registered and passes all four criteria |
| Routing.FiltersForConcat | src/lib/Manager.cpp:455-467 | filters are applied in the order of registration |
| Routing.FiltersForOne | src/lib/Manager.cpp:455-467 | and each at most once |
| Routing.Injector.SetQueue | src/lib/Injector.cpp:23-29 | only the place of the address changes |
| Routing.Injector.Deliver | src/lib/Injector.cpp:75-89 | an injected packet goes ahead of the normal ones on the queue of its own direction and number, or back, and no other queue changes |
| Routing.DefinedFull | src/lib/Configuration.cpp:194-212 | a configuration that validates lacks nothing the loops dereference |
| Routing.DataRelays.EnumerateEndpoints | src/lib/Manager.cpp:404-437 | over all interfaces, alternate settings and endpoints of the configuration, every place in use gets its endpoint and a new queue of its own |
| Routing.DataRelays.PlacedServes | src/lib/Manager.cpp:404-453 | then every endpoint that is not isochronous has its place in use, and every place in use holds such an endpoint of the configuration |
| Routing.DataRelays.CreateRelays | src/lib/Manager.cpp:439-453 | reader and writer of a data endpoint share its queue, IN endpoints are read from the device and written to the host, OUT endpoints the other way round, and those of the control endpoint stay |
| Routing.DataRelays.ApplyFilters | src/lib/Manager.cpp:455-467 | each writer ends with exactly the filters that pass all four criteria, in the order of registration |
| Routing.DataRelays.ApplyInjector | src/lib/Manager.cpp:471-480 | an injector gets exactly the queues of the data endpoints it fits |
| Routing.DataRelays.ApplyInjectors | src/lib/Manager.cpp:469-481 | so it is for every injector |
| Routing.DataRelays.StartDataRelaying | src/lib/Manager.cpp:399-481 | all of this together: the places in use are those of the endpoints of the configuration that can be relayed, each injector has exactly the queues of those it fits, and the control endpoint stays |
| Routing.DataRelays.InjectedStaysHome | src/lib/Injector.cpp:75-89 | a packet injected for one endpoint never lands on another's queue |
| HexStrings.HexStringWide | src/lib/HexString.cpp:50-83 | all writes stay inside, and the buffer is the text and the terminator, with one byte never written at an exact multiple of the width |
| HexStrings.HexString | src/lib/HexString.cpp:85-107 | up to 32 bytes the plain text and the terminator, above that the wide form |
| HexStrings.PlainReadsBack | src/lib/HexString.cpp:85-107 | reading the digits of the plain form gives the bytes back |
| HexStrings.WideReadsBack | src/lib/HexString.cpp:50-83 | and those of the wide form |
| HexStrings.WideSpells | src/lib/HexString.cpp:50-83 | the wide form is a readable string if and only if the length is no multiple of the width, or zero |

## Left out

- Transports: libusb, gadgetfs, asynchronous I/O, TCP, ZeroMQ and pcap; the calls into them are answers that come with a step.
- Leaving a chosen configuration or losing the host ends the program (`src/lib/Manager.cpp:544`); the model's run ends there.
- The queue's destructor, which wakes a blocked reader with a null item; queues outlive the runs modelled here.
- Packets on endpoint 0 that are no setup packets, which the threads skip; only injectors could put them there.
- Injected setup packets: their replies go to the queue the host's replies go to, so the handshake is claimed without them.
- `DeviceProxy_Loopback`, the key logger, ROT13, the printers, configuration files, plug-in loading and the command line.
- `Interface::add_endpoint` and `Interface::add_generic_descriptor`: settings are values here, as parsing builds them; two references to one setting are not modelled.
- The constructors of descriptors from separate fields, and those of strings from the device or from ASCII text.
- The number of generic records of a setting is a byte in the program; the model takes chains with at most 255 of them per setting.
- The device qualifier in `Device::is_defined`; validation is of devices without one.
- Configurations.Configuration.constructor: takes the device's reply as a whole; the two requests that fetch it and their failures are not modelled.
- SetupFilters.FilterOut: does not cover a pass that outruns its one-byte counter; it wraps, and the loop need not end.
- GadgetDescriptor.PatchIntervals: asks that the walk stay inside the buffer; with several alternate settings the program can leave it.
- GadgetDescriptor.GenerateDescriptor: asks for one alternate setting per interface on the pass that rewrites intervals.
- StringTables.StringTable.AddLanguage: asks for a list whose length byte is right; past 126 languages the program reads behind the list's buffer.
- StringTables.StringTable.AddString: asks for the same list.
- GadgetDescriptor.NewIntervalEncodes: is about the exact logarithm the comment in the source states; rounding of `log10` is not modelled, and the new value for interval 0 is a parameter.
- MassStorage.HuntIsRight: does not say that every password is found; the search restarts without looking at the present byte again and stops short of the block's end; one at the beginning of a block is found (WriteBlocking.PasswordSwitches).
- MassStorage.PacketFilterMassStorage.Search: compares bytes; where plain `char` is signed, password bytes from 0x80 on match nothing.
- MassStorage.PacketFilterMassStorage.FilterPacket: takes packets one after the other; the program's two writer threads share the filter without a lock, and dispatch through `RelayWriter` is not claimed.
- MassStorage.PacketFilterMassStorage.CacheWrite: keeps blocks as values in a map; failing allocation and the printed difference are not modelled.
- VirtualDisk.LooksWritable: has write blocking and caching on and in-band signalling off; with blocking off, a write of several blocks is cached under its first address only.
- VirtualDisk.LooksWritable: asks for writes of at least one block, because an empty one is never answered.
- Claiming interfaces and telling the device proxy which endpoint belongs to which interface.
- Routing.DataRelays.StartDataRelaying: is the first start; later starts keep readers and writers but replace queues. The two directions share tables of 32 places instead of two times 16.
- DataPipeline.EndToEnd: does not follow a packet's length through its 16-bit field; it speaks of the bytes received.
- Starting, joining and restarting threads, and memory: freeing, leaks and failing allocation.
