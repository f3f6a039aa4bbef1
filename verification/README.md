# USB/IP service discovery: a verified model

The repository is a set of user-space programs for USB/IP: a server that exports the USB devices
of a host over TCP, a client that imports them into virtual ports of the vhci driver, and a window
that lists the devices found on the network. This project models the parts of it that keep state
or speak a protocol, and proves what they keep, what they undo and what they agree on.

`dafny verify dfyconfig.toml` checks everything.

## What is modelled

- **The usb.ids database** (`Gf2Hash`, `NameTable`, `UsbIdsSpec`, `UsbIds`, `UsbIdsForms`,
  `UsbIdsLineEnds`, `UsbIdsSections`, `UsbIdsIgnored`, `UsbIdsDatabase`). The hash
  function is division over GF(2); the five chained tables are heap chains tied to a map; the
  line parser with its five registers is tied to a pure grouping of lines in which the first
  definition wins. On text, each form of line is read back, the lines that name nothing can be left
  out, and a database written to a file is answered from after reading it back.
- **The exported-device list** (`Ring`, `HostDriver`). The circular intrusive list on the heap, and
  the driver that empties, refills, counts, indexes and walks it.
- **The protocol** (`WireCodec`, `Transfer`, `Devlist`, `ExportDecision`, `RequestHandler`,
  `ServerReplies`, `ImportClient`, `ImportExchange`, `ImportServer`, `ImportPeriods`). Records and
  headers in the memory of hosts of either byte order, the transfer loops, the two request handlers
  and the client on byte streams, the requests and replies byte by byte,
  one import exchange as a machine whose every step moves some bytes, any number of forked
  handlers with stale snapshots in front of one kernel, and the two together.
- **Virtual ports on the client** (`CText`, `VhciStatus`, `ConnectionRecord`, `Ports`, `PortRuns`).
  The status texts scanned into the port table, the search for a free port, the connection record,
  attach and detach as single calls, and any interleaving of them.
- **Binding on the server** (`BindOrder`). The ordered writes to the driver and the match list, any
  of which may fail, with the history of every intermediate state.
- **The window's list** (`DeviceWindow`, `DeviceClicks`). The join of the old rows with a new discovery result, and
  the button of a row with the ports it takes and frees.

`Words` and `Wrappers` hold the fixed-width integers and the option type, `Runs` what is true of
the runs of any state machine.

Code that changes things in place is written as methods on classes and arrays and proved against
functions; the theorems are lemmas about those functions, or about runs of a state machine where
several processes interleave.

The kernel and udev are not part of the repository. They enter as parameters and under these
assumptions: a write that fails has no effect; a socket is taken only from a device that is
available, and a port only when it is free; a device leaves the used state only by being released;
usbip-host takes a probed device only from its match list; bus ids of devices have at most 31
characters; `send` moves at least one byte of a
non-empty buffer or fails.

## What came out

Some expectations one could have of the code do not hold; each is replaced by the exact condition.

- *At most one ST_OK reply per device between two releases.* Grants obey this
  (`OneGrantPerPeriod`). Replies do when no device is released while an ST_OK reply for it is still
  to be sent (`OneOkReplyPerRelease`), and only then (`EarlyReleaseBreaks`, `EarlyReleaseHappens`).
  Importers obey it too: between the decisions for two of them lies a release
  (`OneImporterPerPeriod`).
- *The device-list reply decodes to the list.* The count is kept in 32 bits, so this holds exactly
  below 2^32 devices (`ReplyDecodes`).
- *A state file belongs to the holder of its port.* Overlapping calls break it
  (`OverlapLeavesFile`); `HonestExactly` says which runs keep it.
- *A detach ends the attachment it saw.* If the port was freed and attached again in the meantime it
  ends the later one (`StaleDetach`, `StaleDetachFrees`).
- *An attach gets a port of the hub it needs.* A slot keeps 8 bits of its port, so a free port from
  256 on is offered as another port (`AliasedOffer`). `OfferExactly` says when that one is of the
  right hub and when it is free, and `RightHubsExactly` on which machines, all those of at most 256
  ports among them, no run goes wrong.
- *An attach ends.* While the offered port is held, the loop of `import_device` retries it for ever
  with its old table, even when another port is free (`RetriesInVain`); from 256 ports on this can
  happen to an attach that runs alone (`AttachStuck`).
- *`reset_bind_device` works from every driver.* `bind_device` compares a prefix of the driver's
  name where `unbind_device` compares the whole name, so a driver called usbip-host-something is
  neither unbound nor bound (`ResetBindDevice`, `OnlyLooksBound`, `ResetLookalike`).
- *`detach_port` rejects what it does not know.* It returns 0 for a port that is unknown or already
  detached, cuts the number to 8 bits (`DetachPort`, `PortReadsBack`), and goes ahead with port 0
  when no status line lists it, because that slot is all zero (`DetachedPorts`).
- *A vendor line is read as one.* The id C with a blank after it is taken for the mark of a class
  (`VendorReadsBack`).
- *Any id heads a section.* A vendor, class or subclass whose id is kept as FFFFFFFF sits in its
  register as -1, "none", so nothing is filed below it, and below any other id everything is
  (`IndentedBelow`, `DoubleIndentedBelow`). On text these are the ids of 2^64 and more and those
  that are FFFFFFFF modulo 2^32 (`NoIdExactly`), 1FFFFFFFF among them (`EndsInFs`).
- *A line of the database names one thing.* A line of more than 510 characters is read as two or
  more, cut after 511 (`LongLineSplit`).
- *An attached device keeps its row.* Only if the next result lists it; otherwise the row and with it
  the port are forgotten while the port stays attached (`AttachedSurvives`, `RowForgotten`).
- *The port of an attached row is in use.* Refreshes keep this, and so do clicks, except one that
  detaches a port another row shows (`Click`); such rows come from a result that lists a device
  twice (`TwoRowsOnePort`).
- `usbip_generic_driver_close` empties the list and keeps `ndevs` (`Close`), and
  `usbip_net_recv_op_common` leaves `*status` unset after a failed receive or a version mismatch
  (`RecvOpCommon`).

## Model

| member | source | states |
|---|---|---|
| Gf2Hash.RemainderUnique | src/libs/names.c:80-93 | division by x^4 + x over GF(2) has at most one remainder, so "the remainder" is well defined |
| Gf2Hash.ReduceDivides | src/libs/names.c:84-93 | the loop of `hashnum`, on a bit string of any length from 4, leaves the quotient in the high bits and the remainder modulo x^4 + x in the four low bits |
| Gf2Hash.RemainderLinear | src/libs/names.c:84-93 | the remainder of a sum is the sum of the remainders, for bit strings of any length |
| Gf2Hash.HashIsRemainder | src/libs/names.c:84-93 | any division of a 32-bit input by x^4 + x yields its hash |
| Gf2Hash.HashLinear | src/libs/names.c:84-93 | the hash of an exclusive-or is the exclusive-or of the hashes |
| Gf2Hash.LoopStep | src/libs/names.c:86-91 | one turn of the loop, with its masks and exclusive-or on machine words, is one step of the division |
| Gf2Hash.HashNum | src/libs/names.c:84-93 | the in-place loop returns the remainder, below 16 |
| NameTable.PushSearch | src/libs/names.c:206-223 | a node put before the chain of its bucket answers for its key and shadows no other key |
| NameTable.Tables.constructor | src/libs/names.c:95-99 | empty tables answer nothing |
| NameTable.Tables.Lookup | src/libs/names.c:101-157 | the walk along a bucket's chain answers as the map the tables stand for |
| NameTable.Tables.New | src/libs/names.c:206-307 | a new key is added, a key already present keeps its name and is reported; chains stay acyclic, every node in the bucket of its own hash, no key twice |
| NameTable.Tables.Push | src/libs/names.c:216-223 | a fresh node at the front of its bucket adds one key to the map |
| UsbIdsSpec.FirstDefinitionIsFirst | src/libs/names.c:309-490 | the specification of a lookup: the name from the first line that defines the key, nothing exactly when no line does |
| UsbIdsSpec.NextRegisters | src/libs/names.c:313-317 | how one line of each kind moves the five registers, given that they hold the grouping of the lines above |
| UsbIdsSpec.DefinitionFromRegisters | src/libs/names.c:405-467 | in every state of the parser at most one register names a parent, a subclass is set only below a class, and the registers decide what a line defines: no product under a class, no subclass under a vendor |
| UsbIdsSpec.AddAllAnswers | src/libs/names.c:309-490 | adding the definitions of all lines one after the other makes every key answer with its first definition, unless it had a name before |
| UsbIds.ParseLine | src/libs/names.c:323-488 | the branches for one buffer: registers and tables end as the grouping of the lines read so far requires |
| UsbIds.ParseRest | src/libs/names.c:379-488 | the branches after the class lines |
| UsbIds.ParseClass | src/libs/names.c:355-378 | a class line opens its section even when it is a duplicate; without a name it changes nothing |
| UsbIds.ParseVendor | src/libs/names.c:388-404 | a vendor line, likewise |
| UsbIds.ParseIndented | src/libs/names.c:405-443 | a product below a vendor or a subclass below a class |
| UsbIds.ParseDoubleIndented | src/libs/names.c:444-467 | a protocol below a class and subclass |
| UsbIds.ParseNext | src/libs/names.c:320-328 | one `fgets` takes one line from the front of the file |
| UsbIds.Parse | src/libs/names.c:309-490 | after the whole file every lookup in the five heap tables gives the first definition in the file, unless the key had a name before |
| UsbIdsForms.ShortIdKept | src/libs/names.c:390-390 | an id of up to 8 digits keeps its value |
| UsbIdsForms.VendorReadsBack | src/libs/names.c:355-404 | id, white space and name at the start of a line are read as a vendor with that id and name, but for the one-digit id C with a blank after it, which is read as a class line |
| UsbIdsForms.ClassReadsBack | src/libs/names.c:355-378 | the same after `C `: a class, with any id |
| UsbIdsForms.IndentedReadsBack | src/libs/names.c:405-411 | the same after one tab |
| UsbIdsForms.DoubleIndentedReadsBack | src/libs/names.c:444-450 | the same after two tabs |
| UsbIdsForms.FileReadsBack | src/libs/names.c:320-328 | a file of lines of at most 510 characters is read exactly line by line |
| UsbIdsForms.LongIdCut | src/libs/names.c:390-390 | an id of nine to sixteen digits keeps its last eight |
| UsbIdsForms.MarkedNumber | src/libs/names.c:390-390 | an id may stand behind 0x or 0X |
| UsbIdsForms.AnyIdAndName | src/libs/names.c:388-396 | the name is what follows the digits without leading white space; a line with nothing there has no name |
| CText.DigitsMean | src/libs/names.c:388-390 | the sixteen digits in either case and their values |
| CText.NoOtherDigits | src/libs/names.c:388-390 | no other character is a digit |
| CText.SpacesMean | src/libs/names.c:391-392 | the six characters that count as white space |
| CText.ValueJoins | src/libs/names.c:390-390 | a digit string cut in two: the value of the first part counts in units of the base to the length of the second |
| UsbIdsIgnored.UsageForm | src/libs/names.c:472-481 | a line that starts with `HUT ` heads a usage table |
| UsbIdsIgnored.LanguageForm | src/libs/names.c:345-353 | a line that starts with `L ` heads a language |
| UsbIdsIgnored.MarksIgnored | src/libs/names.c:329-344 | comments, empty lines and the marks PHYSDES, PHY, BIAS, AT, HCC, HID, R and VT are among the lines that are passed over |
| UsbIdsIgnored.IgnoredForm | src/libs/names.c:329-488 | a line that is passed over defines nothing and opens no section; so are classes and tabs without an id and everything that starts with no mark, id or tab |
| UsbIdsIgnored.NamelessForm | src/libs/names.c:391-397 | nor does an id without a name, in any of the four places an id can stand |
| UsbIdsIgnored.IgnoredLeftOut | src/libs/names.c:309-490 | on the text of a file: every lookup is the same without a line that is passed over |
| UsbIdsIgnored.NamelessLeftOut | src/libs/names.c:309-490 | and without an id that has no name |
| UsbIdsIgnored.EntryLeftOut | src/libs/names.c:309-490 | and without an indented line below a `HUT ` or `L ` heading, whatever section stands above |
| UsbIdsLineEnds.ReturnIgnored | src/libs/names.c:322-328 | a line may end in a carriage return before its newline |
| UsbIdsLineEnds.LastLine | src/libs/names.c:320-328 | the last line counts without a line end |
| UsbIdsLineEnds.LongLineSplit | src/libs/names.c:320-328 | a line of more than 510 characters is cut after 511 and the rest is read as the next line |
| UsbIdsSections.SectionIs | src/libs/names.c:309-490 | a line stands below the last heading above it |
| UsbIdsSections.IndentedBelow | src/libs/names.c:405-443 | what a line indented once defines below its vendor or class: nothing exactly when the heading's id is FFFFFFFF |
| UsbIdsSections.DoubleIndentedBelow | src/libs/names.c:444-467 | what a line indented twice defines below its class and subclass: nothing exactly when the id of one of them is FFFFFFFF |
| UsbIdsSections.NoIdExactly | src/libs/names.c:318-403 | the ids on text that end up as FFFFFFFF: those whose value is 2^64 or more, or FFFFFFFF modulo 2^32 |
| UsbIdsSections.EndsInFs | src/libs/names.c:390-401 | every id that ends in eight F is one of them, such as 1FFFFFFFF |
| UsbIdsSections.EntryBelowVendor | src/libs/names.c:388-443 | on the text of a file: an entry below a vendor is lost exactly when the vendor's id is one of them |
| UsbIdsDatabase.DatabaseReadsBack | src/libs/names.c:309-490 | parsing the file that lists a database of vendors, products, classes, subclasses and protocols adds exactly its names, in its order |
| UsbIdsDatabase.AddNamesAnswers | src/libs/names.c:206-307 | added in order, every key answers with the first name it is given, unless it had one |
| UsbIdsDatabase.NameIfListed | src/libs/names.c:101-157 | in a database that names no key twice, the name of a key is the one listed with it |
| UsbIdsDatabase.NamesInit | src/libs/names.c:493-504 | from a file that lists a database, every lookup in the heap tables then answers from that database |
| Ring.LinksInverse | src/libs/list.h:19-32 | in a ring next and prev are inverse to each other and never leave the ring |
| Ring.ContentsUnique | src/libs/list.h:111-112 | the links determine the members and their order |
| Ring.InitListHead | src/libs/list.h:28-32 | an initialised head lists nothing |
| Ring.Insert | src/libs/list.h:40-48 | four link assignments; other links of the neighbours stay |
| Ring.ListAdd | src/libs/list.h:58-61 | the new node becomes the first member; only it, the head and the old first node are touched |
| Ring.Join | src/libs/list.h:70-74 | two nodes become neighbours; their other links stay |
| Ring.ListDel | src/libs/list.h:91-96 | the member leaves the ring, the others keep their order, its own links are poisoned |
| Ring.First | src/libs/list.h:111-112 | a walk starts at the first member, or at the head when there is none |
| Ring.Next | src/libs/list.h:111-112 | a walk goes on to the next member and is back at the head after the last |
| HostDriver.PushedReverses | src/libs/usbip_host_common.c:144-162 | putting each accepted device at the front lists them in reverse enumeration order |
| HostDriver.ListedExactly | src/libs/usbip_host_common.c:144-162 | a record is listed exactly when some entry of the enumeration opens, uses the driver and has that record; one for each such entry, the last of them first |
| HostDriver.Driver.Consider | src/libs/usbip_host_common.c:146-161 | an entry that opens, uses the driver and has a record becomes the first device and `ndevs` grows by one; any other changes neither |
| HostDriver.Driver.RefreshExportedDevices | src/libs/usbip_host_common.c:130-165 | the accepted devices, reversed, come before the old contents, and `ndevs` grows by their number |
| HostDriver.Driver.AddFirst | src/libs/usbip_host_common.c:159-159 | a new node becomes the first device |
| HostDriver.Driver.UnlinkFirst | src/libs/usbip_host_common.c:172-176 | the first member is unlinked and poisoned; nodes unlinked before stay poisoned |
| HostDriver.Driver.ExportedDeviceDestroy | src/libs/usbip_host_common.c:167-177 | the safe walk unlinks every member once, in order, follows no poisoned link and leaves the head alone |
| HostDriver.Driver.Close | src/libs/usbip_host_common.c:198-206 | the list is emptied while `ndevs` keeps its value |
| HostDriver.Driver.GenericRefreshDeviceList | src/libs/usbip_host_common.c:208-222 | the list becomes the records of the entries that open, use the driver and have one, in reverse enumeration order, none missing, and `ndevs` its length |
| HostDriver.Driver.GenericGetDevice | src/libs/usbip_host_common.c:279-294 | the n-th device, or nothing when n is out of range |
| WireCodec.NetworkOrder16 | src/client/usbip_network.c:76-86 | converted for the network, a 16-bit number lies in memory high byte first; converting twice restores it |
| WireCodec.NetworkOrder32 | src/client/usbip_network.c:64-74 | the same for 32 bits |
| ServerReplies.ByteOrder | src/client/usbip_network.c:64-86 | in network order the most significant byte comes first, on a little-endian host last |
| WireCodec.PackedFields | src/client/usbip_network.h:33-38 | any packed structure, converted field by field by any host, lies in memory as a big-endian host would store it |
| WireCodec.MemoryLayout | src/libs/usbip_common.h:111-129 | the offset and form of every field of a device record, 312 bytes in all |
| WireCodec.HeaderLayout | src/client/usbip_network.h:21-31 | the offset and form of every field of the common header |
| WireCodec.UnpackedIsDecoded | src/client/usbip_network.c:88-97 | unpacked by any host, a record's wire bytes give that record |
| WireCodec.DeviceRoundTrip | src/client/usbip_network.c:88-97 | pack, transfer and unpack is the identity for all four pairs of byte orders |
| WireCodec.DeviceBuffer.PackUsbDevice | src/client/usbip_network.c:88-97 | in place, six numbers are converted, everything else is kept, the memory is the wire form, and a second call restores the record |
| WireCodec.PackUint32 | src/client/usbip_network.c:64-74 | packing makes the memory big-endian, unpacking reads it so |
| WireCodec.PackUint16 | src/client/usbip_network.c:76-86 | the same for 16 bits |
| WireCodec.PackedHeaderIsWire | src/client/usbip_network.h:33-38 | a header packed by any host is in wire form, and packing twice restores it |
| WireCodec.HeaderRoundTrip | src/client/usbip_network.h:33-38 | the round trip for headers |
| Transfer.Send | src/client/usbip_network.c:105-139 | for every fragmentation the loop ends; success means the whole buffer was sent in order, failure a prefix of it |
| Transfer.Recv | src/client/usbip_network.c:105-134 | success means the buffer holds exactly the next bytes of the stream, failure that it holds what was received before |
| Transfer.SendAll | src/server/usb_metadata_server.c:47-62 | for a non-zero length, the reported length is that of the prefix delivered, and success means all of it |
| Devlist.FlatSplits | src/client/usbip_network.h:155-172 | from the concatenation of records the first n are found again, whatever follows |
| Devlist.RecordsReadBack | src/server/usbipd.c:207-234 | device and interface records decode to the devices they were made from |
| Devlist.ReplyDecodes | src/server/usbipd.c:166-237 | the reply for a list decodes to exactly the devices of the list, in order, with nothing left over, if and only if the list has fewer than 2^32 devices |
| Devlist.ReplyLength | src/server/usbipd.c:194-234 | the reply is 12 + sum(312 + 4 * bNumInterfaces) bytes long |
| Devlist.SendingWalk | src/server/usbipd.c:207-234 | what the second walk contributes is the records of the devices not in use |
| Devlist.CountingWalk | src/server/usbipd.c:184-191 | the first walk counts exactly those devices |
| Devlist.CountExportable | src/server/usbipd.c:184-191 | the counting walk over the ring |
| Devlist.SendInterfaces | src/server/usbipd.c:223-233 | one record for each interface |
| Devlist.SendRecord | src/server/usbipd.c:214-233 | a device record, then its interfaces |
| Devlist.SendOpCommon | src/client/usbip_network.c:141-161 | the header on the wire, or a prefix of it |
| Devlist.SendRecords | src/server/usbipd.c:207-236 | the sending walk over the ring |
| Devlist.SendReplyDevlist | src/server/usbipd.c:166-237 | on success the bytes written are the reply for the devices not in use, on failure a prefix of it |
| ExportDecision.SearchFindsFirst | src/server/usbipd.c:118-126 | the search finds the first device with the requested busid, and nothing exactly when none has it |
| ExportDecision.OkMeansExported | src/libs/usbip_host_common.c:224-277 | ST_OK is replied exactly when the first matching device was available, its attribute name fits and the kernel took the socket; ST_DEV_BUSY and ST_NODEV have their exact causes |
| ServerReplies.StatusOf | src/libs/usbip_host_common.c:224-277 | the status for the first device of the requested name: 0 when its status is 1, its path has at most 242 characters and the kernel takes the socket, 2 when it is 2, 3 when it is 3, 1 in all other cases |
| ServerReplies.NoDevice | src/server/usbipd.c:118-138 | status 4 exactly when no device has the requested name |
| ServerReplies.HeaderBytes | src/client/usbip_network.h:21-38 | the eight bytes of a header: 1, 17, the code, and a status below 256 in the last byte |
| ServerReplies.ImportReplyBytes | src/server/usbipd.c:140-163 | the bytes of every answer to an import request |
| ServerReplies.RequestHeaders | src/server/usbipd.c:261-290 | the eight bytes of each of the two requests, and that no other header is read as one of them |
| ServerReplies.AnswersToBytes | src/server/usbipd.c:261-300 | which eight bytes are answered with a device list and which with an import reply; all others get no answer |
| ServerReplies.EndsWell | src/server/usbipd.c:261-300 | the result is 0 for a device-list request and for an import request answered with status 0, and for nothing else |
| ServerReplies.ListedAre | src/server/usbipd.c:186-216 | the device-list reply lists exactly the devices whose status is not 2, in list order |
| ServerReplies.ReplyStart | src/server/usbipd.c:193-206 | it starts with a header of code 5 and status 0 and the number of records, most significant byte first |
| ServerReplies.RecordAt | src/server/usbipd.c:208-235 | where each record of it starts: 312 bytes of device and 4 for each interface after the one before |
| ServerReplies.InterfaceAt | src/libs/usbip_common.h:104-109 | the four bytes of each interface |
| RequestHandler.FindRequested | src/server/usbipd.c:118-126 | the search loop over the ring |
| RequestHandler.SendImportReply | src/server/usbipd.c:140-163 | header, then the record on ST_OK only; a prefix of it when the transport fails |
| RequestHandler.AnswerImport | src/server/usbipd.c:118-163 | search, decision and reply for a request that is there, or a prefix of the reply |
| RequestHandler.RecvRequestImport | src/server/usbipd.c:99-164 | takes 32 bytes, answers with header or header and record or a prefix of that, and succeeds exactly on ST_OK; a shorter request gets no answer |
| RequestHandler.RecvOpCommon | src/client/usbip_network.c:163-207 | takes 8 bytes; the code is accepted, and `*status` set or left unset, as the decoded header says |
| RequestHandler.HeaderUnpacks | src/client/usbip_network.c:168-176 | any 8 bytes are the wire form of the header they unpack to |
| RequestHandler.Dispatch | src/server/usbipd.c:239-300 | the requests that are answered, with what, whole or cut by the transport, and when the result is 0 |
| RequestHandler.RecvPdu | src/server/usbipd.c:261-300 | a whole connection: header, refresh, dispatch; the answer is a function of the bytes received and the enumeration, or a prefix of it when the transport fails |
| ImportClient.SendQuery | src/client/usbip_attach.c:131-146 | the client's 8 + 32 bytes, or a prefix of them |
| ImportClient.QueryImportDevice | src/client/usbip_attach.c:120-171 | what the client makes of any reply, and how much of the stream it takes |
| ImportClient.UnpacksAnyBlock | src/client/usbip_attach.c:155-161 | any 312 bytes unpack to the record they are the wire form of |
| ImportClient.QueryFollowsExchange | src/client/usbip_attach.c:131-168 | on the server's reply the running client ends as the exchange below does, with nothing left over |
| ImportClient.HandlerFollowsExchange | src/server/usbipd.c:261-286 | on the client's request the running server answers as the exchange does |
| ImportClient.RequestBytes | src/client/usbip_attach.c:131-142 | the 40 bytes of a request: the code is 0x8003, the name is padded with zeros or cut to 31 characters |
| ImportClient.QueryTakes | src/client/usbip_attach.c:148-170 | a device is imported on one kind of reply only: code 3, status 0 and the whole record of a device of the requested name |
| ImportClient.ImportedWhen | src/client/usbip_attach.c:120-171 | through the whole exchange: the device imported is the first of the requested name, and only if it is available, its path has at most 242 characters, the kernel takes the socket and the name fits its field |
| ImportExchange.NextMoves | src/client/usbip_attach.c:131-161 | every step of the exchange keeps all buffers slices of one request and one reply and moves its bytes for good |
| ImportExchange.RunInvariant | src/server/usbipd.c:111-158 | the same over every run, however the streams are cut |
| ImportExchange.NoDeadlock | src/server/usbipd.c:261-286 | until both sides are done some byte can move |
| ImportExchange.ExchangeCompletes | src/client/usbip_attach.c:120-171 | every run is no longer than the bytes there are to send and read, can go on until both sides are done, and ends with empty channels and the planned result |
| ImportExchange.ImportedDevice | src/client/usbip_attach.c:138-168 | `import_device` is reached with a record exactly when the busid asked for has at most 31 characters and the record is that of the first device with this busid, available and taken by the kernel |
| ImportServer.GrantsKept | src/server/usbipd.c:128-138 | every step of every handler keeps grants of a device apart by the releases between them |
| ImportServer.OneGrantPerPeriod | src/server/usbipd.c:352-368 | in every interleaving of any number of forked handlers with stale snapshots, no two ST_OK replies for a device were granted in the same period between two releases; every other reply is one of four refusals |
| ImportServer.OneOkReplyPerRelease | src/server/usbipd.c:99-164 | at most one ST_OK reply per device is sent between two releases, when no device is released while such a reply is still owed |
| ImportServer.EarlyReleaseBreaks | src/libs/usbip_host_common.c:224-277 | the condition is exact: any release, to whatever state, of a device whose ST_OK reply is still owed can be followed by two ST_OK replies for it |
| ImportServer.EarlyReleaseHappens | src/server/usbipd.c:99-164 | from the start, with one available device and two requests, such a run exists |
| ImportServer.InUseUntilReleased | src/libs/usbip_host_common.c:224-277 | a device taken stays in use until a release, in every run |
| ImportPeriods.ImportTakesDevice | src/client/usbip_attach.c:163-170 | a client reaches `import_device` only when its handler's decision took the device from not in use to in use |
| ImportPeriods.ImportHappens | src/client/usbip_attach.c:120-171 | from the start, a client that asks for an available device by its bus id of at most 31 characters reaches `import_device` once the kernel takes the socket |
| ImportPeriods.OneImporterPerPeriod | src/server/usbipd.c:352-368 | the exchange and the forked handlers together: between two decisions whose clients both reach `import_device` with the same device lies a release of it |
| ConnectionRecord.RecordRoundTrip | src/client/usbip_attach.c:65-70 | what was recorded reads back as the same triple exactly when no part is empty, service and bus id have at most 32 characters and the line at most 99; every other record is rejected, never misread |
| ConnectionRecord.RecordText | src/client/usbip_attach.c:69-69 | the text of a record: host, port and busid with blanks between them and a newline, cut to 99 characters |
| ConnectionRecord.AnyRecord | src/libs/vhci_driver.c:187-239 | any file that starts with three words on a line is read as them exactly when none is empty, the host has at most 1025 characters and service and bus id at most 32; the buffer for the line is never what decides |
| ConnectionRecord.CutLineRejected | src/libs/vhci_driver.c:219-228 | a line cut anywhere, by the buffer of 100 bytes or by a short write, is rejected |
| ConnectionRecord.ShortWriteRejected | src/client/usbip_attach.c:71-75 | the file of a write that came out short is rejected |
| ConnectionRecord.StateDir.RecordConnection | src/client/usbip_attach.c:41-80 | success exactly when the directory is ready, the file opens and the whole line is written; what is in the file after a short write; only the file of the port changes |
| ConnectionRecord.StateDir.Remove | src/client/usbip_detach.c:75-79 | one file goes, and the directory with it when it is empty |
| ConnectionRecord.StateDir.ReadRecord | src/libs/vhci_driver.c:187-239 | the three parts of a well-formed first line, or an error |
| VhciStatus.ParseStatus | src/libs/vhci_driver.c:40-107 | the loop over the lines of a text ends and fills the table as its specification says, with all four ways to stop |
| VhciStatus.StoreRow | src/libs/vhci_driver.c:71-97 | one line fills one slot, with the structure's integer widths; it fails exactly when the status is neither 4 nor 5 and the local device is not there |
| VhciStatus.RefreshImportedDeviceList | src/libs/vhci_driver.c:111-136 | one text after the other |
| VhciStatus.RowScans | src/libs/vhci_driver.c:58-60 | a well-formed line scans to the values written in it, whatever follows |
| VhciStatus.LinesParse | src/libs/vhci_driver.c:51-104 | a text of well-formed lines fills the table row by row, or ends with an error when a connected port's local device is missing |
| VhciStatus.TextsParse | src/libs/vhci_driver.c:111-136 | the same over all controllers, and the error when a connected port's local device is missing |
| VhciStatus.RefreshRefinesText | src/libs/vhci_driver.c:40-136 | for well-formed texts with distinct ports below nports, the refresh succeeds exactly when udev finds the local device of every connected port, and then the slot of every listed port has its line's values and every other slot is zero |
| VhciStatus.RefreshOnLines | src/libs/vhci_driver.c:40-136 | told on the lines: the refresh succeeds exactly when every line whose status is neither 4 nor 5 names a local device that is there; each slot then has the values of its line, the bus id exactly for those statuses, and every other slot is zero |
| VhciStatus.NoText | src/libs/vhci_driver.c:45-48 | a text without a header line, and one that cannot be read, fail and leave the table |
| VhciStatus.ShortLastLine | src/libs/vhci_driver.c:58-65 | a text that ends before the fifth word of a line aborts, one that ends before the seventh gives no bus id |
| VhciStatus.WildPort | src/libs/vhci_driver.c:70-72 | a line whose port is beyond the table is reported as such |
| VhciStatus.SignConverts | src/libs/vhci_driver.c:58-60 | a decimal number may carry a sign |
| VhciStatus.MarkConverts | src/libs/vhci_driver.c:58-60 | a hexadecimal number may stand behind 0x |
| VhciStatus.LongWordCut | src/libs/vhci_driver.c:58-60 | a word longer than its width is cut and goes on as the next word |
| VhciStatus.OfferMeans | src/libs/vhci_driver.c:335-355 | the port offered is that of the first slot with status 4 on the hub of the speed, super for speed 5 and high for all others |
| VhciStatus.GetFreePort | src/libs/vhci_driver.c:335-355 | the port kept in the first free slot of the right hub, -1 when there is none |
| VhciStatus.OfferedPort | src/libs/vhci_driver.c:335-355 | over a table read from texts: modulo 256 the lowest free port listed for the hub the speed needs, -1 exactly when none is listed; unlisted slots are never offered |
| VhciStatus.DevidReadsBack | src/libs/vhci_driver.c:385-397 | the id written on attach, shown in a status line, is stored with the same bus and device numbers |
| VhciStatus.DevidHalves | src/libs/vhci_driver.c:385-388 | the bus number is the upper half of the id and the device number the lower |
| Ports.ImportDevice | src/client/usbip_attach.c:82-118 | every retry offers the same port; the result is that port exactly when one is offered and the first answer that is not EBUSY accepts it, and a failure exactly when none is offered or that answer is another error |
| Ports.ImportedWhen | src/client/usbip_attach.c:94-117 | the three results on all offers and answers, each with its exact condition |
| Ports.DecimalStart | src/client/usbip_app_win.c:97-107 | a port is printed without leading zeros |
| Ports.PortReadsBack | src/client/usbip_detach.c:49-49 | a port printed and parsed back is cut to 8 bits, and is the same exactly below 256 |
| Ports.DetachedPorts | src/client/usbip_detach.c:57-73 | which ports a table read from texts lets `detach_port` detach: those whose first line, modulo 256, is not free, and an unlisted port 0 |
| Ports.Client.AttachDevice | src/client/usbip_attach.c:219-246 | the ports in use grow exactly by the port offered, when the first answer that is not EBUSY accepts it; success is that and a whole record on file. The port is that kept in the first free slot of the hub the speed needs, the record reads back, and a failure to record leaves the port attached |
| Ports.Client.DetachPort | src/client/usbip_detach.c:32-93 | for every argument and table: the result, the port and file that go, and that nothing else changes |
| PortRuns.TextShows | src/libs/vhci_driver.c:111-136 | a table read from texts that list every port shows the machine at that moment, each slot with 8 bits of its port |
| PortRuns.StepKeepsInv | src/client/usbip_attach.c:82-118 | every step of every attach and detach process keeps the invariant of EveryRun, on a machine of any size |
| PortRuns.OfferExactly | src/libs/vhci_driver.c:335-355 | what is offered at the moment the table is read, with i the first free slot: port i % 256, of the right hub exactly when slot i % 256 is of the hub of slot i, and from 256 on never both of the right hub and free; nothing exactly when all ports of the hub are held |
| PortRuns.AliasedOffer | src/libs/vhci_driver.c:81-81 | with 256 high-speed ports in use, the free super-speed port 256 is offered as port 0 |
| PortRuns.OfferRight | src/libs/vhci_driver.c:335-355 | over any snapshot, the port offered exists, and is of the hub the speed needs if the first slot of each hub from 256 on is the alias of a slot of that hub |
| PortRuns.EveryRun | src/client/usbip_attach.c:219-246 | in every interleaving with stale snapshots, on a machine of any size, no process holds two ports, held ports exist, a used port without a file has a process that accounts for it, and held ports are of the hub their holders need if the first slot of each hub from 256 on is the alias of a slot of that hub |
| PortRuns.RightHubsExactly | src/client/usbip_attach.c:82-118 | that condition is exact: on any other machine some run gives a process a port of the wrong hub; machines of at most 256 ports meet it |
| PortRuns.SameOffer | src/client/usbip_attach.c:94-108 | a process still in the loop has the table it began with, whatever the others did |
| PortRuns.RetriesInVain | src/client/usbip_attach.c:94-108 | while the offered port is held, any number of retries changes nothing, even if other ports are free |
| PortRuns.AttachStuck | src/client/usbip_attach.c:94-108 | an attach that runs alone and is offered a held port, which takes a first free slot from 256 on, can retry any number of times and is where it began |
| PortRuns.DetachTouchesOnly | src/client/usbip_detach.c:75-86 | over any run, a port other than the detach's own, and its file, are as they were unless somebody else touched them |
| PortRuns.FreeingStep | src/client/usbip_detach.c:80-86 | a port becomes free only by a detach the kernel takes or by a lost connection |
| PortRuns.Handover | src/client/usbip_attach.c:102-103 | between two holders of a port lies a step that frees it |
| PortRuns.StaleDetach | src/client/usbip_detach.c:57-86 | a detach frees an attachment it did not see exactly when the port was freed since it read its table |
| PortRuns.StaleDetachFrees | src/client/usbip_detach.c:57-86 | from the start, a run in which a detach takes away the port and file of a later, complete attach |
| PortRuns.HonestExactly | src/client/usbip_attach.c:237-243 | over every run, files written by the holders of their ports stay so throughout exactly when no step is late: no record after its writer lost the port, no port freed while it has a file |
| PortRuns.AttachAlone | src/client/usbip_attach.c:219-246 | an attach that runs alone takes and records the port offered if it is free; with the first free slot below 256 it is the lowest free port of its hub; none is offered exactly when all are held |
| PortRuns.DetachAlone | src/client/usbip_detach.c:57-87 | a detach that runs alone frees that port, removes its file and changes nothing else |
| PortRuns.DetachUndoesAttach | src/client/usbip_detach.c:75-86 | after attach and detach the ports in use and the files are those of before |
| PortRuns.OverlapLeavesFile | src/client/usbip_attach.c:239-243 | from the start, a run of one attach and one detach that overlap leaves a file for a port nobody holds |
| BindOrder.CommandIsUnderstood | src/server/utils.c:39-44 | the text in the buffer adds or removes the bus id, or the first 31 characters of a longer one |
| BindOrder.OnlyLooksBound | src/server/usbip_bind.c:92-96 | the drivers that binding but not unbinding takes for usbip-host are those whose name has more after it |
| BindOrder.HubMeans | src/server/usbip_bind.c:82-85 | the classes taken for a hub are 09, 0 and the empty one |
| BindOrder.ContainsMeans | src/server/usbip_bind.c:136-140 | a path contains a name exactly when it is some text, the name, and some text |
| BindOrder.ExportableMeans | src/server/usbip_bind.c:74-140 | which devices may be bound, and when one is, in the words of sysfs |
| BindOrder.CommandText | src/server/utils.c:39-42 | the text of both commands, cut after 31 characters of bus id |
| BindOrder.Sysfs.ModifyMatchBusid | src/server/utils.c:27-51 | one write to the match list, which may fail without effect |
| BindOrder.Sysfs.UnbindOther | src/server/usbip_bind.c:51-118 | when it reports the device unbound it has no driver, otherwise nothing changed; with all writes accepted its answer is exact |
| BindOrder.Sysfs.BindDevice | src/server/usbip_bind.c:120-168 | at every moment a bound device is matched, whichever writes fail; success means bound and matched; with all writes accepted success and failure have exact conditions; a refused bind is rolled back |
| BindOrder.Sysfs.UnbindDevice | src/server/usbip_unbind.c:30-96 | the same order kept the other way: unbound before unmatched before probed again |
| BindOrder.Sysfs.ResetBindDevice | src/server/device.c:90-102 | with all writes accepted it ends bound and matched exactly for an existing device that is no hub and not attached to vhci_hcd and whose driver by then is not one of OnlyLooksBound |
| BindOrder.ResetLookalike | src/server/device.c:90-102 | a device whose driver is called usbip-host-x fails to reset and keeps its driver, although no write fails |
| BindOrder.Sysfs.GetDevices | src/server/device.c:121-166 | the loop resets and lists every device not passed over and leaves all others alone; without lookalike drivers and with all writes accepted it ends with every exportable listed device bound and matched |
| BindOrder.KeptAre | src/server/device.c:121-166 | the entries handed out are those of all listed devices but the adapter 0424:ec00, in order, each with the values of its device and Unknown for a missing maker or product |
| BindOrder.KeptIdsAre | src/server/device.c:75-88 | and those are the devices that are reset |
| DeviceWindow.JoinedIs | src/client/usbip_app_win.c:185-204 | a new row is attached exactly when some old row of the same node and busid was, has the port of the last such row, and is otherwise as found |
| DeviceWindow.RefreshedLists | src/client/usbip_app_win.c:218-242 | a refresh shows exactly the devices of the result, in order |
| DeviceWindow.AttachedSurvives | src/client/usbip_app_win.c:185-247 | an attached device keeps an attached row exactly when the result lists it, and then with the port of its last attached row |
| DeviceWindow.RowForgotten | src/client/usbip_app_win.c:218-247 | a result that lists another device instead leaves no row with the port |
| DeviceWindow.RefreshTwice | src/client/usbip_app_win.c:206-251 | refreshing twice with the same result is refreshing once, for all old rows and results |
| DeviceWindow.PortOfRow | src/client/usbip_app_win.c:97-107 | the port a row hands to `detach_port` is a number that prints back to the same text |
| DeviceWindow.ButtonText | src/client/usbip_app_win.c:145-149 | the words on the buttons |
| DeviceWindow.SetState | src/client/usbip_app_win.c:185-204 | one old row applied to the row being built |
| DeviceWindow.AppWin.NewDesc | src/client/usbip_app_win.c:225-236 | a new row joined with all old ones, its button to match |
| DeviceWindow.AppWin.AddNode | src/client/usbip_app_win.c:222-241 | the rows of one node, in order |
| DeviceWindow.AppWin.BuildRows | src/client/usbip_app_win.c:218-243 | the rows of all nodes whose value is an array, in order |
| DeviceWindow.AppWin.RefreshListDone | src/client/usbip_app_win.c:206-251 | an empty result changes nothing, any other rebuilds the list as the join of the old rows with the result; attachable, no port and Attach stay the same thing in every row |
| DeviceWindow.AppWin.DeviceControl | src/client/usbip_app_win.c:86-117 | one click changes one row, and only on success; attachable, no port and Attach stay the same thing, so `detach_port` is never handed a missing port |
| DeviceClicks.RefreshKeepsHeld | src/client/usbip_app_win.c:185-247 | if the ports of all attached rows are in use, they are after any refresh |
| DeviceClicks.Click | src/client/usbip_app_win.c:86-117 | the button together with `attach_device` and `detach_port`: attaching keeps the ports of all attached rows in use, and detaching does exactly unless it frees a port that another row shows |
| DeviceClicks.TwoRowsOnePort | src/client/usbip_app_win.c:185-247 | a result that lists an attached device twice makes two rows that show one port |

## Left out

- NameTable.Tables: the five bucket arrays lie one after the other in one array of 80, and the five lookup and five insertion functions, which run the same code on different keys, are one each.
- Ports.ImportDevice: runs on a finite list of kernel answers and reports that it is still trying when all of them are EBUSY, because the loop itself may never end.
- Ports.PortReadsBack: the overflow of `atoi` on numbers beyond an int is undefined in C and not modelled; digits of any length have their mathematical value before the cut to 8 bits.
- VhciStatus.RowScans: after 0x a hexadecimal field needs a digit, without which the model reads the 0 alone and C leaves the conversion open; a number too large for its conversion, undefined in C, has its mathematical value; a port outside the table is reported as such, where the code defines nothing.
- VhciStatus.ParseStatus: the local bus id is a missing value when a line ends before it, where the code goes on with what the stack held.
- ConnectionRecord.RecordRoundTrip: a service or bus id of exactly 32 characters passes the length check of the reader although its buffers hold 31; the model gives it back, where the code defines nothing.
- ConnectionRecord.AnyRecord: likewise a host of exactly 1025 characters, a service or bus id of exactly 32: accepted by the length check, one more than the buffer holds.
- BindOrder.Sysfs.ModifyMatchBusid: for a bus id longer than 31 characters, which no device has, the length written is more than the text in the buffer, which C does not define; the model takes the text up to its end.
- Transfer.Socket: a stream between two programs is two byte sequences; connection set-up, resets and time-outs appear only as calls that fail.
- DeviceClicks.Click: a row without a bus id cannot be attached, because the code hands a null pointer to `strncpy`; ports taken or freed by other programs while the window is open are not followed.
- src/server/usbip_network.c and .h: the same code as the client's copies, modelled once.
- udev and sysfs reading (`read_usb_device`, `read_usb_interface`, `read_attr_usbip_status`): device records are given; `usbip_common.c` writes the terminator of busid into path, so nothing is claimed about path being kept whole there.
- `check_device_state` in usbip_attach.c: it has no caller and stops reading after the header.
- The receive loop for the device description in discover.c: it does not collect partial reads, so no round trip with `sendall` holds.
- GTK widgets, GObject properties, application set-up and the timing of the window's threads: refresh, attach and detach are atomic steps, and of a row's widgets only the label of its button is kept.
- Sockets, multicast discovery, interface detection, poll loops, signals, daemonising and option parsing: plumbing around the modelled calls.
- The text written to the attach attribute of the vhci driver: the write is one answer of the kernel.
- Allocation failure, freeing, logging and the tables of status and speed names.
- Changes of the device tree while a bind or unbind runs, and two processes binding the same device at once: the server binds from a single loop.
