# Verification of protocol and data-structure code of a camera and printer firmware

This project models the hard core of the firmware's network and list code and proves what that code
promises. `dafny verify dfyconfig.toml` checks all of it. Code that works by changing things step by
step is modelled as methods over arrays, objects and loops, each proved against a function; the
promises are lemmas about those functions over every input, every run or every reachable state.

What is modelled, hardest first:

* **mDNS names** (`FqdnReader`, `FqdnWriter`, `FqdnCompression`, `FqdnExactness`, `FqdnHistory`,
  `FqdnSafety`, `Subtypes`, `FqdnSlots`). A writer replaces the longest suffix of a name it finds
  earlier in the packet by a back-pointer, and asks a lossy reader whether a candidate matches.
  `Labels` is the ideal decoder of section 4.1.4 of RFC 1035; the reader, the writer and whole packets
  are proved against it.
* **mDNS messages** (`Records`, `RecordBuilders`, `Messages`, `RecordContents`, `SentContents`, `Dispatch`,
  `SafeMessages`, `StaleBytes`, `Leftovers`). Record builders, the length field they patch, the header
  counts, what is left when an append fails, the parser's walk over what was sent, and what it reads from each
  record.
* **Transmit queue and probe machine** (`TxQueue`, `ProbeMachine`, `ProbeProofs`, `ProbeClaims`, `ProbeDelivers`,
  `Responder`). Two tasks over one queue, a state machine per interface that must probe before it
  claims, which services it may speak about, and what it does send.
* **In-place list sorts** (`MergeSpec`, `LinkedSort`, `DoublyLinked`). The three merge sorts of
  utlist.h on real nodes, and the edits of a doubly linked list.
* **TXT data, tie-break, renaming** (`TxtCodec`, `TieBreak`, `NameMangling`).
* **URI escaping** (`UriCodec`), **register-bank cache** (`BankCache`), **keep-alive monitor**
  (`KeepAlive`). `Bytes` holds the shared notions of bytes and C strings.

## How the name theorems are built

A packet under construction carries two pieces of proof bookkeeping: `own`, the positions that belong
to completed names, and `names`, the labels given for the name at each offset. `Labels(b, own, frag,
pos)` decodes reading only positions in `own`, so a meaning established once survives every write
elsewhere. The writer searches the whole buffer, raw record bytes and stale bytes included; what it
does with a match is right exactly if the target is a faithful name (`AppendExact`). `GoodName` asks
this of each call. `FqdnSafety` derives it from what a caller knows before the call (`SafeName`): the
labels all differ, no byte of a label is the length of one, and wherever a label stands in the packet it
stands inside a recorded name. `SafeMessages` derives that in turn for whole messages, from their labels
and raw bytes, and from what the buffer held (`SafeMessage`): a label can be completed by old bytes only
where raw bytes break off inside it, or behind a name whose last byte is its length. `StaleBytes` shows
that a safe message comes out the same from every buffer, and again over what it left.

## Where the code and its promises part

Each of these is proved, as an exact condition or with the input that shows it:

* A label of 64 bytes, host, service or proto, passes the length checks of the API (`mdns.c:5579`,
  `mdns.c:2574-2579`) and cannot be read back (`LongLabelsExact`).
* A host called "local" makes the writer point into the name it is writing (`HostNameExact`).
* Behind a service whose subtypes are in the packet, the name of another instance of the same type that is
  called like one of the subtypes is replaced by a pointer to the subtype name, because the match test
  cannot tell the two apart (`LaterInstanceExact`, `AnotherServiceExact`, `BulbIsMisled`). The records of
  the subtypes themselves are right, also for an instance called like its own subtype, because its name
  is in the packet before them (`SubtypesAreConveyed`).
* The packet buffer is static and only its header is cleared (`mdns.c:1439-1441`). Behind a name that ends
  with a pointer, old bytes can complete a label as long as the pointer's low byte, and the name becomes a
  pointer to the byte in front of itself (`SeamExact`, `RenamedIsMisled`).
* The removal of the only service that an interface is probing for ends the probing, so the next answer
  can go out without a probe since the restart (`RemovalEndsProbing`, `AddedThenRemoved`).
* A restart that clears the list of a probing interface passes over the services on it that it does not
  name again; they are answered for without a completed probing (`AbandonedExactly`, `AbandonedIsTold`).
* The removal of a service from a probe takes out the first question of its type, which may be that of
  another service (`MisdirectedExactly`, `WrongQuestionStays`).
* A question that is cut off at the end of the packet is counted like a whole one (`CutAskIsCounted`),
  and no record is written whole behind it (`CutQuestionEndsMessage`).
* An answer that fails leaves part of its record in the packet, except exactly where `LeftoverExact` says
  so (`LongItemKeepsAnEmptyRecord`); then, and only then, the parser's walk does not find exactly the
  records that were written whole (`WalkTellsLeftovers`).
* A TXT list with a key-only item in front of another item is not read back (`TxtRoundTrip`).
* The refresh escape table is not invertible (`InverseIffPercentEscaped`).
* A failed bank-select set, or a reset, behind a cached bank sends the next access to bank 0
  (`FailedSet`, `ResetWhileCached`, `StaleCacheMisses`).
* A silent client behind a live one with the same descriptor makes the monitor remove the live one
  (`PassIsPerClient`, `DuplicateRemovesTheLiveOne`).
* An empty TXT record and a single byte other than zero are taken for the same data
  (`TxtCheckIsComparison`).

## Model

| member | source | states |
|---|---|---|
| FqdnReader.ReadFqdn | components/espressif__mdns/mdns.c:420-471 | The reader terminates on every buffer, chains of back-pointers included (the start of the fragment falls, then the bytes left), and returns what the reading function says: failure, or an end behind the start and at most four slots |
| FqdnReader.ReadFrom | components/espressif__mdns/mdns.c:420-471 | On success the end lies behind the position read from, at most four slots are filled, and the invalid mark is only set on full slots |
| FqdnReader.ReaderSeesLabels | components/espressif__mdns/mdns.c:420-471 | On any bytes that mean a label sequence under section 4.1.4 of RFC 1035 the reader succeeds, stops where the name stops, and shows exactly the lossy view of that sequence |
| FqdnReader.HostIsJoined | components/espressif__mdns/mdns.c:437-456 | A host of several labels, none behind the first beginning with an underscore or being local, arpa or, without reverse queries, ip6 or in-addr, and up to three labels behind it: the first slot of the reader holds the labels of the host joined by dots, cut at 64 characters, and the others stand in the next slots |
| FqdnReader.ReaderAccepts | components/espressif__mdns/mdns.c:420-471 | With a zero byte behind the packet the reader accepts a name if and only if it decodes inside the packet, that byte included |
| FqdnReader.ReaderStaysValid | components/espressif__mdns/mdns.c:425-427 | A name of at most four labels whose pointers all refer to labels is never marked invalid |
| FqdnReader.MatchTestIsExact | components/espressif__mdns/mdns.c:751-763 | For any label sequence that passes the comparison of parts and slots: it is the wanted one, up to case, if and only if it has at most four labels and none is "_sub" |
| FqdnReader.LabelsStable | components/espressif__mdns/mdns.c:420-471 | A decoded name keeps its meaning under every later write outside its own bytes |
| FqdnReader.LabelSizes | components/espressif__mdns/mdns.c:429-434 | Every label a name decodes to has 1 to 63 bytes |
| FqdnWriter.AppendFqdn | components/espressif__mdns/mdns.c:718-779 | The recursive writer over the buffer does what the writing function says: same bytes, same index, same count, on every input and every shortage of room |
| FqdnWriter.FindName | components/espressif__mdns/mdns.c:728-764 | Skipping with memchr finds the first offset whose bytes match, and misses none |
| FqdnWriter.TestCandidate | components/espressif__mdns/mdns.c:731-763 | A candidate is accepted exactly if its first label is equal byte for byte and the reader shows the wanted slots |
| FqdnWriter.AppendFrame | components/espressif__mdns/mdns.c:718-779 | The writer changes no byte outside the ones it steps over |
| FqdnCompression.AppendDecodes | components/espressif__mdns/mdns.c:718-779 | Compression preserves meaning: a call that did not run out of room and whose accepted target is faithful emits bytes that decode to the labels given, up to case, ends where the index stands, and reports the bytes it added |
| FqdnCompression.MatchedTarget | components/espressif__mdns/mdns.c:731-763 | A target that passed the match test and means anything means the wanted labels if and only if the reader shows it without loss |
| FqdnCompression.PointerDecodes | components/espressif__mdns/mdns.c:776-778 | Two pointer bytes to an earlier offset stand for exactly the labels found there |
| FqdnExactness.AppendExact | components/espressif__mdns/mdns.c:718-779 | For every call that had room and whose target is a completed name or the name itself: the bytes mean the labels given if and only if the target lies before the name and has at most four NUL-free labels, none "_sub" |
| FqdnExactness.BadTargetMisleads | components/espressif__mdns/mdns.c:731-778 | A pointer into the name being written, or to a target the reader shows with loss, never means the labels given |
| FqdnExactness.LongLabelsExact | components/espressif__mdns/mdns.c:718-779 | For labels of 1 to 191 bytes at any position, with room and a good target: the bytes decode, and then to the labels given, if and only if every label has at most 63 bytes; otherwise the reader rejects the name. Host, service and proto labels of 64 bytes are accepted by the API |
| FqdnExactness.LongNeverMatches | components/espressif__mdns/mdns.c:728-764 | A suffix that holds a label of more than 63 bytes is found nowhere in any buffer |
| FqdnSafety.SafeCallIsRecordable | components/espressif__mdns/mdns.c:718-779 | From what a caller knows before the call: with room, labels of 1 to 63 bytes that all differ, none with a byte that is the length of one of them, and a packet in which those labels stand, whole, inside recorded names only, whatever the writer points to is a good target, for whole names and for every suffix |
| FqdnSafety.ShortIsTame | components/espressif__mdns/mdns.c:718-779 | Labels shorter than 32 bytes without control bytes meet the condition on bytes and lengths |
| FqdnSafety.SafeRunIsGood | components/espressif__mdns/mdns.c:718-779 | A run in which each name is safe when it is written satisfies the condition of the packet theorems |
| FqdnSafety.SafeNamesKeepTheirMeaning | components/espressif__mdns/mdns.c:718-779 | In a packet written safely every name decodes at the end to the labels given for it |
| FqdnSafety.HostNameExact | components/espressif__mdns/mdns.c:718-779 | For every safe packet that holds neither the host nor the domain yet and has a zero byte behind the first label: the host name is written soundly if and only if it is not "local"; if it is, the name points to itself |
| FqdnSafety.InsideIsGood | components/espressif__mdns/mdns.c:731-778 | Inside a recorded name every byte that is the length of a label looked for, and occurs in no label, starts a good target |
| Subtypes.SubtypesAreConveyed | components/espressif__mdns/mdns.c:1313-1334 | The records of a service and of any list of different subtypes, in the order the code writes them, one of them called like the instance or not: every subtype name and the instance name behind it convey their labels in the packet as it is at the end, and all records are counted |
| Subtypes.LaterInstanceExact | components/espressif__mdns/mdns.c:718-779 | An instance name of a type whose subtypes the packet holds, not held itself, wherever it is written behind them: it conveys its labels if and only if the instance is not called like one of the subtypes; if it is, it is replaced by a pointer to that subtype's name |
| Subtypes.AnotherServiceExact | components/espressif__mdns/mdns.c:1313-1334 | Two services of one type in one packet: behind the first and its subtypes, a name of the second, as the owner of its SRV or TXT record or as the data of its PTR record, conveys its labels if and only if the second instance is not called like a subtype of the first |
| Subtypes.BulbIsMisled | components/espressif__mdns/mdns.c:1313-1334 | An input over every buffer: "lamp" with the subtype "bulb" announced together with an instance "bulb"; the PTR record of the second does not name it |
| Subtypes.AppendServicePtrAnswers | components/espressif__mdns/mdns.c:1313-1334 | The loop over the subtypes behind the PTR record of the service: for every outcome the exact buffer and write position, nothing more if the first record fails, and the number of records as a uint8_t |
| Subtypes.NoSubtypesWithoutPtr | components/espressif__mdns/mdns.c:1313-1334 | If the PTR record of the service is not written whole, nothing is counted and no subtype is written |
| Subtypes.SubMatchesNothing | components/espressif__mdns/mdns.c:442-458 | A suffix that begins with "_sub" is found nowhere in any buffer |
| FqdnSlots.MeantIsFound | components/espressif__mdns/mdns.c:733-764 | Bytes that mean a name of one of the three shapes pass the match test, in any buffer, if they spell its first label |
| Subtypes.SubtypeMatches | components/espressif__mdns/mdns.c:442-458 | Wherever x._sub.service.proto.local stands, in any case, it passes the match test for x.service.proto.local and is not a good target for it |
| RecordBuilders.AppendSubtypePtrRecord | components/espressif__mdns/mdns.c:843-873 | For every outcome: the exact bytes and write position it leaves, and the size it reports |
| FqdnHistory.EveryNameKeepsItsMeaning | components/espressif__mdns/mdns.c:718-779 | After any sequence of names, raw bytes and patched fields written to one packet, every name still stands where it was written and decodes to the labels given for it |
| FqdnHistory.RunKeeps | components/espressif__mdns/mdns.c:718-779 | Every run keeps the packet invariant, and leaves every recorded name decoding to the same labels at the same end |
| FqdnHistory.StepKeeps | components/espressif__mdns/mdns.c:480-488 | Each single write, of a name, of raw bytes, or of a field outside the names, keeps the packet invariant and every name before it |
| FqdnHistory.BoundaryMatchIsRecordable | components/espressif__mdns/mdns.c:731-778 | A match at a label boundary of a name recorded earlier in the packet is always a good target |
| FqdnSlots.ParseFqdn | components/espressif__mdns/mdns.c:3235-3267 | The parser with its shifts and the check of the domain computes the arranged slots of what the reader saw |
| FqdnSlots.MarkedUnlessDomain | components/espressif__mdns/mdns.c:3235-3267 | A name of up to four labels in any domain: where the host, joined, and the labels behind it stand in the four fields, and that the name is marked invalid if and only if no label stands behind the host or the last one is neither local nor arpa |
| FqdnSlots.SlotRoundTrip | components/espressif__mdns/mdns.c:3235-3267 | Bytes that convey [host, local], [service, proto, local] or [instance, service, proto, local] are parsed with each label in its slot, the others empty, the name valid, and the end where the name ends |
| FqdnSlots.WriteThenParse | components/espressif__mdns/mdns.c:718-779 | Print and parse: the writer's output, compressed or not, is parsed back into its slots, and the parser stops where the writer stopped |
| FqdnSlots.RecordedNameParses | components/espressif__mdns/mdns.c:3235-3267 | In a finished packet every recorded name of the three shapes is parsed into its slots with the packet length as the limit |
| Records.RecordIsFramed | components/espressif__mdns/mdns.c:791-826 | A record keeps every earlier name and byte; its length field equals the bytes that follow it if and only if no name in its data takes 256 bytes; the count reported equals the bytes added if and only if the owner is short too |
| Records.DataLength | components/espressif__mdns/mdns.c:817-823 | The computed length never exceeds the bytes of the data, and equals them if and only if every name in it is short |
| Records.LegalNamesAreShort | components/espressif__mdns/mdns.c:791-826 | Names within the 255 bytes that RFC 1035 allows never disturb a length field |
| Records.DomainRecordIsExact | components/espressif__mdns/mdns.c:791-1161 | Every record whose names end in one of the two domains, as all names of the builders do, is framed and its size is reported exactly |
| Records.DomainRecordIsShort | components/espressif__mdns/mdns.c:791-1161 | No name in such a record takes more than 199 bytes, so none is counted modulo 256 |
| FqdnCompression.NameLength | components/espressif__mdns/mdns.c:718-779 | A name takes at most its uncompressed length, and exactly that when no pointer was written |
| RecordBuilders.AppendType | components/espressif__mdns/mdns.c:558-588 | The ten header bytes are written, or nothing at all |
| RecordBuilders.SetField | components/espressif__mdns/mdns.c:480-488 | A 16-bit field is patched in network order, or, at the end of the packet, nothing is |
| RecordBuilders.AppendPtrRecord | components/espressif__mdns/mdns.c:791-826 | For every outcome: the exact bytes and write position it leaves, and a size of 0 exactly if a name is not counted or the header has no room |
| RecordBuilders.AppendSdPtrRecord | components/espressif__mdns/mdns.c:886-924 | The same for the builder of service type enumerations, which does not look whether its owner was written |
| RecordBuilders.SdOwnerNeedsNoCheck | components/espressif__mdns/mdns.c:906-911 | It need not: an owner that is not written whole leaves no room for a header |
| RecordBuilders.AppendTxtRecord | components/espressif__mdns/mdns.c:936-988 | For every outcome the exact bytes and write position: nothing without an instance name; owner, header and the entries in front of the first that does not fit; or the record with all entries, or one zero byte if there are none |
| RecordBuilders.AppendSrvRecord | components/espressif__mdns/mdns.c:1000-1060 | For every outcome the exact bytes and write position, a missing host and each field without room included; the host of the service is preferred |
| RecordBuilders.AppendAddressRecord | components/espressif__mdns/mdns.c:1072-1161 | For every outcome the exact bytes and write position: nothing without a host name, owner and header without room for the address, or the record |
| Messages.ParseMessage | components/espressif__mdns/mdns.c:3490-3684 | The two loops of the parser visit exactly the record starts that the walking function says, on every buffer |
| Messages.WalkRecords | components/espressif__mdns/mdns.c:3655-3678 | The record loop stops at the first record that does not fit, and otherwise reaches the end |
| Messages.StepRecord | components/espressif__mdns/mdns.c:3657-3674 | One turn goes on behind the data, or stops if name, header or data does not fit |
| Messages.WalkStopsAtTruncated | components/espressif__mdns/mdns.c:3655-3674 | Behind a name that decodes a record is taken if and only if ten bytes and the data fit in front of the limit, and otherwise the walk ends there, incomplete; a question if and only if four bytes do |
| Messages.FramedIsStepped | components/espressif__mdns/mdns.c:3657-3675 | At a framed record of a finished packet the loop goes on exactly where the record ends |
| Messages.RecordsStandInARow | components/espressif__mdns/mdns.c:1437-1481 | Records written one behind the other each end where the next one starts |
| Messages.WalkVisitsEveryRecord | components/espressif__mdns/mdns.c:3655-3684 | The parser's walk over a finished message passes every question, visits every record of all sections in order and nothing else, comes to the end, and assigns each record to the section it was written in |
| Messages.WalkReadsOwners | components/espressif__mdns/mdns.c:3657 | At each record boundary of the finished message the parser finds the owner written there, label by label in its slots |
| Messages.SectionKeeps | components/espressif__mdns/mdns.c:1459-1465 | A section keeps every earlier record, name and header field, and its count is the number of its records |
| RecordContents.MessageHolds | components/espressif__mdns/mdns.c:3655-3675 | In a finished message every record of every section stands whole where the walk stops for it: owner, type, class, time to live, length, and data piece by piece |
| RecordContents.PtrReadsBack | components/espressif__mdns/mdns.c:3657-3712 | Print and parse of a PTR record: service type, header, and the instance label by label in its slots |
| RecordContents.SdPtrReadsBack | components/espressif__mdns/mdns.c:886-924 | Print and parse of the record that enumerates service types: owner, header, and the type in its slots |
| RecordContents.SrvReadsBack | components/espressif__mdns/mdns.c:3749-3757 | Print and parse of an SRV record: priority, weight and port each from its own offset, and the host in its slot |
| RecordContents.TxtReadsBack | components/espressif__mdns/mdns.c:3851-3859 | Print and parse of a TXT record: the length field is that of the data, and the items are read back if and only if every one but the last has a value |
| RecordContents.AddressReadsBack | components/espressif__mdns/mdns.c:3890-3947 | Print and parse of an A or AAAA record: host and address bytes |
| SentContents.SentIsRead | components/espressif__mdns/mdns.c:1437-1481 | Sending and reading composed, for every message with recorded names in the default domain and room behind it: the parser finds identity, flags and counts in the header, where its question loop stands each question with host, service, protocol and domain in their fields, its type and class, and where its record loop stands each answer of the three lists, in order, each field as it was given to the sender and each taken for one of its list |
| SentContents.SafeIsRead | components/espressif__mdns/mdns.c:1437-1481 | The same for every safe message, from what is known before it is built |
| SentContents.AsksAreRead | components/espressif__mdns/mdns.c:3571-3640 | Where the question loop stands after k questions it reads the k-th: the parts that were given, empty fields for those left out, the type, and the class with its unicast bit |
| Dispatch.DispatchPacket | components/espressif__mdns/mdns.c:1437-1481 | For every outcome of the appends the exact buffer and length: the header, the questions whole or cut, and in each section what every append leaves, with the number of its successes as the count |
| Dispatch.DispatchedIsParsed | components/espressif__mdns/mdns.c:1437-1481 | Sending composed with parsing: a message whose names are recorded and that leaves room behind its last byte goes out as it is, and the parser's walk over the same buffer visits exactly its records, in order, and comes to the end |
| SafeMessages.SafeMessageIsParsed | components/espressif__mdns/mdns.c:1437-1481 | The same from what is known before the packet is built: labels that differ inside each name and none of whose bytes is a length or a pointer mark, no label in the raw bytes of headers, TXT data, SRV fields and addresses, uncompressed room, and, where a name may begin behind raw bytes that break off inside a label or behind a pointer whose low byte can be its length, no old bytes that spell the rest of the label |
| SafeMessages.SafeMessageIsGood | components/espressif__mdns/mdns.c:1437-1481 | Under these conditions every name of the message is recorded and the message takes no more than its uncompressed size |
| SafeMessages.LampIsSafe | components/espressif__mdns/mdns.c:2070-2085 | They are met by an announcement of a service with its service type, whatever the buffer holds |
| StaleBytes.SentAgainIsParsed | components/espressif__mdns/mdns.c:1437-1481 | A safe message that is sent again over the buffer that it left: the same bytes go out, and the parser visits the same records and comes to the end |
| StaleBytes.SameFromEveryBuffer | components/espressif__mdns/mdns.c:1437-1441 | What goes out does not depend on what the buffer held: two buffers over which the message is safe give the same bytes and names |
| StaleBytes.SameAppend | components/espressif__mdns/mdns.c:718-779 | From any suffix on, a name whose labels stand inside recorded names only is written alike into two buffers that agree in front of it: same bytes, count and target |
| StaleBytes.SeamExact | components/espressif__mdns/mdns.c:1437-1441 | A name behind another name, over any old bytes: it conveys its labels if and only if the search does not stop at the last byte in front of it; that byte is then the low byte of a pointer and the length of the first label, and the old bytes spell the label |
| StaleBytes.RenamedIsMisled | components/espressif__mdns/mdns.c:718-779 | An input: behind a PTR record that ends with a pointer to offset 12, over old bytes that hold a label of twelve bytes and the rest of its name, the name becomes a pointer to the byte in front of itself, and no choice of bytes read gives it back |
| Dispatch.HeaderTellsOutcome | components/espressif__mdns/mdns.c:1445-1481 | Whatever fails, the header holds the identity, the flags, the number of questions that reported a size, and per section the number of answers written whole, each as a uint8_t |
| Dispatch.SentIsMessage | components/espressif__mdns/mdns.c:1437-1481 | With all questions whole, the packet is whole if and only if every answer is counted, and then it is the message |
| Leftovers.LeftoverExact | components/espressif__mdns/mdns.c:791-1161 | An append that fails leaves the write position where it was if and only if the instance or, for an address, the host is missing, or there was no room for the first label of its owner or the pointer in its place |
| Leftovers.WalkTellsLeftovers | components/espressif__mdns/mdns.c:3655-3684 | With whole questions and recorded names, whatever became of the answers: the parser's walk over what was sent visits exactly the records written whole and comes to the end if and only if no failed append left anything behind |
| Leftovers.CutQuestionEndsMessage | components/espressif__mdns/mdns.c:3490-3684 | A message in which a question is cut: no answer is written whole, all record counts are zero, and the parser visits no record, whatever the answers left |
| Leftovers.EmptyRecordStays | components/espressif__mdns/mdns.c:952-979 | A TXT record whose first entry does not fit leaves its owner and header with a length of zero, which the parser takes for a whole record |
| Leftovers.LongItemKeepsAnEmptyRecord | components/espressif__mdns/mdns.c:952-979 | An input for every packet size from 40 bytes on: one item of as many letters as the packet has bytes, from an empty buffer |
| Leftovers.FailureKeeps | components/espressif__mdns/mdns.c:1459-1465 | An append that fails leaves every earlier name and byte as it is |
| Dispatch.RecOfInDomain | components/espressif__mdns/mdns.c:791-1161 | Every name of every record that an answer stands for ends in the domain |
| Dispatch.AppendSection | components/espressif__mdns/mdns.c:1459-1465 | One answer list: what every append leaves, one behind the other, and the number of successes as the count |
| Dispatch.AppendAnswer | components/espressif__mdns/mdns.c:1342-1366 | One answer: the exact bytes and write position for every outcome; it counts 1 exactly if its names are there and counted and everything has room |
| Dispatch.AllSucceedPuts | components/espressif__mdns/mdns.c:1459-1465 | A list is what the message says if and only if all its answers are counted |
| Dispatch.AppendQuestions | components/espressif__mdns/mdns.c:1450-1457 | The questions one behind the other, whole or cut, and the number of those that reported a size |
| Dispatch.CutAskIsCounted | components/espressif__mdns/mdns.c:1199-1201 | A question with a recorded name in a domain is always counted, and is whole if and only if four bytes have room behind its name |
| Dispatch.AppendQuestion | components/espressif__mdns/mdns.c:1167-1202 | On every input: the labels that are present, and behind a name that is counted type and class as far as each has room; the size as the uint8_t it is kept in |
| Dispatch.ClearedIsSound | components/espressif__mdns/mdns.c:1439-1441 | Clearing the header alone is enough for a sound start |
| LinkedSort.Sort | components/espressif__usb_host_uvc/libuvc/include/utlist.h:100-282 | LL_SORT, DL_SORT and CDL_SORT end, leave the same nodes sorted and stable for every total preorder, and restore the whole shape: prev inverts next, head.prev is the tail, the last next is NULL or the new head |
| LinkedSort.MergePass | components/espressif__usb_host_uvc/libuvc/include/utlist.h:113-151 | One pass leaves a well-formed list of the merged runs, and reports at most one merge exactly if the list fits two runs |
| LinkedSort.MergeTwoRuns | components/espressif__usb_host_uvc/libuvc/include/utlist.h:118-146 | One merge consumes two runs and appends their stable merge, leaving the rest of the list unread |
| LinkedSort.MergeRuns | components/espressif__usb_host_uvc/libuvc/include/utlist.h:128-144 | The inner loop links exactly the nodes of both runs onto the prefix in merge order |
| LinkedSort.StepOver | components/espressif__usb_host_uvc/libuvc/include/utlist.h:121-126 | Stepping over the left run finds the start of the right one and the number of nodes passed, at most insize |
| LinkedSort.Close | components/espressif__usb_host_uvc/libuvc/include/utlist.h:204-206 | Closing the last links completes the shape, for the circular variant on the new head |
| MergeSpec.SortIsStableSort | components/espressif__usb_host_uvc/libuvc/include/utlist.h:100-154 | Repeated passes over doubling runs give a sorted, stable rearrangement |
| MergeSpec.SortFromCorrect | components/espressif__usb_host_uvc/libuvc/include/utlist.h:103-153 | From sorted runs of any length the remaining passes sort the list stably |
| MergeSpec.PassDoublesRuns | components/espressif__usb_host_uvc/libuvc/include/utlist.h:113-151 | A pass over sorted runs of k elements leaves sorted runs of 2k |
| MergeSpec.PassIsStable | components/espressif__usb_host_uvc/libuvc/include/utlist.h:128-144 | A pass keeps the order of elements that tie |
| MergeSpec.MergeSorts | components/espressif__usb_host_uvc/libuvc/include/utlist.h:128-144 | Merging two sorted runs gives a sorted run |
| MergeSpec.MergeIsStable | components/espressif__usb_host_uvc/libuvc/include/utlist.h:133-137 | On a tie the element of the left run comes first |
| MergeSpec.MergePermutes | components/espressif__usb_host_uvc/libuvc/include/utlist.h:128-144 | A merge keeps exactly the elements of both runs |
| DoublyLinked.Prepend | components/espressif__usb_host_uvc/libuvc/include/utlist.h:384-394 | The new node becomes the head of a well-formed list |
| DoublyLinked.Append | components/espressif__usb_host_uvc/libuvc/include/utlist.h:396-408 | The new node becomes the tail of a well-formed list |
| DoublyLinked.Delete | components/espressif__usb_host_uvc/libuvc/include/utlist.h:410-425 | The list closes over any deleted node, head, tail or only one, and the deleted node keeps its links |
| ProbeProofs.QueueDiscipline | components/espressif__mdns/mdns.c:5144-5174 | In every reachable state the queue is sorted by due time, queued packets form a prefix, the live packets named by pending actions are that prefix in order, and an action is skipped only if its packet was removed |
| ProbeProofs.ProbeBeforeClaim | components/espressif__mdns/mdns.c:4761-4816 | In every run nothing goes out before it is due, and with a hostname set no announcement, answer or goodbye goes out on an interface without three probes since its restart, each 250 ms or more after the one before; or, if the removal of a service ended the probing, without such probes since the restart before |
| ProbeProofs.ProbesSinceRestart | components/espressif__mdns/mdns.c:4761-4816 | In every run in which no removal ends a probing, the three spaced probes have been sent since the last restart |
| ProbeProofs.RemovalEndsProbing | components/espressif__mdns/mdns.c:2640-2665 | In every reachable state the removal of a service takes an interface past probing if and only if it is probing for that service alone and not for the host |
| ProbeClaims.WhatIsToldWasAsked | components/espressif__mdns/mdns.c:4761-4816 | In every run without the two kinds of steps below: whatever goes out under a host name besides probes and goodbyes, announcements made from a probe included, is about services for each of which three spaced probes asked on that interface when it was last put up for probing |
| ProbeClaims.AbandonedExactly | components/espressif__mdns/mdns.c:2340-2357 | A step passes over a service, so that it may be spoken of without a completed probing, if and only if it is a restart that clears the list of a probing interface with the service on it and does not name it again |
| ProbeClaims.AbandonedIsTold | components/espressif__mdns/mdns.c:2428-2451 | On any running interface: a service is put up, a restart for another clears the list, the other is removed, and the first is answered for without a probe |
| ProbeClaims.MisdirectedExactly | components/espressif__mdns/mdns.c:2667-2684 | After a removal from a probing interface the live probe asks for exactly the services left on the list if and only if the removed one was the first of its type there |
| ProbeClaims.WrongQuestionStays | components/espressif__mdns/mdns.c:2667-2684 | With two services of one type on the list, the removal of the second leaves a probe that asks for it and not for the first |
| ProbeClaims.OwnQuestionGoes | components/espressif__mdns/mdns.c:2667-2684 | The search by type takes out the question of the removed service if and only if that is the first of its type |
| ProbeClaims.ProbeAsksForList | components/espressif__mdns/mdns.c:2015-2060 | In such runs the live probe of a probing interface asks for exactly the services on its list |
| ProbeClaims.ClaimsKeep | components/espressif__mdns/mdns.c:4894-5086 | Every other step keeps, for each interface, which services it may speak about, which of them are being probed and by which probes the others were proven |
| ProbeDelivers.ThirdProbeAnnounces | components/espressif__mdns/mdns.c:2095-2131 | In every reachable state, when the third probe of an interface goes out and the announcement can be allocated: its one packet is then an announcement due in 250 ms, about exactly the services on its list at that moment and their host |
| ProbeDelivers.UndisturbedCycle | components/espressif__mdns/mdns.c:4761-4816 | An interface that nothing disturbs, for every list of services and all waiting times: three probes that ask for the list, each 250 ms or more behind the one before, then three announcements about exactly the list and its host, 250 ms behind the last probe and a second or more apart, and then it runs with nothing to send |
| ProbeDelivers.RestartProbes | components/espressif__mdns/mdns.c:2154-2252 | A restart under a hostname probes for exactly the given services and, unless its list is cleared, those it was probing for, asks for and offers exactly them, after 120 ms, or a second behind more than five failed probes, and the jitter |
| ProbeDelivers.ProbingAnnouncementRestarts | components/espressif__mdns/mdns.c:2297-2303 | Announcing services on a probing interface is a restart of its probing with them |
| ProbeDelivers.HostnameReprobes | components/espressif__mdns/mdns.c:2456-2475 | A new hostname: every ready interface probes for exactly the given services and the host, with one live probe, and the others have no packet left and are otherwise as they were |
| ProbeDelivers.SixFailuresSlowDown | components/espressif__mdns/mdns.c:2206-2206 | From six lost probings in a row on the next one waits for a second instead of 120 ms |
| ProbeDelivers.RunningAnnounces | components/espressif__mdns/mdns.c:2326-2341 | Announcing services on a running interface: one packet more, due at once, about exactly those services, the host in its authority list if addresses are to be told |
| ProbeDelivers.AnnouncingJoins | components/espressif__mdns/mdns.c:2304-2325 | Announcing services on an interface that announces already: its first waiting packet is about them too, nothing else changes, and its three announcements start again |
| ProbeDelivers.SharedAnswerGoesOut | components/espressif__mdns/mdns.c:1803-1903 | An answer with shared records waits with exactly its content and goes out when it is due |
| ProbeDelivers.KnownIsLeftOut | components/espressif__mdns/mdns.c:1612-1643 | What another responder has told is taken out of a waiting answer, and nothing else |
| ProbeDelivers.RemovedIsSilent | components/espressif__mdns/mdns.c:2624-2703 | In every reachable state: after a service is removed no waiting packet is about it and no interface probes for it, and every other record that waited in an answer list still does |
| ProbeDelivers.EmptiedAnnouncementRuns | components/espressif__mdns/mdns.c:2688-2693 | An interface whose announcement was about the removed service alone has no packet left and runs |
| ProbeDelivers.GoodbyeGoesOut | components/espressif__mdns/mdns.c:2137-2160 | A goodbye on an interface past probing goes out at once, under a hostname, and changes nothing else |
| ProbeProofs.AddedThenRemoved | components/espressif__mdns/mdns.c:2656-2664 | On any running interface a service that is added and removed before its first probe lets the next answer out without a probe since that restart |
| ProbeProofs.ProbingDiscipline | components/espressif__mdns/mdns.c:4761-4816 | In every reachable state, removals of services included, a probing interface has exactly one live packet, PROBE_k means k-1 probes since the restart, probe_running holds exactly in PROBE_1 to PROBE_3, and other interfaces have no probe list |
| ProbeProofs.MergedIsUnion | components/espressif__mdns/mdns.c:2161-2252 | A restart probes each old and new service once, and fills exactly the cells allocated for them |
| ProbeProofs.StepKeeps | components/espressif__mdns/mdns.c:4894-5086 | Every step of the timer task, the service task and the clock keeps the invariant |
| ProbeProofs.ReachableIsInv | components/espressif__mdns/mdns.c:4894-5174 | The invariant holds in every state that legal steps reach from a started responder |
| ProbeProofs.InitProbeKeeps | components/espressif__mdns/mdns.c:2217-2252 | Starting or restarting a probe leaves its interface with one fresh probe packet and touches no other interface |
| ProbeProofs.HostnameKeeps | components/espressif__mdns/mdns.c:2456-2475 | A new hostname clears the queue and restarts every ready interface without breaking the invariant |
| ProbeProofs.ExecuteKeeps | components/espressif__mdns/mdns.c:5075-5086 | Executing an action keeps the invariant, whether its packet is taken or skipped |
| ProbeProofs.QuestionKeeps | components/espressif__mdns/mdns.c:4003-4005 | Answering keeps the invariant, because the guard admits only interfaces past probing |
| ProbeProofs.AnnouncementKeeps | components/espressif__mdns/mdns.c:2297-2336 | Announcing changed services keeps the invariant in every state of the interface |
| ProbeProofs.RemovalKeeps | components/espressif__mdns/mdns.c:2624-2703 | Removing a service, which takes its records out of all waiting packets, unlinks those left empty, shortens probe lists and can end a probing or an announcement, keeps the invariant |
| ProbeProofs.ByeKeeps | components/espressif__mdns/mdns.c:2278-2293 | Saying goodbye, under a hostname and on interfaces past probing, keeps the invariant |
| ProbeProofs.SuppressKeeps | components/espressif__mdns/mdns.c:1612-1640 | Taking an answer that another responder gave out of a waiting packet keeps the invariant |
| ProbeProofs.StopKeeps | components/espressif__mdns/mdns.c:2841-2856 | Taking an interface out of service leaves it without packets, probe list and probe flag |
| TxQueue.ScheduleKeeps | components/espressif__mdns/mdns.c:1530-1548 | Scheduling keeps the queue sorted, its queued packets a prefix, and the pending actions in step with them |
| TxQueue.SchedulerKeeps | components/espressif__mdns/mdns.c:5144-5174 | Marking the first unqueued due packet and posting its action, or failing to, keeps the queue invariant |
| TxQueue.TakeKeeps | components/espressif__mdns/mdns.c:5075-5086 | Taking the packet at the head for its action keeps the queue invariant |
| TxQueue.RemoveKeeps | components/espressif__mdns/mdns.c:1569-1590 | Removing an interface's packets keeps the queue invariant; their actions become stale |
| TxQueue.ThinnedKeeps | components/espressif__mdns/mdns.c:2626-2701 | Taking packets out anywhere in the list, and changing what others hold, keeps the queue invariant |
| TxQueue.SkippedOnlyIfGone | components/espressif__mdns/mdns.c:5075-5086 | A transmit action that does not match the head names a packet that is no longer in the list |
| TxQueue.InsertIsFair | components/espressif__mdns/mdns.c:1530-1548 | A packet goes behind every packet that is due no later and in front of all others, so packets due at the same time keep their order |
| Responder.Server.ScheduleTx | components/espressif__mdns/mdns.c:1530-1548 | The walk along the list puts the packet behind every packet due no later |
| Responder.Server.ClearPcbTxQueue | components/espressif__mdns/mdns.c:1569-1590 | Both loops together leave the list without exactly the packets of the interface |
| Responder.Server.SchedulerRun | components/espressif__mdns/mdns.c:5144-5174 | The timer task does exactly the scheduler step, also when allocation or the queue fails |
| Responder.Server.TxHandlePacket | components/espressif__mdns/mdns.c:4761-4816 | The state switch with its fall-through cases does exactly the handling step |
| Responder.Server.ExecuteAction | components/espressif__mdns/mdns.c:5075-5086 | The service task does exactly the execution step |
| Responder.Server.NewServices | components/espressif__mdns/mdns.c:2228-2243 | The nested search loops keep exactly the services that are not being probed yet, in order |
| Responder.Server.InitPcbProbe | components/espressif__mdns/mdns.c:2161-2252 | Starting a probe does exactly the restart step |
| Responder.Server.RemoveScheduledServicePackets | components/espressif__mdns/mdns.c:2624-2703 | The walk over the list does exactly the removal step |
| Responder.Server.DropQuestion | components/espressif__mdns/mdns.c:2667-2684 | The search along the questions takes out the first one about a service of the type |
| UriCodec.EscapeUri | protocol_examples_common/protocol_examples_common/protocol_examples_utils.c:223-237 | The writing pass emits the escaped bytes, their number, and touches nothing behind them |
| UriCodec.CountEscapes | protocol_examples_common/protocol_examples_common/protocol_examples_utils.c:206-221 | The pass without a destination counts the bytes that are escaped |
| UriCodec.EscapeLength | protocol_examples_common/protocol_examples_common/protocol_examples_utils.c:206-237 | The writing pass emits exactly size + 2n bytes, n being the count of the other pass |
| UriCodec.UnescapeUri | protocol_examples_common/protocol_examples_common/protocol_examples_utils.c:240-363 | The reader over buffers, also when decoding in place: the write position never passes the read position, so the result is that of decoding into another buffer |
| UriCodec.RoundTrip | protocol_examples_common/protocol_examples_common/protocol_examples_utils.c:59-363 | For every table that escapes "%": reading back gives the whole string without flags, and the string up to and including its first "?" with the URI flag |
| UriCodec.InverseIffPercentEscaped | protocol_examples_common/protocol_examples_common/protocol_examples_utils.c:59-363 | Unescaping with type 0 is a left inverse on all strings if and only if the table escapes "%" |
| UriCodec.OnlyRefreshKeepsPercent | protocol_examples_common/protocol_examples_common/protocol_examples_utils.c:65-201 | Of the seven escape types only the one for refresh headers leaves "%" alone |
| UriCodec.ComponentSparesUnreserved | protocol_examples_common/protocol_examples_common/protocol_examples_utils.c:96-120 | The table of the library encoder spares exactly the unreserved characters of section 2.3 of RFC 3986: letters, digits, and - . _ ~ |
| UriCodec.TablesEscape | protocol_examples_common/protocol_examples_common/protocol_examples_utils.c:65-201 | The bytes that each of the other escape types escapes |
| UriCodec.EscapesInUpperCase | protocol_examples_common/protocol_examples_common/protocol_examples_utils.c:59-60 | An escaped byte is a percent sign and its two hexadecimal digits in upper case |
| UriCodec.ReadsAnyEscape | protocol_examples_common/protocol_examples_common/protocol_examples_utils.c:240-363 | Without the redirect flag: two digits of either case stand for their byte, a percent sign in front of any other byte is left out, and with one digit and no second one all three bytes are |
| UriCodec.RedirectReads | protocol_examples_common/protocol_examples_common/protocol_examples_utils.c:293-350 | With the redirect flag an escape stays as it is unless it stands for a byte between % and DEL, and one for ? ends the string |
| UriCodec.ReadAsFarAs | protocol_examples_common/protocol_examples_common/protocol_examples_utils.c:240-363 | A string without a percent sign is read to its end, or with the URI or the redirect flag up to and including its first ? |
| UriCodec.EncodeThenDecode | protocol_examples_common/protocol_examples_common/protocol_examples_utils.c:366-389 | example_uri_decode of example_uri_encode is the string up to and including its first "?", for every string |
| BankCache.CacheRefinesFlatFile | protocol_examples_common/protocol_examples_common/esp_eth_mac_enc28j60.c:358-412 | For every interleaving of any number of threads every banked access reaches the register in the bank that bits 8 and 9 of its address name, at the low byte of the address; every read gets the last value written there; and the registers hold the last values written, if the chip is reset only before the first access, no set transaction fails after its clear, and the masks of unlocked commands on ECON1 spare the bank bits |
| BankCache.MaskSparesBank | protocol_examples_common/protocol_examples_common/esp_eth_mac_enc28j60.c:646-938 | A set or clear command on ECON1 leaves every bank selected if and only if its mask spares the two bank bits; the masks used without the lock do |
| BankCache.SetAloneSelects | protocol_examples_common/protocol_examples_common/esp_eth_mac_enc28j60.c:362-365 | Without the clear in front of it the set selects the wanted bank exactly from bank 0, from that bank, or for bank 3 |
| BankCache.RunKeeps | protocol_examples_common/protocol_examples_common/esp_eth_mac_enc28j60.c:358-412 | The cache tells the truth whenever the lock is free, although the bank bits of ECON1 pass through 0 and its other bits are set and cleared without the lock |
| BankCache.AdvanceKeeps | protocol_examples_common/protocol_examples_common/esp_eth_mac_enc28j60.c:358-412 | Each transaction of a locked access keeps the invariant, failed ones included, except a failed set |
| BankCache.FailedSet | protocol_examples_common/protocol_examples_common/esp_eth_mac_enc28j60.c:363-366 | After a set that fails behind its clear the cache is truthful if and only if it held nothing or bank 0 modulo 4 |
| BankCache.ResetWhileCached | protocol_examples_common/protocol_examples_common/esp_eth_mac_enc28j60.c:332-353 | A reset leaves the cache truthful if and only if it held nothing or bank 0 modulo 4 |
| BankCache.StaleCacheMisses | protocol_examples_common/protocol_examples_common/esp_eth_mac_enc28j60.c:375-393 | After either accident the next access to the cached bank reaches a register of bank 0 instead of the one it names |
| BankCache.Mac.SwitchRegisterBank | protocol_examples_common/protocol_examples_common/esp_eth_mac_enc28j60.c:358-370 | The bank and the cache after the switch, for every outcome of its two transactions |
| BankCache.Mac.RegisterWrite | protocol_examples_common/protocol_examples_common/esp_eth_mac_enc28j60.c:375-393 | A write is one undisturbed run of the step model from lock to unlock; with a truthful cache it changes exactly the register that the bank bits and the low byte of the address name |
| BankCache.Mac.RegisterRead | protocol_examples_common/protocol_examples_common/esp_eth_mac_enc28j60.c:396-414 | A read is one undisturbed run of the step model from lock to unlock; with a truthful cache it returns the value of the register that the bank bits and the low byte of the address name |
| KeepAlive.SilentClientIsReported | main/keep_alive.c:107-156 | With no queue traffic every silent client is reported and removed no earlier than its deadline and at most 1000 ms after it |
| KeepAlive.ReportedOnlyIfSilent | main/keep_alive.c:139-155 | Whatever the table, a client is reported only if it was silent for not_alive_after_ms and for the period |
| KeepAlive.DelayIsMinimum | main/keep_alive.c:54-69 | With nobody overdue the delay is the exact minimum of 30 seconds and the times to the clients' checks |
| KeepAlive.DelayBounds | main/keep_alive.c:54-69 | The delay is between 0 and 30 seconds, and at most 1000 ms if anybody is overdue |
| KeepAlive.PassIsPerClient | main/keep_alive.c:139-155 | For every table the pass calls what checking every client on its own calls, and leaves the table that leaves if and only if no silent client stands behind a live one with its descriptor |
| KeepAlive.DistinctPass | main/keep_alive.c:139-155 | With distinct descriptors that is so, and what the pass leaves has distinct descriptors again |
| KeepAlive.DuplicateRemovesTheLiveOne | main/keep_alive.c:83-93 | An input where it is not so: the client just heard from is removed and the silent one stays |
| KeepAlive.UpdatedIsNotReported | main/keep_alive.c:72-81 | After an update with a timestamp no pass of a quiet run before that timestamp and the limit reports or removes the client |
| KeepAlive.AddedIsNotReported | main/keep_alive.c:94-105 | A client that is added is neither reported nor removed before the limit has passed since |
| KeepAlive.RemovedIsForgotten | main/keep_alive.c:83-92 | With distinct descriptors a removal frees exactly the slot of its client |
| KeepAlive.PingedExactly | main/keep_alive.c:138-156 | A pass pings exactly the clients that have been silent for the period but not for the limit |
| KeepAlive.Monitor.CheckPass | main/keep_alive.c:139-155 | The loop calls and removes as the sweep says, for every table |
| KeepAlive.Monitor.GetMaxDelay | main/keep_alive.c:54-69 | The loop computes the delay |
| KeepAlive.Monitor.AddNewClient | main/keep_alive.c:94-105 | The first free slot takes the client, or nothing changes and the call fails |
| KeepAlive.Monitor.UpdateClient | main/keep_alive.c:72-81 | The first slot with the descriptor gets the time, or nothing changes and the call fails |
| KeepAlive.Monitor.RemoveClient | main/keep_alive.c:83-93 | The first slot with the descriptor is freed, or nothing changes and the call fails |
| TxtCodec.TxtRoundTrip | components/espressif__mdns/mdns.c:3378-3467 | For every list of valid items the reader reports exactly the written keys and values in order if and only if every item but the last has a value; the counting pass counts them all |
| TxtCodec.MisreadsKeyOnly | components/espressif__mdns/mdns.c:3419-3436 | Every list with a key-only item in front of another one is misread, because the reader steps one byte too far |
| TxtCodec.WeightBound | components/espressif__mdns/mdns.c:3409-3452 | The creating pass never steps more than one byte past the end of the data |
| TxtCodec.NamelessIsLeftOut | components/espressif__mdns/mdns.c:3409-3452 | An entry that begins with = is skipped, and the items in front of it and behind it are read as they are |
| TxtCodec.AppendTxtData | components/espressif__mdns/mdns.c:963-985 | All entries in order or one zero byte; 0 exactly if there are entries and they do not fit |
| TxtCodec.AppendEntry | components/espressif__mdns/mdns.c:633-651 | One entry is written whole or not at all |
| TxtCodec.CountItems | components/espressif__mdns/mdns.c:3335-3357 | The counting loop counts the parts, -1 if one runs past the end |
| TxtCodec.KeyLength | components/espressif__mdns/mdns.c:3362-3373 | The search for the equals sign finds the length of the key, -1 if the part starts with it |
| TxtCodec.DecodeTxt | components/espressif__mdns/mdns.c:3378-3467 | The reader reports nothing for malformed data, else every part with a key |
| TieBreak.SrvTieBreak | components/espressif__mdns/mdns.c:2743-2795 | Two hosts that check each other's SRV data get opposite verdicts, none exactly if priority, weight, port and host are byte-equal, and winning is transitive |
| TieBreak.OneWinner | components/espressif__mdns/mdns.c:2743-2795 | Among any number of distinct probers exactly one wins the SRV check against all others |
| TieBreak.VerdictIsTotalOrder | components/espressif__mdns/mdns.c:2788-2794 | The comparison is antisymmetric, transitive, and undecided only for equal data |
| TieBreak.TxtTieBreak | components/espressif__mdns/mdns.c:2800-2839 | Two hosts that check each other's TXT data get opposite verdicts, none exactly if the data are equal, and winning is transitive |
| TieBreak.OneTxtWinner | components/espressif__mdns/mdns.c:2800-2839 | Among any number of hosts whose TXT data differ exactly one wins the TXT check against all others |
| TieBreak.TxtCheckIsComparison | components/espressif__mdns/mdns.c:2800-2839 | The TXT check is the comparison with an empty TXT read as one zero byte, if and only if it is not an empty TXT against a single other byte |
| TieBreak.CheckSrvCollision | components/espressif__mdns/mdns.c:2743-2795 | Against a record in the default domain the longer host wins, and among hosts of one length the larger priority, then weight, then port, then the host with the larger byte where they first differ; in any domain the longer data, or the larger byte where they first differ; a host without a name sees no collision |
| TieBreak.CheckTxtCollision | components/espressif__mdns/mdns.c:2800-2839 | Unless there are no items against a single byte, the longer data wins, and of two of one length the one with the larger byte where they first differ |
| NameMangling.RenamingEscapes | components/espressif__mdns/mdns.c:204-241 | For any finite set of taken names some renaming among the first (number taken) + 1 is free, with every suffix an int |
| NameMangling.NeverRepeats | components/espressif__mdns/mdns.c:204-241 | Iterated renaming never gives a name twice, the original included, as long as the suffix is an int |
| NameMangling.RenamingCounts | components/espressif__mdns/mdns.c:204-241 | The n-th renaming is the name without its numeric suffix, a dash, and a number that counts up from the first, as long as it is an int |
| NameMangling.MangledFits | components/espressif__mdns/mdns.c:223-238 | The result is at most one character longer with a numeric or empty suffix and exactly two without, as the allocations assume |
| NameMangling.NumberIsCounted | components/espressif__mdns/mdns.c:204-241 | Behind the last dash white space, a plus sign or none, and digits are replaced by the next number |
| NameMangling.ZerosDoNotCount | components/espressif__mdns/mdns.c:213-213 | Leading zeros of the suffix do not change its number |
| NameMangling.OtherwiseKept | components/espressif__mdns/mdns.c:204-241 | A name without a dash, or with any other character behind its last dash, is kept whole with -2 behind it; a name that ends in a dash gets a 1 |
| NameMangling.TenFollowsNine | components/espressif__mdns/mdns.c:223-238 | Behind a dash, 10 follows 9 and 100 follows 99, whatever stands in front |
| NameMangling.MangleName | components/espressif__mdns/mdns.c:204-241 | The loop over the string computes the renaming for every name |

## Left out

- FqdnExactness.AppendExact: does not speak about targets that are neither a completed name nor the name being written, such as raw record bytes or stale buffer bytes that happen to look like a name, because whether those mean anything is decided by bytes outside every name; SeamExact speaks about stale bytes behind a name.
- FqdnSafety.SafeCallIsRecordable: goes one way; a call outside its conditions can still be right, and AppendExact says when.
- SafeMessages.SafeMessageIsParsed: goes one way, and covers no label with a byte of 0xC0 or above, such as the first byte of an accented letter in UTF-8, because such a byte can be taken for a pointer behind a stray length byte; SafeCallIsRecordable covers those call by call.
- Subtypes.LaterInstanceExact: asks for a service label that begins with an underscore, as DNS-SD has it; other service labels are glued onto the host slot and never match there. The labels are those of a safe message, and the subtypes of a service all differ.
- Messages.WalkVisitsEveryRecord: assumes that every append succeeds with faithful matches; SafeMessages says when that is so, and Leftovers what holds when answers fail.
- Leftovers.WalkTellsLeftovers: asks for whole questions; CutQuestionEndsMessage says what holds behind a question that was cut.
- Dispatch.DispatchedIsParsed: asks for one byte of room behind the message, because the builder of TXT records fails when its data end exactly at the end of the packet.
- Messages.ParseMessage: does not model the exits that depend on who asks and who is asked: own packets, a missing hostname, questions that are not ours, known-answer suppression, search results and discovery.
- Dispatch.DispatchPacket: takes answers that become one record each; the choice of record types, hosts, interface addresses and duplicate interfaces behind one answer is not modelled, nor are reverse records and dotted reverse questions; the records of subtypes, whose owners have five labels, are treated in Subtypes and are not answers here.
- RecordBuilders.AppendTxtRecord: items without a key, which the loop skips, are not representable.
- TieBreak.CheckTxtCollision: does not model items that are too large for one packet.
- KeepAlive.SilentClientIsReported: covers quiet runs only; with steady queue traffic the monitor never times out and no bound holds. Callbacks take no time, and one pass reads the clock once.
- ProbeProofs.ProbeBeforeClaim: speaks of three probes of the interface, not of which services they asked for, which ProbeClaims does; searches and their queries are not steps of the model, and a probe packet that cannot be allocated is not either; a failed announcement is.
- ProbeClaims.WhatIsToldWasAsked: takes every service to have a name of its own, where the code skips a service without an instance name, or with a question that is already there, when it builds a probe; what a service is called is not part of the state, so a new name is a step that puts the service up again.
- ProbeProofs.ProbesSinceRestart: speaks of probes of the interface, and excludes removals that end a probing, for which ProbeBeforeClaim and AddedThenRemoved say what holds instead.
- ProbeProofs.ProbingDiscipline: the count of probes is exact unless an announcement could not be allocated, in which case the third probe is sent again.
- BankCache.CacheRefinesFlatFile: accesses to the registers shared by all banks, and what the chip does beyond selecting a bank, are not modelled; a transaction that fails has no effect.
- UriCodec.RoundTrip: excludes the redirect flag, which keeps some escapes on purpose; RedirectReads says which.
- LinkedSort.Sort: does not model the wrap-around of the run length, an int, which would need a list of more than 2^30 nodes.
- TxQueue: packets have identities that are never used again, where the code has addresses; time is unbounded, where the tick counter has 32 bits; a packet's content is kept as what its questions and records are about, not as the records themselves.
- Responder.Server.ScheduleTx: inserts into a sequence field, so the pointer updates of the linked list do not appear.
- Responder.Server.ClearPcbTxQueue: removes from a sequence field, so the unlinking does not appear.
- Responder.Server.RemoveScheduledServicePackets: walks a sequence field, so the unlinking does not appear.
- NameMangling.MangleName: keeps the suffix unbounded, where the code has an int; the laws about repeated renaming ask for suffixes within an int.
- Responder: restarting all interfaces, answering and announcing are steps of ProbeMachine without a method of their own.
- mdns_private.h is not part of this model: the packet capacity is a parameter of at most 0x4000, the slot size is 65 bytes, header and record offsets are those of RFC 1035, and the order of the interface states follows from their uses.
- The flag for reverse queries is the parameter `reverse`; the dotted names that it enables are not modelled.
- The buffer is taken to be 256 bytes longer than the packet, because a comparison and a pointer can touch bytes behind it.
- Sockets, timers, locks and memory allocation are parameters or step boundaries.
- Console commands, JSON device tables, printing, camera and USB code would add only easy members.
