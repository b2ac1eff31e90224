# snifftags, modelled in Dafny

snifftags watches the live network interfaces of a host for a fixed time and
reports, per interface, the distinct 802.1Q VLAN identifiers seen on inbound
tagged traffic. Its own logic, which this project models and proves, is:

- **VLAN ID extraction** (`vlan_tag.dfy`, module `VlanTag`). The capture
  callback reads the 12-bit VID from bytes 14 and 15 of the raw frame with a
  mask, a shift and an OR. In C++ these run on the operands promoted to `int`,
  and only the assignment narrows to 16 bits. No bit above bit 11 is ever set,
  so the model computes the same value on `bv8` bytes and `bv16` arithmetic. It proves that the result is `(b[14] mod 16) * 256 + b[15]`
  and lies in 0..4095. It also proves which frames share a VID, and that
  extraction inverts 802.1Q tagging (clause 9.6 of IEEE 802.1Q).
- **Interface selection** (`interfaces.dfy`, module `Interfaces`).
  `getInterfaces` walks `/sys/class/net/`. It keeps the symbolic links
  (`d_type` 10) whose `type` and `carrier` files start with the line `"1"`.
  The directory listing and the readable files are inputs. A file that cannot
  be opened reads as `""`. A directory that cannot be opened gives no
  interfaces. The `"virtual"` test on the link target has an empty branch. The
  model keeps that test and proves that the link target never changes the
  result.
- **Aggregation** (`aggregator.dfy`, module `Aggregator`). The shared
  `std::map<std::string, std::set<unsigned short>>` is the class `VlanList`
  with a `map<string, set<u16>>` field. `Record` (the locked
  `operator[]`/`insert`) and `HandlePacket` (`pcapHandler`) update it in place.
  The mutex serialises every update, so one run is a single sequence of
  deliveries in lock order. `GetVlanList` enumerates the interfaces and applies
  the deliveries of the observed interfaces. The proofs show three things. The
  result holds exactly the delivered (interface, VID) pairs. Its keys are
  enumerated interfaces. It does not depend on the order in which the threads
  took the lock.
- **Report** (`report.dfy`, module `Report`, with `ordering.dfy`, module
  `Ordering`). `printVlans` writes a header, then one line per interface in
  `std::string` order: the name, `": "`, each ID in ascending decimal followed
  by a space, then a newline. The model walks the map and the sets in the
  order their iterators visit them. A reader for the report proves that the
  printed text gives back every interface and its sorted IDs.

Behaviour worth noting:

- The interface list comes back in directory order.
- An unreadable `type` or `carrier` file is reported on the error stream
  before the entry is dropped. Only the dropping is modelled.
- The `"virtual"` test on the link target has an empty branch. Virtual devices
  whose `type` and `carrier` read `"1"` are therefore observed too, although
  the test suggests they were meant to be filtered.

## Model

| member | source | states |
|---|---|---|
| `VlanTag.ExtractVid` | main.cpp:65-66 | the OR of byte 15 with the shifted low nibble of byte 14 equals `(b[14] mod 16) * 256 + b[15]`, and the VID is always in 0..4095 |
| `VlanTag.TciBits` | main.cpp:65-66 | the two parts of the OR occupy disjoint bits, so the bit-level result equals the arithmetic sum |
| `VlanTag.SameVidIff` | main.cpp:65-66 | two frames give the same VID if and only if they agree on the low nibble of byte 14 and on byte 15; the PCP/DEI bits and all other bytes do not matter |
| `VlanTag.ExtractTaggedFrame` | main.cpp:65-66 | extraction recovers the VID of any 802.1Q-tagged frame, whatever its addresses, priority, DEI bit and payload |
| `VlanTag.VidBoundsReachable` | main.cpp:65-66 | the VIDs 0 and 4095 are both produced |
| `Interfaces.FirstLine` | main.cpp:26 | what `getline` yields: no newline, a prefix of the text, ended by the first newline or by the end of the text |
| `Interfaces.GetFirstLineFile` | main.cpp:19-29 | a file that cannot be opened reads as `""`; otherwise the result is the file's first line |
| `Interfaces.Eligible` | main.cpp:43-45 | an entry that passes the three tests has both a readable `type` file and a readable `carrier` file |
| `Interfaces.LinkBuffer` | main.cpp:46-48 | the 128-byte buffer holds the start of the link target, truncated to 128 bytes, and zero bytes after a shorter target |
| `Interfaces.Contains` | main.cpp:50 | `find` succeeds if and only if the word occurs at some position of the buffer |
| `Interfaces.Selected` | main.cpp:42-53 | one name per entry that passes the three tests, so never more names than listing entries |
| `Interfaces.EligibleIndices` | main.cpp:42-53 | the positions of the entries that pass the three tests, strictly increasing, missing none |
| `Interfaces.GetInterfaces` | main.cpp:31-56 | if the directory cannot be opened the result is empty; otherwise the loop returns the selection of the listing |
| `Interfaces.SelectedInDirectoryOrder` | main.cpp:42-53 | the n-th selected name is the name of the n-th passing entry, so exactly the passing entries are kept, in directory order |
| `Interfaces.SelectedMembers` | main.cpp:42-53 | a name is selected if and only if some entry with that name is a symlink whose `type` and `carrier` read `"1"` |
| `Interfaces.UnreadableExcluded` | main.cpp:19-29 | an entry whose `type` or `carrier` file cannot be opened is never selected |
| `Interfaces.LinkTargetIgnored` | main.cpp:46-51 | listings that differ only in link targets give the same selection, so the `"virtual"` test excludes nothing |
| `Aggregator.Inserted` | main.cpp:69 | after insertion the key set is the old keys plus the interface; the interface's set is its old set (or empty) plus the VID; every other entry is unchanged |
| `Aggregator.InsertedIdempotent` | main.cpp:69 | recording the same (interface, VID) twice gives the same map as recording it once |
| `Aggregator.InsertedGrows` | main.cpp:69 | every (interface, VID) pair present before an insertion is still present after it |
| `Aggregator.VlanList.constructor` | main.cpp:113 | the shared map starts empty |
| `Aggregator.VlanList.Record` | main.cpp:68-70 | the locked `operator[]`/`insert` leaves the map equal to the insertion applied to the old map |
| `Aggregator.VlanList.HandlePacket` | main.cpp:58-70 | the callback records the frame's extracted VID under its interface and keeps every stored ID a 12-bit VID |
| `Aggregator.Collected` | main.cpp:112-128 | after any sequence of deliveries, every key is an observed interface and every stored ID is in 0..4095 |
| `Aggregator.CollectedPairs` | main.cpp:112-128 | an interface is a key if and only if it is observed and delivered a frame; a VID is in its set if and only if one of its delivered frames carries that VID |
| `Aggregator.CollectedOrderIndependent` | main.cpp:68-70 | any reordering of the deliveries, that is any order of taking the lock, yields the same map |
| `Aggregator.GetVlanList` | main.cpp:112-129 | the loop over the deliveries, with observers only on the enumerated interfaces, returns the collected map of those interfaces |
| `Aggregator.ThreePacketsOnOneInterface` | main.cpp:58-70 | frames tagged 10, 20 and 10 on `eth0` give exactly `{"eth0": {10, 20}}` |
| `Ordering.StringLess` | main.cpp:133 | `std::string`'s `operator<`: no string is less than itself, and a proper prefix comes before the longer string |
| `Ordering.StringLessIsStrictTotalOrder` | main.cpp:133 | `std::string` ordering is irreflexive, transitive and total |
| `Ordering.StringLessTransitive` | main.cpp:133 | lexicographic order is transitive |
| `Ordering.StringLessTotal` | main.cpp:133 | two different strings are ordered one way or the other |
| `Ordering.LeastExists` | main.cpp:133-135 | every non-empty set has a least element under a strict total order |
| `Ordering.SortedElements` | main.cpp:133-135 | the in-order walk of a set has the set's size and exactly the set's elements |
| `Ordering.SortedElementsAscending` | main.cpp:133-135 | the in-order walk is strictly ascending |
| `Ordering.FindLeast` | main.cpp:133-135 | the linear scan returns the least element of the set |
| `Ordering.InOrder` | main.cpp:133-135 | the repeated least-element walk visits exactly the ascending sequence of the set |
| `Report.Decimal` | main.cpp:136 | an ID is written as a non-empty string of digits with no leading zero |
| `Report.DecimalRoundTrip` | main.cpp:136 | reading the decimal digits back gives the ID |
| `Report.SortedIds` | main.cpp:135 | the IDs of a set in strictly ascending numeric order, each exactly once |
| `Report.SortedNamesAscending` | main.cpp:133 | interface names are walked in strictly ascending `std::string` order |
| `Report.IdsText` | main.cpp:135-137 | the ID list contains no colon and no newline |
| `Report.LineText` | main.cpp:134-138 | a line starts with the name and `": "` and ends with a newline; for a plain name the colon after the name is its only colon and the final newline its only newline |
| `Report.Lines` | main.cpp:133-139 | the interface lines are empty exactly when there is no interface, and otherwise end with a newline |
| `Report.Rendered` | main.cpp:131-139 | the output starts with the header, is the header alone exactly when the map has no key, and otherwise ends with a newline |
| `Report.InterfaceOrder` | main.cpp:133 | the map's keys in the order its iterator visits them, that is strictly ascending `std::string` order |
| `Report.PrintIds` | main.cpp:135-137 | the inner loop writes each ID of the set in ascending order, each followed by one space |
| `Report.PrintVlans` | main.cpp:131-140 | the output is the header followed by one line per interface in ascending name order |
| `Report.IdsRoundTrip` | main.cpp:135-137 | reading an ID list back gives the same IDs in the same order |
| `Report.LineRoundTrip` | main.cpp:134-138 | one line `name: ids` reads back as that name and those IDs |
| `Report.LinesRoundTrip` | main.cpp:133-139 | the lines read back as the interfaces with their sorted IDs, in order |
| `Report.ReportRoundTrip` | main.cpp:131-140 | the whole report reads back as every interface in ascending order with its IDs in ascending order |
| `Report.EntriesAt` | main.cpp:133-139 | the n-th line holds the n-th interface name and that interface's sorted IDs |
| `Report.RenderedEmpty` | main.cpp:132 | an empty map prints exactly the header |
| `Report.RenderedOneInterface` | main.cpp:131-140 | `{"eth0": {10, 20}}` prints `"\nFound VLANs:\neth0: 10 20 \n"` |

## Left out

- The libpcap calls in `lookInterface` (main.cpp:77-110) are foreign code: opening the capture, compiling and installing the `"inbound && vlan"` filter, the loop and the clean-up. Their effect is an input, the delivery sequence. An observer that fails to open or to install its filter has no deliveries.
- VlanTag.ExtractVid requires at least 16 captured bytes. The callback never checks the length, but the `vlan` filter only lets through tagged frames, and those are at least that long.
- Threads, `detach`, the mutex and `sleep` in `getVlanList` (main.cpp:114-126) are not modelled. The model applies the deliveries one at a time in lock order. The delivery sequence stands for what was recorded before the map was read. Updates made after that read, by threads that were never joined, are outside the model.
- Filesystem calls (`opendir`, `readdir`, `readlink`, `ifstream`, `closedir`) are replaced by input data: a `DirListing` and a map from path to file contents. A `readlink` failure is not modelled, because the buffer it fills is never used.
- Messages on the error stream are not modelled: failed file opens, a failed directory open, capture errors.
- Argument parsing with TCLAP in `main` (main.cpp:143-166) is not modelled. This includes the uninitialised `viewing_time` after a parse error. The observation time only decides which deliveries happen, and the delivery sequence already stands for that.
- The `show_interfaces` and `show_traffic` prints and the unsynchronised `count_traffic` counter (main.cpp:72-74, 102-104) are diagnostic output only.
- Ordering.StringLess compares characters by code point. `std::string` compares them as unsigned bytes. The two orders agree on interface names made of bytes.
- Report.ReportRoundTrip only covers interface names with no colon and no newline. Linux refuses both in interface names.
- Standard output is modelled as the returned string of `Report.PrintVlans`. Its specification, `Report.Rendered`, is a ghost function.
