# V-MAC 802.11ac: verified models

This project models, in Dafny 4.11, the parts of the repository whose state is easiest to get wrong, and proves what
they promise. Each component is modelled in the form its source has: hash tables, chains, buffers and state machines
are classes and in-place methods, each proved against a specification on values, and the specification is then shown
to have the properties a user relies on.

| component | files |
|---|---|
| the uthash table (`userspace/uthash.h`) | `uthash_*.dfy`, with `stable_sort.dfy`, `bloom.dfy`, `bits.dfy`, `seqs.dfy` |
| the NAT2.5 address database (`kernel/core/rtw_br_ext.c`) | `nat25_model.dfy`, `nat25_db.dfy`, `nat25_theorems.dfy` |
| the PPPoE relay tag and the DHCP checksum (the same file) | `pppoe.dfy`, `dhcp.dfy` |
| information elements, P2P attributes, channel grouping (`kernel/core/rtw_ieee80211.c`) | `elements.dfy`, `ie_edit.dfy`, `ie_parse.dfy`, `p2p_attr.dfy`, `p2p.dfy`, `chbw.dfy`, with `bytes.dfy` and `options.dfy` |
| the beamforming sounding scheduler (`kernel/core/rtw_beamforming.c`) | `sounding_log.dfy`, `beamforming.dfy` |
| SoftAP counters, beacon bits and the MAC access list (`kernel/core/rtw_ap.c`) | `ap_bss.dfy`, `ap_acl.dfy` |
| SipHash-2-4 (`userspace/csiphash.c`) | `words.dfy`, `siphash.dfy` |

How the models are built:

- **uthash.** Items are heap objects on two intrusive doubly linked structures at once. Every macro is a method that
  takes the heap from one value of `Model` (application list, chains, counters, Bloom bits, history of expansions) to
  the next; `Inv` is what the consistency macro checks and more, and `UtHashTheorems` speaks about runs over `Model`.
  The hash is an arbitrary number carried by the item, `cmpfcn` an arbitrary total preorder, and every allocation may
  fail (`Memory`), which is the non-fatal out-of-memory configuration.
- **NAT2.5.** Entries are heap objects on sixteen chains with `pprev_hash`; `Bridge.db` is the same on values. Times are
  unbounded integers, `hz` of them a second.
- **Buffers** are arrays of bytes edited with `memmove`. Searches and edits are specified on the bytes, with the exact
  condition under which they read only what they may, and lemmas say what that is on lists of elements, attributes and
  tags, complete or cut short.
- **The scheduler** records what it starts in a ghost log, and `SoundingLog.Good` says what order is allowed. Its
  handlers call each other as in the source; the number of listed beamformees not yet started is the measure. A second
  ghost record holds the outcome of every sounding, and the failure counts are numbers of failures in it.
- **SoftAP.** A ghost sequence records what each associated station has said in each of its joins; flags, counters and
  beacon bits are functions of it. The HT operation word is modelled by its fields.
- **SipHash** words are sequences of 64 bits with addition as ripple carry; `Words.AddValue` ties it to arithmetic.

The functions that contracts refer to are themselves described by theorems on the data alone, with the thresholds and
byte values written out: `UtHashTheorems.GrowthRule` and `ExpansionVerdict`, `StableSort.SortMeans`,
`Nat25Theorems.LivesFor300Seconds`, `Pppoe.EchoedMeans`, `Dhcp.TargetsMean`, `IeParse.KindsMean`, `P2p.StripAllMeans`,
`Beamforming.ListsMean`, `ApBss.Ap.HtWordMeans` and others.

Where the code and what it is for differ, the model follows the code, and the difference is a theorem:

- A lookup of a key that several items carry changes with an expansion (`UtHashTheorems.ExpansionKeepsFound`).
- An element too short for the OUI can be removed because of the bytes of its successors (`IeEdit.RemovalIsFilter`).
- The search of P2P attributes does not end on three bytes that claim a length of 65533 (`P2pAttr.StallExample`), and
  `P2pAttr.SearchEnds` says on which bytes it does. Lengths of 65534 and 65535 make deletion cut bytes out of other
  attributes (`P2pAttr.CutExample`); `P2pAttr.DeletionIsFilter` says when it does not.
- An empty Relay-Session-Id is lost on the way (`Pppoe.RoundTripIdentity`), and one that does not fit any more is
  removed before the tag is refused (`Pppoe.Skb.InsertRelay`).
- The relay tag's length is used in network order, so that a little-endian host cannot add the tag
  (`Pppoe.LittleEndianOverruns`, `Pppoe.AddedIffLengthRight`).
- The checksum update is right only for a zero flags word (`Dhcp.RightStaysRight`), can come out as zero
  (`Dhcp.NewCheckIsZero`), and gives a datagram without a checksum one that is right only by chance
  (`Dhcp.UpdateIsRecomputation`, `Dhcp.BareRequestRejected`).
- A station that joins again with better HT capabilities stays counted as before (`ApBss.RejoinExample`), and
  `ApBss.Ap.HtCountersAreBounds` says when the counters are right.
- The ERP update tests for one non-ERP station where it means at least one; joins and departures only call it when the
  number becomes one from zero or zero, so the protection bits are right all the same (`ApBss.Ap.ProtectionIffNonErp`),
  and the preamble bit is out of date (`ApBss.BarkerIsOld`, `ApBss.BarkerExample`).

## Model

| member | source | states |
|---|---|---|
| UtHash.Hash.Add | userspace/uthash.h:407-426 | An addition in application order leaves the heap in the state `Added` describes: list, chains, counters, Bloom bits and, when a bucket is crowded, the doubled table; every out-of-memory outcome included |
| UtHash.Hash.AddInorder | userspace/uthash.h:361-392 | An ordered addition puts the item behind a run of items that compare less or equal to it and before one that compares greater, if there is one, unless memory runs out; the rest is as for `Add` |
| UtHash.Hash.Delete | userspace/uthash.h:461-488 | Deletion takes the item out of list, chain and counts, and frees the table with the last item |
| UtHash.Hash.Find | userspace/uthash.h:164-174 | Lookup on the heap is `Found` on the model, through the Bloom test and the bucket |
| UtHash.Hash.Replace | userspace/uthash.h:265-273 | Replacement hands back the item found under the key, removes it and adds the new one |
| UtHash.Hash.Sort | userspace/uthash.h:983-1065 | The list holds the same items, each comparing less or equal to every later one, and of two items the earlier one stays in front exactly when it compares less or equal to the later one; chains, counters and Bloom bits are as they were |
| UtHash.Hash.Count | userspace/uthash.h:1160 | The count is the length of the application list |
| UtHash.Hash.Fsck | userspace/uthash.h:526-573 | No check of the consistency macro fails on a hash that satisfies the invariant |
| UtHash.MakeTable | userspace/uthash.h:223-253 | A table of 32 empty buckets is made exactly when all three allocations succeed; when only a later one fails the item keeps the address of the freed table, and the addition clears it |
| UtHash.AddToBkt | userspace/uthash.h:860-880 | An item goes to the front of its bucket; when the bucket is crowded and expansion not inhibited the table doubles, and if that fails the item is taken out of the bucket again |
| UtHash.RollbackBkt | userspace/uthash.h:149-157 | The bucket count is raised by one and the links cleared, so that the deletion that follows finds the count right |
| UtHash.RollbackAdd | userspace/uthash.h:324-344 | After a failed expansion list, head, tail, chains, counts and number of items are as before the addition |
| UtHash.AddOrRollback | userspace/uthash.h:324-344 | An addition fails exactly when it must expand and no memory is granted; it then changes nothing, and otherwise grows the table |
| UtHash.DeleteHh | userspace/uthash.h:461-488 | The list loses exactly the item, `prev`, `next`, head and tail staying consistent, and its chain loses it too |
| UtHash.FindInBkt | userspace/uthash.h:838-857 | The first item of the chain with that hash value, key length and key, or null |
| UtHash.BloomTest | userspace/uthash.h:206-213 | The Bloom test asks for the bit of the hash value |
| UtHashFsck.CheckChain | userspace/uthash.h:533-551 | On a chain that can be walked forwards the check passes exactly when every back link and the bucket count are right |
| UtHashFsck.CheckBuckets | userspace/uthash.h:533-555 | The bucket half passes exactly when every bucket is right and the counts add up to the number of items |
| UtHashFsck.CheckList | userspace/uthash.h:556-571 | The list half passes exactly when every back link is right and the number of items is the length |
| UtHashFsck.Check | userspace/uthash.h:526-573 | Provided the forward links make lists, the macro finds nothing exactly when all that holds |
| UtHashLinks.AppendList | userspace/uthash.h:289-295 | Appending extends the doubly linked list and moves the tail |
| UtHashLinks.SpliceBefore | userspace/uthash.h:372-384 | Inserting before an item keeps the list doubly linked and the head right |
| UtHashLinks.DelInBkt | userspace/uthash.h:882-895 | Unlinking from a bucket removes exactly that item from the chain and its count |
| UtHashSort.MergeRuns | userspace/uthash.h:1010-1050 | The inner loop of the merge sort produces the merge of two runs, which takes from the left one when it compares less or equal |
| UtHashSort.Pass | userspace/uthash.h:993-1055 | A pass turns sorted runs of one length into sorted runs of twice that length, and reports at most one merge exactly when it was the last |
| UtHashSort.Srt | userspace/uthash.h:983-1065 | The bottom-up merge sort terminates, for every length and every total preorder, with list, head and tail of the sorted items: the same items, each comparing less or equal to every later one, ties in their old order |
| StableSort.SortSorted | userspace/uthash.h:983-1065 | The result is in order |
| StableSort.SortPermutes | userspace/uthash.h:983-1065 | The result has the same elements |
| StableSort.SortStable | userspace/uthash.h:983-1065 | Elements that compare equal keep their order |
| StableSort.SortMeans | userspace/uthash.h:983-1065 | The sorted list is determined in terms of the comparison alone: the same elements, in order, two of them keeping their order exactly when the earlier compares less or equal to the later |
| StableSort.SortPlaces | userspace/uthash.h:983-1065 | Of two elements the one that came first is in front exactly when it compares less or equal to the other |
| StableSort.MergeSorts | userspace/uthash.h:1010-1050 | Merging two sorted halves is sorting the whole |
| UtHashExpand.ExpandBuckets | userspace/uthash.h:926-976 | Doubling relinks every item in place into the bucket its hash selects; `ideal_chain_maxlen` becomes the items per bucket, rounded up, and `nonideal_items` the sum over the buckets of what exceeds it; the expansion counts as ineffective, and after another one stops further ones, exactly when that sum is more than half of the items; without memory nothing changes |
| UtHashModel.ExpandedPartition | userspace/uthash.h:931-967 | Expansion loses no item, duplicates none and puts each in its bucket |
| UtHashModel.BucketSplits | userspace/uthash.h:441-444 | Doubling splits a bucket into itself and one other |
| UtHashModel.FoundIsScan | userspace/uthash.h:164-174 | Lookup answers null exactly when a scan of the application list finds no match, so the Bloom test never hides an item |
| UtHashModel.AddedInv | userspace/uthash.h:324-344 | Additions keep the invariant, with or without expansion or failure |
| UtHashModel.DeletedInv | userspace/uthash.h:461-488 | Deletions keep the invariant and the Bloom bits stay sound |
| UtHashModel.ReplacedInv | userspace/uthash.h:265-273 | Replacements keep the invariant |
| UtHashModel.ChainsCountItems | userspace/uthash.h:546-555 | The bucket counts add up to the number of items |
| UtHashTheorems.RunInv | userspace/uthash.h:526-573 | The invariant holds in every state of every run of additions, ordered additions, replacements, deletions and sorts |
| UtHashTheorems.HistoryRules | userspace/uthash.h:968-973 | `ineff_expands` counts the ineffective expansions in a row up to the latest, and `noexpand` is set exactly when the last two were ineffective |
| UtHashTheorems.InhibitedStays | userspace/uthash.h:870-872 | Over every run, a table whose expansion is inhibited never expands again as long as no new table is made |
| UtHashTheorems.ExpansionIdeal | userspace/uthash.h:939-941 | `ideal_chain_maxlen` is the number of items over the number of buckets, rounded up |
| UtHashTheorems.ExpansionMult | userspace/uthash.h:949-954 | `expand_mult` is zero up to the ideal length and else the smaller of the excess and the count over the ideal, rounded up |
| UtHashTheorems.GrowthRule | userspace/uthash.h:860-880 | A further addition doubles the buckets, or fails, exactly when the bucket of the hash value then holds ten items or more for each unit of its allowance and expansion is not inhibited; otherwise it goes to the front of its chain, and in every case to its place in the list |
| UtHashTheorems.FirstAddition | userspace/uthash.h:223-253 | The first addition makes a table of 32 buckets that holds the one item, unless an allocation fails |
| UtHashTheorems.NewestFound | userspace/uthash.h:860-880 | After an addition without expansion a lookup of the new key finds the new item, also among others with that key, and every other lookup answers as before |
| UtHashTheorems.DeletionCuts | userspace/uthash.h:461-488 | A deletion takes the item out of the list and out of its chain where it stood, and changes no counter |
| UtHashTheorems.ExpansionVerdict | userspace/uthash.h:968-973 | An expansion counts as ineffective exactly when it leaves more than half of the items past the ideal length of their chain; one that leaves no chain longer resets the count |
| UtHashTheorems.HitsReversed | userspace/uthash.h:943-963 | An expansion reverses the order of the items a lookup matches in a chain |
| UtHashTheorems.ExpansionKeepsFound | userspace/uthash.h:926-967 | An expansion keeps the answer of a lookup exactly when no two items match |
| UtHashTheorems.AdditionExpands | userspace/uthash.h:926-967 | After an addition that had to expand the ideal length is rounded up from the new number of items, `expand_mult` has its closed form in every bucket, the verdict on the expansion is that on its chains, and a lookup answers as without the expansion exactly when no two items match |
| UtHashTheorems.FindIsLookup | userspace/uthash.h:164-174 | With one item per key, lookup is the lookup of a finite map |
| UtHashTheorems.AddIsUpdate | userspace/uthash.h:407-426 | Adding under a new key updates the map, or leaves it when memory runs out |
| UtHashTheorems.ReplaceIsUpdate | userspace/uthash.h:265-273 | Replacement updates the map; out of memory the key is gone and nothing else has changed |
| UtHashTheorems.DeleteIsRemove | userspace/uthash.h:461-488 | Deletion removes the key from the map |
| UtHashTheorems.SortKeepsMap | userspace/uthash.h:983-1065 | Sorting keeps the map |
| UtHashTheorems.RunRefines | userspace/uthash.h:164-488 | Over every run that keeps keys unique, out-of-memory outcomes included, the table is the finite map its operations describe and every lookup in every state is that map's |
| UtHashTheorems.InorderIsSort | userspace/uthash.h:361-392 | Ordered additions leave the list that sorting makes of plain additions |
| Nat25Db.Link | kernel/core/rtw_br_ext.c:376-390 | Linking puts an entry in front of its bucket with every `pprev_hash` right |
| Nat25Db.Unlink | kernel/core/rtw_br_ext.c:393-406 | Unlinking through `pprev_hash` takes exactly that entry out of its bucket |
| Nat25Db.Bridge.LookupAndReplace | kernel/core/rtw_br_ext.c:409-480 | A lookup reports an entry even when it is stale, but gives its MAC and counts a use exactly when it was refreshed less than 300 seconds ago; other entries stay |
| Nat25Db.Bridge.Insert | kernel/core/rtw_br_ext.c:483-518 | An insertion records MAC and time under the address, keeping the use count, as a new entry used once if there was none and memory lasts; other entries stay |
| Nat25Db.Bridge.Expire | kernel/core/rtw_br_ext.c:637-722 | One expire pass leaves the entries refreshed less than 300 seconds ago alone, takes a use from every other one, and the entry with its last; the short cut is dropped with its entry |
| Nat25Db.Bridge.ExpireEntry | kernel/core/rtw_br_ext.c:650-717 | An entry refreshed 300 seconds ago or earlier loses one use, and goes with the last; a fresher one stays as it is |
| Nat25Db.Bridge.Cleanup | kernel/core/rtw_br_ext.c:608-634 | Cleanup empties every bucket and drops the short cut |
| Nat25Db.Bridge.Drop | kernel/core/rtw_br_ext.c:707-713 | Unlinking an entry clears the short cut when, and only when, it points at that entry |
| Nat25Db.Bridge.FindEntry | kernel/core/rtw_br_ext.c:1556-1579 | The entry of an IPv4 address, or null when there is none |
| Nat25Db.Bridge.Cache | kernel/core/rtw_xmit.c:4289-4304 | The transmit path points the short cut at the entry of the frame's address and refreshes it, or forgets it |
| Nat25Model.CachedMeans | kernel/core/rtw_xmit.c:4289-4304 | Where the short cut points after a frame, what it remembers, and that only the entry it then points at is refreshed |
| Nat25Model.Ipv4Means | kernel/core/rtw_br_ext.c:161-168 | The address of an IPv4 host is told by its four bytes, which are folded into its bucket |
| Nat25Model.GetExpired | kernel/core/rtw_br_ext.c:637-722 | After a pass a record is what ageing it once leaves |
| Nat25Theorems.RunInv | kernel/core/rtw_br_ext.c:324-722 | Over every run each address has at most one entry, in the bucket of its hash, with at least one use, and the short cut never points at an entry that is gone |
| Nat25Theorems.RunRefines | kernel/core/rtw_br_ext.c:409-722 | Over every run the chains are the map that the operations describe |
| Nat25Theorems.Forgotten | kernel/core/rtw_br_ext.c:637-722 | An entry nothing refreshes is gone after exactly as many stale passes as its use count, whatever else happens |
| Nat25Theorems.LookupGivesLastMac | kernel/core/rtw_br_ext.c:409-518 | From an empty table, the MAC a lookup gives is the one last inserted for the address, at whatever time |
| Nat25Theorems.LivesFor300Seconds | kernel/core/rtw_br_ext.c:141-157 | After an insertion, while other addresses are inserted and all passes and lookups come within 300 seconds, every lookup within 300 seconds gives that MAC, and without the short cut none later does |
| Pppoe.Skb.FindTag | kernel/core/rtw_br_ext.c:83-98 | The search answers what a scan of the bytes finds, for every frame on which its reads stay inside the buffer |
| Pppoe.FindTagOnList | kernel/core/rtw_br_ext.c:83-98 | In a frame with complete tags and any rest it finds the first complete tag of the kind, or nothing if there is neither such a tag nor a rest |
| Pppoe.DecodePrefix | kernel/core/rtw_br_ext.c:88-96 | All tag bytes are complete tags followed by less than one tag |
| Pppoe.WholeTagsAreFindable | kernel/core/rtw_br_ext.c:83-98 | The search for the Relay-Session-Id is inside the frame and stops at no incomplete tag whenever the list is complete or a complete one comes before its end |
| Pppoe.Skb.AddTag | kernel/core/rtw_br_ext.c:101-118 | As many bytes as the host reads from the tag's length field, and four, go in front of the tags and are counted, unless the buffer has no room |
| Pppoe.AddedIffLengthRight | kernel/core/rtw_br_ext.c:106 | They are the tag exactly when the host is big-endian or the two bytes of the length are equal |
| Pppoe.LittleEndianOverruns | kernel/core/rtw_br_ext.c:1132-1165 | On a little-endian host the relay tag is taken to be longer than the buffer it is built in, whatever the old tag |
| Pppoe.Skb.PullAndMerge | kernel/core/rtw_br_ext.c:120-139 | The bytes are taken out and what follows moves up |
| Pppoe.Skb.InsertRelay | kernel/core/rtw_br_ext.c:1127-1167 | Tagging a request: too long a Relay-Session-Id leaves the frame alone, a full buffer leaves it without its old one, and otherwise the tags are `Tagged`; on a little-endian host it fails unless it reads beyond its buffer |
| Pppoe.Skb.LookupRelay | kernel/core/rtw_br_ext.c:1198-1242 | Stripping an answer, with any incomplete end behind its tags, succeeds exactly when the first Relay-Session-Id holds the magic code and a client, whose MAC becomes the destination |
| Pppoe.EchoRecovers | kernel/core/rtw_br_ext.c:1198-1242 | Whatever else an answer carries before and after the echoed tag, stripping gives back the client and its own Relay-Session-Id |
| Pppoe.EchoedMeans | kernel/core/rtw_br_ext.c:1198-1225 | Exactly those answers are taken whose first Relay-Session-Id begins with the magic code 0x8186 and six bytes of a client |
| Pppoe.TaggedNew | kernel/core/rtw_br_ext.c:1127-1165 | A request without a Relay-Session-Id gets one of magic code and client in front |
| Pppoe.TaggedOld | kernel/core/rtw_br_ext.c:1127-1165 | With one, it becomes the end of the new tag in front, which is refused exactly when it has more than 28 bytes |
| Pppoe.FullMeans | kernel/core/rtw_br_ext.c:101-118 | On a big-endian host the buffer is too small exactly when it lacks the twelve bytes the frame grows by, or eight with an old Relay-Session-Id |
| Pppoe.RoundTrip | kernel/core/rtw_br_ext.c:1127-1242 | Tagging and then stripping recovers the client and puts its Relay-Session-Id, if not empty, in front |
| Pppoe.RoundTripIdentity | kernel/core/rtw_br_ext.c:1127-1242 | The round trip is the identity exactly when there was no Relay-Session-Id, or a non-empty one in front |
| Dhcp.Fold | kernel/core/rtw_br_ext.c:1544-1545 | The carry loop terminates with the one's-complement value of the sum |
| Dhcp.FlagBcast | kernel/core/rtw_br_ext.c:1515-1553 | Exactly the DHCP requests without the broadcast flag get it, with the checksum replaced; every other frame is left alone; only the fields that are read have to be there |
| Dhcp.TargetsMean | kernel/core/rtw_br_ext.c:1518-1536 | Which frames are changed, by their bytes: IPv4, UDP from port 68 to port 67, the magic cookie after 236 bytes of BOOTP, and the first flag bit clear |
| Dhcp.BroadcastMeans | kernel/core/rtw_br_ext.c:1538-1550 | Such a frame gets the first flag bit, and nothing else of it changes but the checksum |
| Dhcp.UpdateIsRecomputation | kernel/core/rtw_br_ext.c:1540-1546 | Whatever checksum was there, the new one is right exactly when the old one would have been with zero flags |
| Dhcp.RightStaysRight | kernel/core/rtw_br_ext.c:1540-1546 | A right checksum stays right exactly when the flags were zero |
| Dhcp.NewCheckIsZero | kernel/core/rtw_br_ext.c:1542-1546 | The new checksum reads as none exactly when the old one was the new flags word, or there was none and all flags are set |
| Dhcp.AcceptedAfter | kernel/core/rtw_br_ext.c:1540-1546 | When a receiver accepts the datagram after the update, as a condition on the datagram before it |
| Dhcp.FrameStaysValid | kernel/core/rtw_br_ext.c:1515-1553 | The two conditions for a right checksum, for the frame, over pseudo header and datagram of any length |
| Dhcp.FrameAccepted | kernel/core/rtw_br_ext.c:1515-1553 | When a receiver accepts the frame, in the same terms |
| Dhcp.BareRequestRejected | kernel/core/rtw_br_ext.c:1515-1553 | A request without a checksum that a receiver accepts and, after the update, rejects |
| Dhcp.ValidEitherWay | kernel/core/rtw_br_ext.c:1542-1546 | Whether the checksum is right does not depend on the byte order of the host |
| IeEdit.SetIe | kernel/core/rtw_ieee80211.c:189-208 | The element is written at the position, with ID and length cut to a byte, and nothing else changes |
| IeEdit.SetIeExtends | kernel/core/rtw_ieee80211.c:189-208 | Adding an element after a list of elements gives the longer list |
| IeEdit.GetIe | kernel/core/rtw_ieee80211.c:266-290 | The search answers what a scan of the bytes finds, on every buffer on which its reads stay inside the limit; the length variable is untouched when there is nothing to search |
| IeEdit.FindIeOnList | kernel/core/rtw_ieee80211.c:266-290 | On elements followed by a part cut short it finds the first element with the ID, else the part cut short if that has it; its reads stay inside exactly when it does not get to a single byte |
| IeEdit.GetIeEx | kernel/core/rtw_ieee80211.c:304-340 | The search by ID and OUI answers what a scan of the bytes finds, on every buffer on which its reads stay inside |
| IeEdit.FindExOnList | kernel/core/rtw_ieee80211.c:304-340 | On a list it finds the first element whose header is followed by the OUI, and its reads stay inside exactly when the comparisons up to there do |
| IeEdit.RemoveIe | kernel/core/rtw_ieee80211.c:353-381 | Every hit from the offset on is cut out in place, the length updated, and every other byte stays, on every buffer on which the reads stay inside and no hit is cut short |
| IeEdit.KeptOnList | kernel/core/rtw_ieee80211.c:353-381 | On a list what stays are the elements that are not hit, and the reads stay inside exactly when all comparisons do |
| IeEdit.RemovalIsFilter | kernel/core/rtw_ieee80211.c:353-381 | Removal is the filter of the matching elements exactly when no element too short for the OUI is completed by its successors |
| IeEdit.StrayExample | kernel/core/rtw_ieee80211.c:353-381 | An element that does not match but is removed |
| IeEdit.FullOui | kernel/core/rtw_ieee80211.c:353-381 | With whole OUIs removal is always that filter |
| IeParse.ParseElems | kernel/core/rtw_ieee80211.c:1119-1256 | Parsing fails exactly when the buffer is not a list of complete elements; what is recorded is the last element of every kind |
| IeParse.KindsMean | kernel/core/rtw_ieee80211.c:1013-1100 | Which element is recorded as what, each kind by its ID, vendor elements by their OUI, type and subtype |
| IeParse.ReportedIsLast | kernel/core/rtw_ieee80211.c:1139-1245 | A recorded slice lies in the buffer and is the payload of the last element of its kind |
| IeParse.DecodePrefix | kernel/core/rtw_ieee80211.c:1130-1147 | The elements recorded before a failure are a prefix of the buffer, followed by less than one element |
| IeParse.DecodeSer | kernel/core/rtw_ieee80211.c:1119-1256 | A list of elements built one by one is parsed back as it was |
| P2p.GetP2pIe | kernel/core/rtw_ieee80211.c:1808-1851 | The search for a P2P element answers what a scan of the bytes finds and never looks beyond them, whatever they are |
| P2p.FindP2pOnList | kernel/core/rtw_ieee80211.c:1808-1851 | On a list it finds the first element whose header is followed by the OUI, if that starts within the first 768 bytes |
| P2p.GetP2pAttr | kernel/core/rtw_ieee80211.c:1863-1908 | The first attribute with the ID that the search meets, on every element on which it ends |
| P2pAttr.SearchEnds | kernel/core/rtw_ieee80211.c:1880-1904 | The search ends exactly when it meets no attribute with another ID whose 16-bit length sum is zero |
| P2pAttr.StallExample | kernel/core/rtw_ieee80211.c:1880-1904 | Three bytes on which the search for one ID stays at the first for ever, and for another ends |
| P2pAttr.MisreadExample | kernel/core/rtw_ieee80211.c:1880-1904 | Four bytes on which the length sum wraps and the search ends all the same |
| P2p.DelP2pAttr | kernel/core/rtw_ieee80211.c:2001-2041 | The bytes that repeated search and deletion leave, with the length byte right and the room zeroed, on every element on which all the searches end |
| P2p.BssEx.DelAttr | kernel/core/rtw_ieee80211.c:2060-2116 | Every P2P element is edited so, all other bytes stay in order, `IELength` is the new length and the room is zeroed, whenever all the searches end |
| P2p.StripAllMeans | kernel/core/rtw_ieee80211.c:2060-2116 | Element by element: one that is not a vendor element with the P2P OUI and type stays as it is, one that is keeps exactly the attributes with another ID |
| P2pAttr.DeletionIsFilter | kernel/core/rtw_ieee80211.c:2001-2041 | Deletion leaves exactly the attributes with another ID and the incomplete end if and only if nothing is cut from the first length on that does not fit 16 bits |
| P2pAttr.CutExample | kernel/core/rtw_ieee80211.c:2001-2041 | Three bytes, an attribute that is not all there, from which deletion takes the first |
| P2pAttr.ListsAreFiltered | kernel/core/rtw_ieee80211.c:2001-2041 | On a list of attributes deletion always ends and is the filter by ID |
| P2pAttr.DeletedTwice | kernel/core/rtw_ieee80211.c:2001-2041 | After a deletion that ends, the search ends and finds nothing to delete |
| P2p.StripElemIsFilter | kernel/core/rtw_ieee80211.c:2001-2041 | A P2P element that holds a list of attributes keeps exactly those with another ID |
| P2p.StripElemExact | kernel/core/rtw_ieee80211.c:2001-2041 | The same equivalence for any P2P element, whatever its attributes claim |
| Chbw.Sync | kernel/core/rtw_ieee80211.c:1658-1706 | The request is adjusted to the group and the group widened to the request |
| Chbw.Merge | kernel/core/rtw_ieee80211.c:1628-1706 | After any number of requests all are on the channel of the group, no wider than it, with its offset if wide, and grouped with each other |
| Chbw.OffsetsPair | kernel/core/rtw_wlan_util.c:510-555 | On 5 GHz the upper channel of a pair is four above the lower one, and the lower ones are every second of three runs; on 2.4 GHz the lower four channels pair upwards |
| Chbw.WidthKept | kernel/core/rtw_ieee80211.c:1658-1706 | A request keeps its width, but at most 40 MHz on 2.4 GHz and 20 MHz on a channel without an offset, and takes the offset of a wide group, else that of the channel; a narrower group becomes the request |
| Chbw.GroupOnlyWidens | kernel/core/rtw_ieee80211.c:1658-1706 | The group keeps its channel, never narrows, and keeps its offset once it is 40 MHz or wider |
| Chbw.GroupedWithFinal | kernel/core/rtw_ieee80211.c:1628-1706 | Every adjusted request is grouped with the final group and no wider than it |
| Chbw.GroupedPairwise | kernel/core/rtw_ieee80211.c:1628-1706 | Any two adjusted requests are grouped |
| Chbw.WidthIsReached | kernel/core/rtw_ieee80211.c:1701-1704 | A widened group has the width and offset of one of its requests |
| Beamforming.Scheduler.ResetVars | kernel/core/rtw_beamforming.c:593-616 | The lists are emptied and the used entries marked as not sounded |
| Beamforming.Scheduler.GetList | kernel/core/rtw_beamforming.c:625-710 | The lists hold the first due single-user and multi-user beamformees, as many as fit, and every counter is counted down or restarted |
| Beamforming.ListsMean | kernel/core/rtw_beamforming.c:625-710 | An entry that is due is on its list unless two, for the multi-user round six, earlier ones are, and the lists are in ascending order |
| Beamforming.DueOnceInItsPeriod | kernel/core/rtw_beamforming.c:640-690 | A beamformee that is always listed when due is due again after its sounding period over the least one, or in the next period, and not before |
| Beamforming.Scheduler.Handler | kernel/core/rtw_beamforming.c:712-859 | From a state that waits for it the handler starts the first beamformee not yet started, else the multi-user round, else ends the period, and comes to rest with the timer set; the recursion terminates and never needs memory |
| Beamforming.NextMeans | kernel/core/rtw_beamforming.c:784-857 | What comes next is the first listed beamformee not yet sounded, when there is none the multi-user round if it is still to come, else the end |
| Beamforming.Scheduler.SoundingDown | kernel/core/rtw_beamforming.c:1498-1557 | From a sounding under way the period always goes on: the early return for a timed-out entry is never taken; at most one command is queued, the leave of a beamformee that has failed too often |
| Beamforming.Scheduler.LeaveEntry | kernel/core/rtw_beamforming.c:1460-1495 | A beamformee that leaves goes from the entries, and with the last one the lists are cleared and the scheduler stops; the order of soundings is kept |
| Beamforming.Scheduler.UpdateMinPeriod | kernel/core/rtw_beamforming.c:548-572 | The shortest sounding period of the used entries, or zero |
| Beamforming.Scheduler.Judge | kernel/core/rtw_beamforming.c:1534-1551 | A success resets the failure count; a failure completes a pending deletion, or else is counted modulo 32, and a leave command is sent exactly when the count becomes 31 |
| Beamforming.Scheduler.CountIsFailures | kernel/core/rtw_beamforming.c:1534-1551 | An entry's failure count is the number of its failed soundings without a pending deletion since its last success, modulo 32 |
| Beamforming.FailuresSinceSuccess | kernel/core/rtw_beamforming.c:1534-1551 | The failures counted by the record of outcomes are those after the last success |
| Beamforming.Scheduler.BfCmd | kernel/core/rtw_beamforming.c:1847-1900 | A command runs at once or goes to the end of the queue, unless memory runs out |
| Beamforming.Scheduler.ForceStop | kernel/core/rtw_beamforming.c:861-881 | A forced stop ends the sounding under way, or the period |
| Beamforming.Scheduler.SoundingTimer | kernel/core/rtw_beamforming.c:883-925 | The period timer starts a period when none is running, and stops one that takes too long |
| Beamforming.Scheduler.TimeoutTimer | kernel/core/rtw_beamforming.c:927-957 | A timeout moves a sounding under way to the timeout state and queues its continuation |
| Beamforming.Scheduler.Report | kernel/core/rtw_beamforming.c:1559-1572 | A report of the hardware stops the timer and queues the end of the sounding |
| Beamforming.Scheduler.RunCmd | kernel/core/rtw_beamforming.c:1812-1845 | Whatever command is taken next, a leave included, the order of soundings is kept, the scheduler comes to rest, and at most one command is queued; at the end of a sounding the failure count is 0 after a success and one more modulo 32 after a failure, and a leave is queued exactly when that makes 31 |
| Beamforming.Run | kernel/core/rtw_beamforming.c:593-957 | Any run of timers, reports and commands, any of which may fail to allocate the one command it queues at most, keeps the order of soundings, and the failure counts what the outcomes make them |
| SoundingLog.AtMostOnce | kernel/core/rtw_beamforming.c:784-806 | Within a period no beamformee is started twice and there is one multi-user round at most |
| SoundingLog.MuAfterAllSu | kernel/core/rtw_beamforming.c:784-850 | The multi-user round comes after every listed single-user sounding, and none follows it |
| SoundingLog.SuIsListed | kernel/core/rtw_beamforming.c:784-806 | Only listed beamformees are sounded |
| SoundingLog.DoneAfterAll | kernel/core/rtw_beamforming.c:852-857 | A period that is over has sounded every listed beamformee |
| ApBss.Ap.HtOperationUpdate | kernel/core/rtw_ap.c:3033-3102 | The HT operation word becomes the stated function of the counters, and changes are reported exactly when it changed |
| ApBss.Ap.UpdateErp | kernel/core/rtw_ap.c:2626-2658 | The protection bits are set exactly when there is one non-ERP station, the preamble bit when there is one without short preamble, and the other bits stay |
| ApBss.Ap.Join | kernel/core/rtw_ap.c:3136-3308 | A join or rejoin adds to the station's history, and keeps counters, flags, HT word and ERP bits what the histories make them |
| ApBss.Ap.Leave | kernel/core/rtw_ap.c:3310-3385 | So does a departure, which clears the station's flags and ends its history |
| ApBss.Run | kernel/core/rtw_ap.c:3136-3385 | After any run of joins, rejoins and departures the histories and the preamble bit are a function of the events, and the access point is what they make it |
| ApBss.FlagsAfterJoins | kernel/core/rtw_ap.c:3156-3290 | Four of a station's flags say what its last join said, the two HT flags what any of its joins said |
| ApBss.Ap.CountersAreNumbers | kernel/core/rtw_ap.c:3156-3290 | The counters for short preamble, ERP, short slot time and HT are the sizes of the sets of associated stations without the capability |
| ApBss.Ap.HtCountersAreBounds | kernel/core/rtw_ap.c:3250-3277 | The counters for greenfield and 40 MHz are at least those numbers, and equal them exactly when no associated station lacked the capability in an earlier join and has it now |
| ApBss.RejoinExample | kernel/core/rtw_ap.c:3244-3277 | A run after which the only station supports greenfield and the access point counts and announces one that does not |
| ApBss.Ap.ProtectionIffNonErp | kernel/core/rtw_ap.c:2643-2646 | The two bits are set exactly when some associated station is non-ERP, although the update tests for one |
| ApBss.Ap.HtWordMeans | kernel/core/rtw_ap.c:3033-3102 | Mode 3 exactly when some associated station has no HT; else mode 2 exactly when the access point supports 40 MHz and some associated station has said in some join that it has HT without; else mode 1 exactly with overlapping legacy stations, else 0; and the two bits for stations without greenfield and without HT |
| ApBss.BarkerIsOld | kernel/core/rtw_ap.c:2650-2653 | The preamble bit says whether a station without short preamble was associated when the first non-ERP station came or the last one went, whatever happened since |
| ApBss.BarkerExample | kernel/core/rtw_ap.c:3156-3176 | A station without short preamble that is counted and leaves the bit clear |
| ApBss.CountPositive | kernel/core/rtw_ap.c:3136-3385 | A counter is positive exactly when some station is counted |
| ApAcl.Acl.Init | kernel/core/rtw_ap.c:2165-2182 | Whatever was there before, the list is empty |
| ApAcl.Acl.Deinit | kernel/core/rtw_ap.c:2184-2210 | Every entry goes and the count is zero |
| ApAcl.Acl.SetMode | kernel/core/rtw_ap.c:2212-2223 | Disabling the list empties it |
| ApAcl.Acl.Add | kernel/core/rtw_ap.c:2225-2287 | The address is appended unless it is there; the call fails exactly when it is not and every slot is taken |
| ApAcl.Acl.FreeSlot | kernel/core/rtw_ap.c:2256-2273 | Below the limit the search for a free slot succeeds |
| ApAcl.Acl.Remove | kernel/core/rtw_ap.c:2289-2328 | The address goes, or every one for the broadcast address, the rest keeping their order |
| ApAcl.KeepMembers | kernel/core/rtw_ap.c:2289-2328 | After a removal the list holds exactly the other addresses |
| SipHash.SipHash24 | userspace/csiphash.c:77-115 | The word loop and the fall-through tail compute SipHash-2-4 of the bytes, for every message length |
| SipHash.DoubleRound | userspace/csiphash.c:70-74 | A double round is two SipRounds |
| SipHash.LoadTail | userspace/csiphash.c:97-106 | The fall-through switch loads the remaining bytes into a word of zeroes |
| SipHash.HalfRoundInvertible | userspace/csiphash.c:64-68 | Every half round can be undone, and every state results from one |
| Words.AddValue | userspace/csiphash.c:65 | Addition of words is addition modulo two to the 64 |
| Words.RotateIsRotl | userspace/csiphash.c:62 | Two shifts and an or are a rotation |
| Words.LastWord | userspace/csiphash.c:81-107 | The length shifted to the top byte enters the last word modulo 256 |

## Left out

- uthash: the concrete hash functions, `HASH_REPLACE_INORDER`, `HASH_SELECT`, `HASH_CLEAR`, `HASH_ITER`, key emission and the offset between an item and its handle; the fatal out-of-memory configuration.
- uthash: an item's key and hash value are fixed; adding a deleted item under another key is adding another item. Counters and `insize` do not wrap around.
- UtHashFsck.Check: supposes that the forward links make lists, because otherwise the macro's walks need not end.
- NAT2.5: frame parsing for IPv4, ARP, IPv6, IPX and AppleTalk, the session phase of PPPoE and the single-connection mode without relay tags, which only choose which address to insert or look up; wrap-around of `jiffies`.
- PPPoE: frame buffers of 64 KiB and more.
- Pppoe.Skb.FindTag: frames on which the search leaves the buffer, where its answer depends on what lies behind.
- Pppoe.Skb.InsertRelay: on a little-endian host, frames with room for what the code takes the tag to be; there it copies bytes from behind `tag_buf`.
- Pppoe.Skb.LookupRelay: answers whose Relay-Session-Id is itself cut short by the PPPoE length.
- Dhcp.FlagBcast: frames that end before a field that is read, for the same reason.
- IeEdit.GetIe: buffers on which a header is read behind the limit, for the same reason.
- IeEdit.GetIeEx: buffers on which a header or the OUI is read behind the length, for the same reason; the copy of the element found.
- IeEdit.RemoveIe: the same buffers, and those where an element to be removed is cut short, so that the length of the rest is negative.
- P2p.GetP2pAttr: elements on which the search does not end, of which there is no result to state; likewise for P2p.DelP2pAttr and P2p.BssEx.DelAttr.
- P2P: `rtw_del_p2p_ie`, the WFD and WPS counterparts and the dump functions, which have the same shape.
- Beamforming: entering of beamformees, beamformers, construction of NDPA frames and register writes; what the rest of the driver does to an entry's flags is `Adjust`.
- Beamforming.Scheduler.LeaveEntry: the numbers of beamformees are those of the used entries, the hardware layer for this version of beamforming, which is not part of this model, releases the entry at once, and the work-around's changes of `bSuspendSUCap` are `Adjust`.
- Beamforming.Scheduler.ForceStop: `sounding_running` may become negative, as in the source; nothing is claimed of it.
- SoftAP: `num_sta_40mhz_intolerant`, the reset of `num_sta_no_ht` after a scan, the TIM bitmap, and when a beacon is sent. `olbc_ht` is fixed.
- ApAcl.Acl.Add: the kernel's list is a sequence of pool slots; its pointers are not modelled.
- SipHash: big-endian hosts, where the program loads words through `le64toh`.
- Netlink, threads, timers' hardware, locks and interrupt levels: every critical section is one atomic step.
- `kernel/core/dack.c`, `queue.c`, `clean.c`, EEPROM access, Bluetooth coexistence, debug files and ioctl queries.
