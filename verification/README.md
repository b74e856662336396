# Doopey: a verified model of a small distributed file store

Doopey keeps files in blocks on a few machines. Every machine has the whole file tree, a routing table, a directory
of the blocks it knows replicas of, and a store of block files. Clients upload, list, fetch and remove files.

This project models the parts of Doopey that have real state and proves what they are for. Classes model the objects
that change in place (the file tree over its hash table, routers, replica lists, resolvers, meta blocks, messages and
sockets, the uploader, the process timer); their methods are proved against functions on values, and the lemmas are
about those functions. Protocols between machines or threads are state machines over their atomic steps, and their
results hold for every run.

`dafny verify dfyconfig.toml` checks everything.

## What is where

| file | what it models |
|---|---|
| `HashList.dfy` | the chained hash table, as a list of bindings in which the first one of a key wins |
| `Namespace.dfy`, `FileTree.dfy`, `Walk.dfy` | the file table as a value; the heap tree with its hash index that refines it; looking up against walking |
| `Snapshot.dfy`, `ServerSnapshot.dfy` | the text dump of the tree, its replay, and the snapshot file around it |
| `Wire.dfy`, `Message.dfy`, `Socket.dfy`, `Updater.dfy` | words, messages, frames under partial transfers, replica lists on the wire |
| `Router.dfy`, `Cluster.dfy` | one router and its table codec; a cluster under serial joins with updates in flight |
| `LocationAttr.dfy`, `Resolver.dfy`, `Picks.dfy`, `Directory.dfy` | replica lists, one node's block directory, the choice of repair targets, and the directory of a whole cluster |
| `BlockId.dfy` | block IDs, file names, the directory scan and the IDs drawn after it |
| `MetaBlock.dfy`, `Transfer.dfy`, `Upload.dfy` | the meta block's bytes, chunking and the concurrent download, the upload loop; from put to get |
| `TaskThread.dfy`, `Alarm.dfy` | the task hand-off in every interleaving, and the shared process timer |
| `Removal.dfy` | adding to and removing from the file tree as it is written: parent links, siblings and buckets together |
| `Departures.dfy` | the other code that does not do what it is for, as it is written, with the exact condition under which it does |
| `Sequences.dfy` | sequences without repetition |

## Where the code departs from its purpose

In these places the code does not do what it is for. Where the main model repairs it, the code as it stands is modelled
beside it; elsewhere the main model is the code as it stands. Each lemma named here gives the exact condition under
which the code is right, and a concrete failing case stands beside it where the condition does not show one.

- `HashList::remove` never moves along the bucket and reads an empty bucket's first item (include/file/HashList.tpp:56-72): `StuckWalk.RemoveReturnsIff`, `StuckWalk.ThirdItemStays`. The model steps along.
- `addFile` sets the parent link of a first child only (src/file/FileTree.cpp:117-128), and `removeNode` reads every child's (src/file/FileTree.cpp:150): `OrphanKids.RemovalWorksIff`, `OrphanKids.SecondFileCrashes`, `OrphanKids.NeverEmptied`. The model sets every parent link.
- `removeDir` steps to its own next sibling (src/file/FileTree.cpp:197). `WrongSibling.RemoveDirIff` takes the three departures of a removal together, that of the table, the links and the siblings: `WrongSibling.SecondCrashes`, `WrongSibling.RemovalSpins`, `WrongSibling.RootStays`. The main model steps to the first child that is left.
- `broadcast` steps from a row that `sendTo` has erased (src/network/Router.cpp:329-332, 345): `LostIterator.BroadcastIff`, `LostIterator.OneDown`. The main model steps over a copy of the keys.
- `removeMachine` starts past the last machine, and its test is always true (src/block/BlockLocationAttr.cpp:25): it fails for every input, `EndlessLoop.RemoveFaults`, `EndlessLoop.AnyStartFaults`. The main model starts on the last machine and ends on the first.
- The delete handlers copy sizeof(Block) bytes out of an 8-byte message into an 8-byte variable (src/block/BlockManager.cpp:234, 244, 256): they fail for every message, `WideCopies.WideFaults`, and would be right for a width of 8 alone, `WideCopies.DeletesIff`. The main model copies 8; `UploadSpec.DisconnectRestores` and `UploadSpec.AbortRestoresIff` rest on that.
- The length loops of a socket ask for 8 bytes again after a partial transfer (src/common/Socket.cpp:149, 186): `LengthLoops.SendFramesIff`, `LengthLoops.ReceiveFramesIff`, `LengthLoops.HalfAndFull`. The main model asks for what is missing.
- A worker thread announces itself before it takes its lock, and is free before it clears its arguments (src/common/TaskThread.cpp:35-36, 53-56): `TaskThreads.KeptIff` and `TaskThreads.CalmIff` cover all four orders, `TaskThreads.WrittenLoses` is about the code's own, and `TaskThreads.CalmKept` says in which runs it is right.
- The timer is set from a second reading of the clock (src/common/Doopey.cpp:71, 75): `AlarmSpec.TimerIff`, modelled as written.
- `receiveBlock` reports success before it starts (src/machine/Client.cpp:417): `Downloads.TrustedIff` covers both orders and every file, and `Downloads.FirstBreaksWord` has the failing run of every file that is not empty; `Downloads.FirstLeavesNothing` has one that leaves nothing, for files of at most four blocks.
- A meta block described twice keeps the old size pointer and the old count (src/block/MetaBlock.cpp:39-45): `MetaLayout.RenameHoldsIff` says so of the layout, `MetaLayout.RenameReadsIff` of the object's own getters and `MetaLayout.RenameReopensIff` of a reader of the bytes; `MetaLayout.ShorterName` is a failing case. Modelled as written.
- A meta block with an empty name cannot be read again (src/block/MetaBlock.cpp:11-16): `MetaLayout.CodecRoundTrip`, `MetaLayout.EmptyNameLost`, modelled as written.
- Uploads that end in an error keep their blocks, and so do uploads that are described again (src/file/FileUploader.cpp:56-60, 74-87): `UploadSpec.AbortRestoresIff`, `UploadSpec.TwiceDescribed`, modelled as written.
- After a restart an ID may be issued again if its block had been deleted (src/block/BlockResolver.cpp:104-112): `BlockIDs.NewIsUnissuedIff`, modelled as written.
- A path such as `//a` is filed under a name that its place in the tree does not have (src/file/FileTree.cpp:95-99): `Walks.IndexIsWalk`, `ServerSnapshots.DumpLoadsIff`, modelled as written.
- A joiner that is not answered, or only by machines to which earlier announcements are still on their way, takes an ID that is in use, or has an incomplete table (src/network/Router.cpp:147-250): `Clusters.JoinFreshIff`, `Clusters.JoinCompleteIff`, `Clusters.ThirdRepeats`, `Clusters.SecondRepeats`, modelled as written.

## Model

| member | source | states |
|---|---|---|
| `Association.BucketLookup` | include/file/HashList.tpp:75-88 | Looking a key up in its own bucket finds what the first-binding-wins list of all bindings has for it, for any hash function and any positive table size |
| `Association.BucketDrop` | include/file/HashList.tpp:51-73 | Dropping a key from the list is dropping it from its own bucket and changes no other bucket |
| `Association.LookupAppend` | include/file/HashList.tpp:26-49 | A binding added later is seen only where no earlier one of the same key is live |
| `Association.LookupDropOther` | include/file/HashList.tpp:51-73 | Removing one key leaves what every other key is bound to |
| `Association.DropDistinct` | include/file/HashList.tpp:51-73 | With distinct keys, a removed key is unbound and no binding appears |
| `HashLists.ScanStopsAt` | include/file/HashList.tpp:75-88 | Where the scan of one chain stops decides the lookup in the whole table |
| `HashLists.FiledAfterAdd` | include/file/HashList.tpp:26-49 | Linking at the end of the chain files one more binding, the newest, and every bucket still holds exactly its own |
| `HashLists.FiledAfterRemove` | include/file/HashList.tpp:51-73 | Unlinking where the scan stopped drops the earliest live binding of the key and no other |
| `HashLists.HashList.GetValue` | include/file/HashList.tpp:75-88 | Returns the earliest live binding, or the default value when there is none |
| `HashLists.HashList.Add` | include/file/HashList.tpp:26-49 | The live bindings gain the new one at their end; the chains stay linked, disjoint and in their buckets |
| `HashLists.HashList.Remove` | include/file/HashList.tpp:51-73 | With the walk repaired: terminates, answers whether the key was bound, and drops exactly its earliest binding |
| `HashLists.LinkLast` | include/file/HashList.tpp:36-47 | Walks a chain to its end and links the item there |
| `HashLists.FindFirst` | include/file/HashList.tpp:56-72 | Scans a chain for the first item of the key, and has the one before it |
| `HashLists.UnlinkFirst` | include/file/HashList.tpp:56-72 | Finds the first item of the key in a chain and cuts exactly that one out |
| `StuckWalk.RemoveReturnsIff` | include/file/HashList.tpp:51-73 | As written: returns exactly when the bucket is not empty and the key is first or second in it or the bucket has one item; and is right whenever it returns |
| `StuckWalk.ThirdItemStays` | include/file/HashList.tpp:63-72 | As written: removing the third of three items never returns, and an empty bucket is read through a null pointer |
| `Paths.JoinSplit` | src/file/FileTree.cpp:89-99 | Cutting a path at its last slash and joining the two parts gives the path back exactly when it is not a doubled root such as //a |
| `Namespaces.AddWf` | src/file/FileTree.cpp:79-134 | Adding keeps every path hung from its directory, once |
| `Namespaces.PruneWf` | src/file/FileTree.cpp:176-203 | So does deleting a subtree |
| `Namespaces.DetachIsPrune` | src/file/FileTree.cpp:141-174 | Unlinking a childless path deletes all that is below it |
| `Namespaces.PruneChildFirst` | src/file/FileTree.cpp:190-200 | Deleting a child first changes nothing about deleting its directory |
| `Namespaces.StepWf` | src/file/FileTree.cpp:79-203 | All four operations keep the file table well formed |
| `Walks.StepEffect` | src/file/FileTree.cpp:79-203 | What each operation does to each path: binds it to its ID, which is 0 for a directory, deletes it and everything below it, or leaves it |
| `Walks.StepKeepsOrder` | src/file/FileTree.cpp:118-128 | Children that a call leaves alone keep their order in their directory, and a new one comes behind all others |
| `Walks.AddThenRemove` | src/file/FileTree.cpp:79-203 | Adding a fresh path and removing it gives the table back, order and all |
| `Walks.WalkAgrees` | src/file/FileTree.cpp:59-72 | Walking components from the root by child names reaches exactly the path that joins them |
| `Walks.IndexIsWalk` | src/file/FileTree.cpp:74-77 | In a well-formed table no path is a doubled root if and only if the index and the walk agree both ways: every indexed path is reached by walking its components, and every walk ends at the path its components make where the index has that path, and nowhere otherwise |
| `Walks.DoubledRootSplitsThem` | src/file/FileTree.cpp:95-99 | Adding //a: the walk for /a answers //a, and the index has no /a |
| `FileTrees.LinkChild` | src/file/FileTree.cpp:118-128 | Appends a node behind the last sibling and sets all its links |
| `FileTrees.UnlinkChild` | src/file/FileTree.cpp:146-151 | Cuts a node out of its sibling list and keeps the rest linked both ways |
| `FileTrees.FileTree.constructor` | src/file/FileTree.cpp:39-45 | A fresh table is the root alone, in tree and index |
| `FileTrees.FileTree.SearchDir` | src/file/FileTree.cpp:74-77 | The node that the index has for a path, in step with the tree |
| `FileTrees.FileTree.AddFile` | src/file/FileTree.cpp:79-134 | Answers and acts as the namespace says; heap tree, sibling and parent links and hash index stay in step |
| `FileTrees.FileTree.AddDir` | src/file/FileTree.cpp:136-139 | The same for a directory |
| `FileTrees.FileTree.RemoveNode` | src/file/FileTree.cpp:141-155 | Unlinks a childless node from tree and siblings, and nothing else |
| `FileTrees.FileTree.RemoveFile` | src/file/FileTree.cpp:157-174 | Removes exactly one file from tree and index |
| `FileTrees.FileTree.RemoveDir` | src/file/FileTree.cpp:176-203 | With the step repaired: terminates, and tree and index lose exactly the path and everything below it, in whatever order files below were added |
| `FileTrees.FileTree.RemoveKids` | src/file/FileTree.cpp:190-200 | The loop over the children of a directory that is already out of the index |
| `FileTrees.FileTree.Apply` | src/file/FileTree.cpp:79-203 | Any call on the heap structure is the corresponding step of the namespace |
| `FileTrees.FileTree.ReadsWellFormed` | src/file/FileTree.cpp:79-203 | A valid heap structure reads as a well-formed namespace |
| `FileTrees.FileTree.GetMetaID` | src/file/FileTree.cpp:205-211 | The ID bound to a path, 0 for a directory and for none |
| `FileTrees.FileTree.GetChildren` | src/file/FileTree.cpp:213-230 | The names of the children, the newest first, those of directories with a slash behind |
| `FileTrees.FileTree.GetTotalTree` | src/file/FileTree.cpp:241-245 | The dump of the heap tree is the dump of the namespace |
| `FileTrees.FileTree.GetTotalNode` | src/file/FileTree.cpp:247-266 | One node and all below it, in preorder |
| `FileTrees.LoadSnapshot` | src/file/FileManager.cpp:332-358 | Replaying a dump acts as Load says on the namespace |
| `FileTrees.SaveAndLoad` | src/file/FileManager.cpp:326-358 | For a portable table, dumping one tree and loading the dump into a fresh one gives the same namespace, child order and all |
| `FileTrees.LoadFresh` | src/file/FileManager.cpp:332-358 | Loading any dump into a fresh tree is Load on the empty namespace |
| `OrphanKids.ParentedIff` | src/file/FileTree.cpp:117-128 | As written: a child has its parent link exactly when it is first and none was taken out since the directory was last empty |
| `OrphanKids.RemovalWorksIff` | src/file/FileTree.cpp:141-155 | As written: unlinking a child does not crash exactly then |
| `OrphanKids.SecondFileCrashes` | src/file/FileTree.cpp:117-155 | As written: with two files in a directory, removing the second crashes, and so does removing both in order |
| `OrphanKids.NeverEmptied` | src/file/FileTree.cpp:117-155 | As written: once a child has been taken out and another is left, that directory never becomes empty again |
| `WrongSibling.UnfiledIs` | include/file/HashList.tpp:51-73 | As written, the table's removal of a key that is bound ends exactly if the key is first or second in its bucket, and then exactly that binding is gone |
| `WrongSibling.SpinsForever` | src/file/FileTree.cpp:192-198 | As written: the loop of removeDir never ends in a directory that has a next sibling |
| `WrongSibling.RemovalSpins` | src/file/FileTree.cpp:192-198 | As written, with all links set: /a with one file in it and /b behind it; removing /a never ends |
| `WrongSibling.RemoveDirIff` | src/file/FileTree.cpp:136-203 | As written, parent links and the table's removal included: removeDir ends with exactly the directory and all below it gone from tree and table if and only if the directory has its parent link, its key is first or second in its bucket, and it is empty, or is the last of its siblings with one child that is a file of which the same holds, or again such a directory |
| `WrongSibling.RemovedFiled` | src/file/FileTree.cpp:176-203 | After such a removal tree and table are in step again |
| `WrongSibling.AddedFiled` | src/file/FileTree.cpp:79-134 | As written, adding keeps tree and table in step, whatever links it sets |
| `WrongSibling.SecondCrashes` | src/file/FileTree.cpp:117-155 | As written: add /a, add /b, remove the empty /b; that uses a link that nothing has set, wherever the keys hash to |
| `WrongSibling.RootStays` | src/file/FileTree.cpp:39-45 | As written: removing the root never ends, or uses a link that nothing has set |
| `Texts.ValueOfDecimal` | src/file/FileTree.cpp:253-255 | Printed numbers are read back |
| `Texts.StolOfDecimal` | src/file/FileManager.cpp:351 | stol reads a printed ID back exactly up to 2^63-1 and throws beyond |
| `Snapshots.PrintIsText` | src/file/FileTree.cpp:247-266 | The dump is its records, one line each, in preorder |
| `Snapshots.EntriesAreOrder` | src/file/FileTree.cpp:247-266 | Every path is printed once, under its own name, behind its directory |
| `Snapshots.OrderCovers` | src/file/FileTree.cpp:247-266 | And none is missed |
| `Snapshots.LoadOfText` | src/file/FileManager.cpp:341-356 | Reading lines is replaying their records |
| `Snapshots.ReplayRebuilds` | src/file/FileManager.cpp:332-358 | Replaying a table in print order on an empty one refuses nothing and rebuilds it with the same child order |
| `Snapshots.DumpLoads` | src/file/FileManager.cpp:326-358 | Load(Dump(t)) is t for every portable t |
| `ServerSnapshots.DumpLoadsIff` | src/file/FileManager.cpp:326-358 | Load(Dump(t)) is t exactly for portable t: no doubled root, no colon or newline in a path, IDs up to 2^63-1 |
| `ServerSnapshots.WordsOfDump` | src/machine/ServerSnapshot.cpp:30-35 | Reading the dump word by word keeps it when no path has white space |
| `ServerSnapshots.RestartKeeps` | src/machine/ServerSnapshot.cpp:24-50 | Save and load keep the machine ID always, and the table exactly when it is portable and no path has white space |
| `Bytes.LERoundTrip` | src/common/Message.cpp:42-63 | A number written as n little-endian bytes is read back modulo 256^n |
| `Messages.ParsedSerialized` | src/common/Message.cpp:11-63 | The deserialising constructor inverts serilize |
| `Messages.SerializedBytes` | src/common/Message.cpp:42-63 | The places of the fields: five words of four bytes, the lowest byte first, and the data behind them |
| `Messages.AddedWhere` | src/common/Message.cpp:30-40 | Where addData puts its bytes: appended at the end, in place inside, behind zeros beyond; all bytes before stay |
| `Messages.Message.Deserialize` | src/common/Message.cpp:11-25 | Reads the five header fields at a running offset, and the rest as data |
| `Messages.Message.AddData` | src/common/Message.cpp:38-40 | Appends |
| `Messages.Message.AddDataAt` | src/common/Message.cpp:30-36 | Writes at a position, growing the data if need be |
| `Messages.Message.Serilize` | src/common/Message.cpp:42-63 | Writes header and data into one buffer |
| `Sockets.UnframedFramed` | src/common/Socket.cpp:141-214 | The frame of a message at the front of any stream is read as that message, and the rest is left |
| `Sockets.FramedBytes` | src/common/Socket.cpp:141-176 | A frame is the size of what follows in eight bytes, the lowest first, and the message |
| `Sockets.Socket.Send` | src/common/Socket.cpp:141-176 | With the length loop repaired: for every schedule of partial writes the frame goes out, or a prefix of it when the connection fails |
| `Sockets.Socket.Receive` | src/common/Socket.cpp:178-214 | With the length loop repaired: for every schedule of partial reads the message at the front of the stream comes out |
| `Sockets.SendAll` | src/common/Socket.cpp:141-176 | k sends put k frames on the stream in order |
| `Sockets.ReceiveAll` | src/common/Socket.cpp:178-214 | k receives give the k messages in order and leave nothing |
| `LengthLoops.MovedIs` | src/common/Socket.cpp:148-156 | As written: 8 to 15 bytes move for a length, and 8 exactly when some of the partial transfers, from the first on, come to 8 together |
| `LengthLoops.SendFramesIff` | src/common/Socket.cpp:141-176 | As written: what send puts on the stream is read as the message, with nothing else in front of what follows, exactly then, whatever lies in memory behind the length |
| `LengthLoops.ReceiveFramesIff` | src/common/Socket.cpp:178-214 | As written: receive takes the message at the front of the stream, and leaves what follows it, exactly then |
| `LengthLoops.HalfAndFull` | src/common/Socket.cpp:148-156 | As written: four bytes and then eight put four stray bytes on the wire, and neither side has the message |
| `Payloads.UpdateRemoteBlockInfo` | src/block/BlockUpdater.cpp:17-25 | Writes the block ID and its machines at a running offset |
| `Payloads.ReadUpdate` | src/block/BlockResolver.cpp:389-399 | Reads ID and machines up to the end of the message |
| `Payloads.PayloadIff` | src/block/BlockUpdater.cpp:17-25 | A message reads as an ID and a list exactly when it is the message written for them |
| `Payloads.PayloadBytes` | src/block/BlockUpdater.cpp:17-25 | Eight bytes of ID, then four for each machine in the order of the list, the lowest byte first |
| `RouteTables.RowsOfTable` | src/network/Router.cpp:221-243 | The encoding of any table decodes to the same rows, stopping exactly at the end |
| `RouteTables.RowIs` | src/network/Router.cpp:434-449 | The places in a row: four bytes of ID, eight of length, the address, two of distance, the lowest byte first |
| `RouteTables.DecodeStep` | src/network/Router.cpp:223-243 | One turn of the decoding loop |
| `RouterSpec.MergeRows` | src/network/Router.cpp:221-243 | Merging distinct rows binds each but the own address at its distance plus one and leaves the rest |
| `Routers.Router.AddRoutingPath` | src/network/Router.cpp:355-365 | Sets one row, and a neighbor for distance 1 |
| `Routers.Router.InitTopology` | src/network/Router.cpp:41-83 | Every address of the list that answers becomes a neighbor at distance 1, in order |
| `Routers.Router.InitMachineID` | src/network/Router.cpp:85-190 | An ID from the snapshot is kept exactly when the machine is alone or the machine asked first allows it; the maximum then is that ID or the answered one, and below neither. Any other machine takes one more than the highest answer of the table, in 32 bits, and 1 without neighbors |
| `Routers.Router.AskMaxima` | src/network/Router.cpp:147-184 | The highest answer among the machines at other addresses |
| `Routers.Router.InitTable` | src/network/Router.cpp:192-250 | The first peer whose answer adds a row gives the table; the others add nothing |
| `Routers.Router.MergeRow` | src/network/Router.cpp:223-243 | One turn of the decoding loop: one row is read and, unless it is of the own address, set at its distance plus one |
| `Routers.Router.MergeAnswer` | src/network/Router.cpp:221-243 | The decoding loop adds exactly the rows of the answer |
| `Routers.Router.HandleUpdateMachineIDMax` | src/network/Router.cpp:415-432 | Raises the maximum and adds the sender as a neighbor |
| `Routers.Router.HandleRequestRoutingTable` | src/network/Router.cpp:434-455 | Answers with the bytes of all rows, each once |
| `Routers.Router.HandleCheckRepeatMachineID` | src/network/Router.cpp:457-484 | Whether a returning machine may keep its ID |
| `Routers.Router.SendTo` | src/network/Router.cpp:335-352 | A machine that cannot be reached leaves the table |
| `Routers.Router.Broadcast` | src/network/Router.cpp:327-333 | With the iteration repaired: every machine of the table that can be reached is sent to, and exactly the others leave the table |
| `LostIterator.BroadcastIff` | src/network/Router.cpp:327-352 | As written, in whatever order the map keeps its rows: broadcast ends, and has sent to every machine of the table, if and only if all their addresses are up; otherwise it steps from a row that sendTo has erased |
| `LostIterator.FaultsAt` | src/network/Router.cpp:327-352 | As written: all machines before the first unreachable one are sent to, that one leaves the table, and the others are sent nothing |
| `LostIterator.OneDown` | src/network/Router.cpp:327-352 | As written: one unreachable machine in front of another, which is up and is sent nothing |
| `Clusters.BootGood` | src/network/Router.cpp:139-146 | The empty cluster satisfies the invariant |
| `Clusters.FirstJoins` | src/network/Router.cpp:139-146 | The first machine joins the empty cluster with ID 1 |
| `Clusters.SecondJoins` | src/network/Router.cpp:54-264 | The second contacts the first, takes ID 2 and announces itself |
| `Clusters.WindowGood` | src/network/Router.cpp:415-432 | While messages arrive during a join, every state is good and has the same members with the same IDs |
| `Clusters.ContactedIsTopology` | src/network/Router.cpp:41-83 | The contacts of a join are what initTopology makes of a list |
| `Clusters.JoinGood` | src/network/Router.cpp:54-264 | A serial join keeps the invariant, with any number of earlier announcements still on their way and more arriving while it asks, if it hears from a peer that has seen the latest one, and of every member: IDs are the numbers from 1 on, tables are true, and who does not know a member has its announcement coming |
| `Clusters.SettledHeedsIff` | src/network/Router.cpp:54-264 | That is so, for a joiner to whose contacts nothing is on its way, exactly when some contact answers about the maximum and some with its table, or all members are contacts: what the answers say need not be assumed |
| `Clusters.SettledJoinRight` | src/network/Router.cpp:54-264 | Such a joiner gets the next number, which no member has, and a complete, true table, and leaves the cluster good |
| `Clusters.DeliverGood` | src/network/Router.cpp:415-432 | So does the arrival of one update, in any order |
| `Clusters.RunGood` | src/network/Router.cpp:54-264 | The invariant holds in every state of every run of heeded joins and of deliveries in any order |
| `Clusters.SettledRunGood` | src/network/Router.cpp:54-264 | And in every state of every run of deliveries and of joins of which only this is asked: nothing is on its way to the contacts as it starts, and after the first join some contact answers each question; so all IDs are distinct, and with nothing in flight all tables and maxima agree |
| `Clusters.Settles` | src/network/Router.cpp:415-432 | From every good state some deliveries lead to one with nothing in flight, with the same members |
| `Clusters.AnyoneJoins` | src/network/Router.cpp:54-264 | Any machine that reaches any one member of a quiet cluster can join it in this way |
| `Clusters.ClusterForms` | src/network/Router.cpp:54-264 | Machines at any distinct addresses form a cluster by such joins, of exactly those members, and come to agree |
| `Clusters.ThirdJoins` | src/network/Router.cpp:54-264 | Three machines, in particular, of which the second and the third ask only the first: all have 3 as the maximum in the end |
| `Clusters.QuietAgrees` | src/network/Router.cpp:252-264 | When nothing is in flight, every table has exactly the other members at their addresses, and every maximum is the number of IDs given |
| `Clusters.JoinFreshIff` | src/network/Router.cpp:147-189 | In any good state, quiet or not, the joiner's ID is new exactly when the cluster is empty or some peer that it asked had the number of members as its maximum |
| `Clusters.JoinCompleteIff` | src/network/Router.cpp:192-250 | The joiner's table lists every member exactly when each was contacted or was known to the peer whose rows came in, as that peer answered |
| `Clusters.ThirdRepeats` | src/network/Router.cpp:54-264 | A third machine that asks only the first, before the second's announcement has arrived there: it takes the second's ID and does not learn of it |
| `Clusters.SecondRepeats` | src/network/Router.cpp:147-189 | A second machine that the first does not answer about the maximum takes the first one's ID |
| `Clusters.MayKeepIff` | src/network/Router.cpp:457-484 | With nothing in flight, a returning machine is told that it may keep its ID exactly when no other member has it |
| `Clusters.ReturnRight` | src/network/Router.cpp:85-190 | A machine that returns to a quiet cluster with an old ID, and is answered, keeps it exactly when no other member has it; in any case its ID is no other member's, and its maximum the highest, if it may keep its ID or some contact tells it the maximum; if neither is so its ID is 1 |
| `ReplicaLists.SortedKeeps` | src/block/BlockLocationAttr.cpp:20 | Sorting permutes and sorts |
| `ReplicaLists.AddToKeeps` | src/block/BlockLocationAttr.cpp:10-22 | A sorted, bounded list stays so and gains exactly the new machine when there is room |
| `ReplicaLists.AddAllFits` | src/block/BlockManager.cpp:187-206 | While there is room every new machine gets in |
| `ReplicaLists.AddAllCount` | src/block/BlockResolver.cpp:351-372 | Adding machines one by one keeps all that are there and gains as many of the others as there is room for, so all of them when all fit |
| `ReplicaLists.AddAllOrder` | src/block/BlockResolver.cpp:351-372 | And those come in by their order: a new machine gets in exactly while the ones before it leave room |
| `ReplicaLists.BlockLocationAttr.AddMachine` | src/block/BlockLocationAttr.cpp:10-22 | Refuses a full list and a repetition; otherwise adds and sorts |
| `ReplicaLists.BlockLocationAttr.RemoveMachine` | src/block/BlockLocationAttr.cpp:24-30 | With the bounds repaired: takes out exactly the machine and keeps the order of the rest |
| `EndlessLoop.RemoveFaults` | src/block/BlockLocationAttr.cpp:24-30 | As written: removeMachine reads past the end of the list at its first turn, for every list and every machine |
| `EndlessLoop.AnyStartFaults` | src/block/BlockLocationAttr.cpp:24-30 | Wherever it started, its index would step below 0, round to the largest one, and read past the end |
| `ReplicaLists.BlockLocationAttr.ReplaceMachine` | src/block/BlockLocationAttr.cpp:32-42 | Replaces every occurrence, sorts, and says whether there was one |
| `Resolvers.BlockResolver.ForceAddLocalID` | src/block/BlockResolver.cpp:129-135 | The one-machine list of this node, and no cached entry |
| `Resolvers.BlockResolver.CleanCache` | src/block/BlockResolver.cpp:154-161 | Five entries leave the cache |
| `Resolvers.BlockResolver.HandleRequestBlockLocationACK` | src/block/BlockResolver.cpp:345-374 | The block of an answer that names machines is cached then, with the old machines and all of the new ones that there is room for; no other entry changes, but when the block is new and the cache is full exactly five leave |
| `Resolvers.AcksTell` | src/block/BlockResolver.cpp:285-307 | Answers one after another: the entry gains nothing but machines that they name for the block, and as many of those as there is room for if it does not have to leave in between |
| `Resolvers.BlockResolver.HandleUpdateReplica` | src/block/BlockResolver.cpp:389-417 | The received list replaces what the maps hold |
| `Resolvers.BlockResolver.CheckReplica` | src/block/BlockResolver.cpp:163-216 | The entry keeps exactly the machines that answer, and goes when none does; copies are requested exactly when some answer, and the list was too short or some do not; the request is the list that is left, in order |
| `Resolvers.RequestIff` | src/block/BlockResolver.cpp:163-216 | For a list that is sorted and bounded that is: exactly when some answer, and fewer than there should be |
| `Resolvers.BlockResolver.AskRemoteBlock` | src/block/BlockResolver.cpp:285-307 | The result is the entry as it is after the answers, which has what they name for the block as far as there is room, and nothing else besides what was there |
| `Resolvers.BlockResolver.AskBlock` | src/block/BlockResolver.cpp:249-283 | This node for a local block, which changes nothing. Otherwise the living machines of the entry are kept and the answer is one of them; when there are none the answer is a machine that the answers to the ask name, and there is none exactly when they name none, unless another block's answer pushes the entry out of a full cache. It is the roomiest of the entry, and copies are requested exactly when some live and they are too few |
| `Resolvers.AskTells` | src/block/BlockResolver.cpp:249-283 | What askBlock leaves cached and answers, for any answers to its asks |
| `Resolvers.BlockResolver.HandleDoReplica` | src/block/BlockManager.cpp:169-212 | The entry becomes the requested list and the candidates that acknowledged, and that is published |
| `Resolvers.BlockResolver.ChooseReplica` | src/block/BlockResolver.cpp:218-247 | The first machine with the most free memory, and the first of all when none reports any |
| `Picks.PickMachineBesideList` | src/network/Router.cpp:294-325 | The loop acts as Pick does on the same random values |
| `Picks.PickSound` | src/network/Router.cpp:294-325 | When it ends it has exactly num distinct machines of the table, none in the list |
| `Picks.PickEndsIff` | src/network/Router.cpp:294-325 | It can end exactly when there are enough candidates, or nothing to look for |
| `Directories.NextGood` | src/block/BlockResolver.cpp:163-417 | Every step of the replica directory keeps every list anywhere sorted, bounded, non-empty and truthful, and the caches bounded; no block is lost |
| `Directories.RunGood` | src/block/BlockResolver.cpp:163-417 | So in every state of every run without deletes |
| `Directories.RunKeeps` | src/block/BlockResolver.cpp:129-141 | A machine once listed for a block has it for the rest of the run |
| `Directories.SavingHolds` | src/block/BlockResolver.cpp:129-135 | A machine that saves a block has it, lists itself for it, and has it no longer cached; nothing else changes |
| `Directories.CheckAsks` | src/block/BlockResolver.cpp:163-216 | A check in a good state leaves the machines that answered, and a request for copies goes to the first of them exactly when they are some but too few |
| `Directories.FailingForgets` | src/block/BlockResolver.cpp:143-145 | A machine that gives up on a block has it no longer cached, and nothing else changes |
| `Directories.AskingFinds` | src/block/BlockResolver.cpp:249-374 | From every good state: a machine that has a block is found by an ask, its answer and the handling of that, and all machines cached then have the block |
| `Directories.CheckingRepairs` | src/block/BlockResolver.cpp:163-216 | From every good state: a check that finds too few copies, the repair it requests and the update that follows leave the survivors and the new machines cached, and all of them have the block |
| `Directories.AcksGood` | src/block/BlockResolver.cpp:285-307 | Truthful answers to a remote ask, one after another, keep a node's maps in order |
| `Directories.AnswersAreHolders` | src/block/BlockResolver.cpp:249-283 | Whatever AskBlock answers, given truthful answers to its asks, is a machine that has the block, and the node's maps are in order afterwards |
| `Directories.RepairList` | src/block/BlockManager.cpp:182-211 | What handleDoReplica publishes contains the requested list and every machine that acknowledged, and is exactly as long as both together |
| `Directories.CopiedHold` | src/block/BlockManager.cpp:214-230 | Every machine that copied the block has it |
| `Repairs.FullRepair` | src/block/BlockManager.cpp:182-211 | When the choice of candidates ends in a table that is not empty: what is published is the requested list and the candidates that acknowledged, each once, and has exactly as many machines as wanted if all of them do |
| `Repairs.DoReplica` | src/block/BlockManager.cpp:169-212 | handleDoReplica with its choice of candidates: the entry takes that list |
| `BlockIDs.BuildSplits` | src/common/Doopey.cpp:104-117 | An ID is the machine times 2^32 plus the counter, and both are read back |
| `BlockIDs.SplitBuilds` | src/common/Doopey.cpp:104-117 | And every 64-bit ID is built of its halves |
| `BlockIDs.NameReadsBack` | src/block/BlockManager.cpp:113-119 | The 16-digit file name of an ID is parsed back to the ID |
| `BlockIDs.LoadLocalIDs` | src/block/BlockResolver.cpp:74-115 | The scan loop finds what Scan says, whatever names the directory has |
| `BlockIDs.ScanRebuilds` | src/block/BlockResolver.cpp:74-115 | After a restart the map of local blocks is exactly the files |
| `BlockIDs.ScanHighest` | src/block/BlockResolver.cpp:104-112 | And the counter is the highest of this machine's |
| `BlockIDs.NewLocalID` | src/block/BlockResolver.cpp:70-72 | The next ID has this machine and the next counter |
| `BlockIDs.NewIsOffDiskIff` | src/block/BlockResolver.cpp:70-115 | The next ID after a restart is off every file exactly unless the counter wraps onto one |
| `BlockIDs.NewIsUnissuedIff` | src/block/BlockResolver.cpp:70-115 | It is beyond all IDs issued before exactly when the file of the last one is still there and the counter does not wrap |
| `BlockIDs.ReissuedAfterDelete` | src/block/BlockResolver.cpp:70-115 | One ID issued and its block deleted: after a restart the same ID is issued again |
| `BlockIDs.DistinctIff` | src/block/BlockResolver.cpp:70-72 | All IDs drawn by all machines are distinct exactly when no machine draws more than 2^32 |
| `BlockIDs.DrawnNotZero` | src/block/BlockSaver.cpp:28-32 | And none is 0 |
| `MetaBlocks.MetaBlock.constructor` | src/block/MetaBlock.cpp:8-30 | Pointers from the name length, or none |
| `MetaBlocks.MetaBlock.SetFileName` | src/block/MetaBlock.cpp:32-62 | Length and name are written; a second name forgets time and list but not the size pointer |
| `MetaBlocks.MetaBlock.SetCreateTime` | src/block/MetaBlock.cpp:64-78 | Refused before a name, otherwise written behind it |
| `MetaBlocks.MetaBlock.SetFileSize` | src/block/MetaBlock.cpp:80-91 | Refused before a time, otherwise written behind it or where it was |
| `MetaBlocks.MetaBlock.AddDataID` | src/block/MetaBlock.cpp:93-115 | Refused before a size; counts and appends |
| `MetaBlocks.MetaBlock.GetFileName` | src/block/MetaBlock.cpp:117-128 | What the bytes say |
| `MetaBlocks.MetaBlock.GetCreateTime` | src/block/MetaBlock.cpp:130-138 | What the bytes say |
| `MetaBlocks.MetaBlock.GetFileSize` | src/block/MetaBlock.cpp:140-148 | What the bytes say |
| `MetaBlocks.MetaBlock.GetDataBlockNumber` | src/block/MetaBlock.cpp:150-159 | What the bytes say, 0 without a list |
| `MetaBlocks.MetaBlock.GetDataBlockID` | src/block/MetaBlock.cpp:161-175 | The k-th ID, 0 out of range |
| `MetaLayout.WritesFitIff` | src/block/MetaBlock.cpp:32-115 | Writing a description and a list stays inside a zeroed block exactly when header and list fit |
| `MetaLayout.CodecRoundTrip` | src/block/MetaBlock.cpp:8-175 | The writer reads back what it wrote; a reader of the same bytes does exactly when the name is not empty (or all else is zero too) |
| `MetaLayout.EmptyNameLost` | src/block/MetaBlock.cpp:11-16 | A block without a name, of any size but 0: a reader finds nothing in it |
| `MetaLayout.ReopenedAppends` | src/block/MetaBlock.cpp:8-115 | A reopened block takes more IDs behind the ones it has |
| `MetaLayout.RenameHoldsIff` | src/block/MetaBlock.cpp:32-91 | The layout of a block described a second time is that of a fresh one exactly when the names have the same length and there was no list |
| `MetaLayout.RenameReadsIff` | src/block/MetaBlock.cpp:32-159 | The object itself reads back the second description exactly when the size, written where the old name put it, says the same as the new name and time wherever it falls on them; so always when the new name is no longer |
| `MetaLayout.RenameReopensIff` | src/block/MetaBlock.cpp:8-159 | A reader of the bytes does exactly when moreover the bytes behind the new time, with the size where the old one was, happen to be the size and no count |
| `MetaLayout.SameLengthReopensIff` | src/block/MetaBlock.cpp:8-159 | With names of the same length, exactly when there was no list |
| `MetaLayout.ShorterName` | src/block/MetaBlock.cpp:32-91 | A new name one byte shorter: the object says the size, and a reader of the bytes 256 times as much |
| `MetaLayout.RenameThenAdd` | src/block/MetaBlock.cpp:93-115 | With names of the same length, the first new ID repairs the list |
| `MetaLayout.SetupSound` | src/file/FileUploader.cpp:110-146 | In whatever order messages come, pointers stay inside the block |
| `MetaLayout.AddSound` | src/block/MetaBlock.cpp:93-115 | So after an ID |
| `MetaLayout.AddLists` | src/block/MetaBlock.cpp:93-175 | And the list then is the one before and the new ID, whatever else overlaps in the block |
| `Chunks.PutFile` | src/machine/Client.cpp:222-248 | The messages of the read loop |
| `Chunks.ChunkedAt` | src/machine/Client.cpp:222-248 | Each message is its part of the file, and none is empty |
| `Chunks.ChunkedCount` | src/machine/Client.cpp:222-248 | There are just enough of them |
| `Chunks.Scheduled` | src/machine/Client.cpp:375-395 | The sizes of the scheduling loop |
| `Chunks.ScheduleAt` | src/machine/Client.cpp:375-395 | Each task gets the size of its part of the file |
| `Chunks.TilesIff` | src/machine/Client.cpp:447-459 | A byte is written by the block it belongs to and by no other, exactly when it is inside the file |
| `Downloads.WholeIff` | src/machine/Client.cpp:414-462 | At any moment the local file is right exactly when its last byte is there and every byte not written yet is a zero |
| `Downloads.EndedIsWhole` | src/machine/Client.cpp:363-462 | When every task has ended, in whatever interleaving of the four threads and with whatever partial writes, the file is there |
| `Downloads.TrustedIff` | src/machine/Client.cpp:363-418 | For every file and every setup that serves it: getFile's answer can be trusted in every run of its four threads exactly when tasks report their result last or the file is empty; as written they report it first |
| `Downloads.FirstBreaksWord` | src/machine/Client.cpp:363-424 | As written, for every file that is not empty: a run in which all tasks but the last end one after another, getFile answers true, and the last task fails, so that what is left is not the file |
| `Downloads.FirstLeavesNothing` | src/machine/Client.cpp:363-424 | As written, for a file of at most four blocks: a run in which getFile answers true and leaves nothing |
| `Downloads.NoneTrusted` | src/machine/Client.cpp:397-418 | As written, every file that is not empty can be served in a way in which the answer is not to be trusted |
| `Downloads.EmptyNeverReturns` | src/machine/Client.cpp:397-408 | A download of an empty file never returns |
| `UploadSpec.ParsedDescribed` | src/machine/Client.cpp:186-210 | setupMeta reads back the time and size that putFile sends, and the path: the directory less a closing slash, a slash, and the name |
| `UploadSpec.PathCuts` | src/machine/Client.cpp:182-207 | The tree cuts that path into the directory and the name again; a directory means the same with and without a closing slash |
| `UploadSpec.UploadCommits` | src/file/FileUploader.cpp:22-96 | A client that follows the order: the meta block lists exactly the saved data blocks in order, the tree has the path, and all other blocks are as before |
| `UploadSpec.DisconnectRestores` | src/file/FileUploader.cpp:40-46 | With the delete handlers repaired, a disconnect behind any prefix of the data leaves store and tree as they were |
| `UploadSpec.EarlyDisconnect` | src/file/FileUploader.cpp:163-168 | So does one before the description |
| `UploadSpec.AbortRestoresIff` | src/file/FileUploader.cpp:35-96 | Messages in any order, no commit and no overrun: the store is as it was before if and only if no message ends or fails the upload and no description comes after data, or nothing was saved; and the tree always is |
| `UploadSpec.TwiceDescribed` | src/file/FileUploader.cpp:55-79 | A description, a block, the same description again, and a disconnect: the block stays |
| `UploadSpec.PutThenGet` | src/file/FileUploader.cpp:22-174 | Put and get: what is uploaded is in the tree under its directory, a slash and its name, every message is acknowledged, and its meta block reopened and its blocks fetched as that says are the file |
| `UploadSpec.UploadTells` | src/file/FileUploader.cpp:28-107 | Any messages that overrun nothing: each is answered once up to where the upload ends; it is refused exactly when the last answer is an error, and there is no error before; at an end the path in the stored block goes into the tree under its ID and is acknowledged exactly when it can be added, and the tree is as before in every other case |
| `UploadSpec.PutFileIff` | src/machine/Client.cpp:186-264 | putFile, which stops at the first answer that is no acknowledgement, returns true exactly when the path can be added, and the path is in the tree then; when it returns false the tree is as before, and the store is so exactly if the path is a file's already |
| `UploadSpec.PutFileReturns` | src/machine/Client.cpp:186-264 | And some such exchange there always is |
| `WideCopies.DeletesIff` | src/block/BlockManager.cpp:232-260 | As written: the delete handlers delete the block of the ID in the message, for every ID and whatever was in memory before, exactly when the copy is 8 bytes wide |
| `WideCopies.WideFaults` | src/block/BlockManager.cpp:232-260 | As written: a Block has a pointer besides its ID, so that the copy overruns for every message |
| `Uploads.FileUploader.SaveBlock` | src/block/BlockSaver.cpp:26-50 | A new ID, the file, the registration |
| `Uploads.FileUploader.SetupMeta` | src/file/FileUploader.cpp:110-146 | The three setters on the message's fields |
| `Uploads.FileUploader.SetupData` | src/file/FileUploader.cpp:148-161 | A zero-padded block is saved and its ID appended |
| `Uploads.FileUploader.CleanData` | src/file/FileUploader.cpp:163-174 | The listed blocks are deleted |
| `Uploads.FileUploader.ReceiveFile` | src/file/FileUploader.cpp:22-98 | The loop over any messages acts as Receive says, replies included, and so ends and answers as UploadTells says |
| `TaskThreads.RunGood` | src/common/TaskThread.cpp:33-79 | With both orders repaired, the invariant holds in every interleaving of one dispatcher and its workers |
| `TaskThreads.WorkGoesOn` | src/common/TaskThread.cpp:46-58 | In every order of statements: a worker of a good pool with an accepted task can always go on by itself, and every step brings it nearer the end |
| `TaskThreads.OfferedIsDone` | src/common/TaskThread.cpp:46-79 | In the repaired order, from every good pool: a worker that says it is free can be given any task, runs it with its own arguments and is free again, by steps of its own |
| `TaskThreads.AcceptedAreOffered` | src/common/TaskThread.cpp:60-79 | In every run of every order, what a worker has accepted is what it was offered, in that order, but for a task that is being handed over |
| `TaskThreads.CalmKept` | src/common/TaskThread.cpp:33-79 | In every order, that of the code included: runs in which runTask comes only to workers that are in their loop or at their lock keep the promise |
| `TaskThreads.LostWakeup` | src/common/TaskThread.cpp:33-38 | As written: a task accepted between _run and the lock is never run |
| `TaskThreads.LostArguments` | src/common/TaskThread.cpp:52-56 | In every order in which a worker is free before it clears its arguments, that of the code included: arguments of a task accepted in between are lost |
| `TaskThreads.WrittenLoses` | src/common/TaskThread.cpp:33-79 | As written: a run in which a task is never run, and one in which arguments are lost |
| `TaskThreads.KeptIff` | src/common/TaskThread.cpp:33-79 | Each accepted task runs once with its own arguments, no worker is free before its task has ended, and none is stuck, in every interleaving, exactly when both orders are repaired |
| `TaskThreads.CalmIff` | src/common/TaskThread.cpp:33-79 | And that is the one order in which runTask never comes to another worker |
| `Alarms.AlarmClock.Pass` | src/common/Doopey.cpp:58-69 | What is due is called, the earliest of the rest is found, in any order of the map |
| `Alarms.AlarmClock.AlarmHandler` | src/common/Doopey.cpp:45-78 | Terminates; calls each due callback once and removes it; sets the timer for the earliest left |
| `Alarms.AlarmClock.DoopeyAlarm` | src/common/Doopey.cpp:89-102 | A set or a cancel is the corresponding step: a callback that is set is called once its time has come or waits with the new deadline, one that is cancelled is neither, and the others keep theirs unless called |
| `Alarms.AlarmClock.Expire` | src/common/Doopey.cpp:45-78 | So is the timer going off, which calls whatever was due when it was set to go off |
| `AlarmSpec.RunGood` | src/common/Doopey.cpp:45-102 | In every run each setting is called once, cancelled or replaced, or waiting |
| `AlarmSpec.TimerIff` | src/common/Doopey.cpp:70-77 | The timer is set for the earliest deadline exactly when the clock had not reached it as it was set |
| `AlarmSpec.SignalCalls` | src/common/Doopey.cpp:58-69 | A timer set for the earliest deadline does its work when it goes off |
| `AlarmSpec.ReachedMeanwhile` | src/common/Doopey.cpp:71-76 | A clock that reaches the deadline between the test and alarm() leaves a waiting callback without a timer |

## Left out

- System calls, the logger, configuration, the command line and the main programs: disk, network and clock appear as maps, nondeterministic transfers and readings.
- Routers.Router.Broadcast: steps over a copy of the keys; LostIterator has the loop as written, and takes its undefined step as a fault. A message that a machine accepts and then fails to read counts as sent.
- ReplicaLists.BlockLocationAttr.RemoveMachine: starts on the last machine; as written it faults for every input, which is EndlessLoop.RemoveFaults.
- UploadSpec.DisconnectRestores: takes a delete as the removal of the block of that ID from the store; the handlers as written overrun (WideCopies.WideFaults). What a delete does to the replica directory is not modelled.
- Directories.RunGood: covers runs without deletes and without lost files; one handler is one atomic step, including all the copies of one repair, and attribute objects shared between maps and callers are values here.
- Resolvers.BlockResolver.AskBlock: the answers that come in are a parameter; Directories.AnswersAreHolders says what follows when they are truthful, as all messages are in every run by Directories.RunGood.
- Resolvers.AskTells: when answers for other blocks come in as well and the cache is nearly full, the entry may be pushed out again before askBlock looks; it says then that nothing but named machines is answered.
- UploadSpec.PutFileIff: for a file that is read to its end, on a connection that stays up, to a server whose block counter does not wrap.
- The wait of askRemoteBlock with its two locks and its time-out: an ask is a broadcast, any number of answers, and a look into the map.
- Resolvers.BlockResolver.ChooseReplica: the memory answers are arbitrary numbers.
- Clusters.RunGood: covers joins one after another; two at the same time can compute the same number. Deliveries may come between all the questions of a join, and before and after it; its runs are those in which each joiner hears from a peer with the latest maximum, and of every member. Clusters.SettledRunGood needs no more than that its contacts are settled and answer. JoinFreshIff and JoinCompleteIff say exactly what happens otherwise. There are fewer than 2^32 - 1 machines, and all of them stay up.
- Clusters.MayKeepIff: in a cluster with nothing in flight.
- Clusters.ReturnRight: in a cluster with nothing in flight, for a machine that has made contact with some member at another address; what its announcement then does to the tables of the others is not stated.
- Routers.Router.MergeAnswer: an answer that is not the encoding of a table makes the code read past its end, and is outside the precondition; the same holds for Payloads.ReadUpdate and frames shorter than a header.
- FileTrees.FileTree.RemoveDir: not for "/", whose parent link nothing sets; what the code does there is WrongSibling.RootStays.
- FileTrees.FileTree.Apply: not for a removal of "/", for the same reason.
- The removal of directories is not broadcast to other machines (src/file/FileManager.cpp:269-274), and no claim is made about trees on different machines.
- ServerSnapshots.RestartKeeps: the machine ID is a non-negative decimal number as save prints it; a snapshot file that something else wrote is read by LoadText, about which nothing more is said.
- A machine that changes its ID after its blocks were scanned keeps the counter of the old one; this is not modelled.
- Uploads.FileUploader.ReceiveFile: the file system accepts every block file; a message whose setters or reads would leave the block is outside the precondition, as the code has no check (src/block/MetaBlock.cpp:32-49, 110-112). The file tree is the namespace value there, which the heap tree refines.
- Text paths and meta block names are the same bytes, one character each; times are 64-bit words.
- TaskThreads.KeptIff: threads are not stopped; memory is sequentially consistent, and unlocking an unlocked mutex does nothing.
- Alarms.AlarmClock.AlarmHandler: callbacks leave the map alone, and the signal does not arrive inside DoopeyAlarm; alarm() counts from the second in which its argument was computed.
- Alarms.AlarmClock.DoopeyAlarm: for delays below 2^32 seconds, which is what alarm() takes; a longer one would be cut to 32 bits.
- Downloads.EndedIsWhole: every task that is handed out is accepted, and starts some time later; a download of an empty file never returns (src/machine/Client.cpp:397-408).
- Picks.PickEndsIff: says when the random choice can end; with luck against it, it need not.
- Memory management, alignment, byte order (little-endian words are used) and the debugging helpers getExChildren and MetaDecoder.
