# Ingot Engine: a Dafny model of the stateful core

Ingot Engine is a container engine. This project models the parts of it whose
correctness depends on long-lived state or on byte-exact formats, and proves
what they promise for every input, every run and, for the image store, every
point at which the daemon may die.

| area | modules |
|---|---|
| image store, garbage collector, fsck, unpack cache | `ImageDisk`, `ImagePlan`, `ImageProofs`, `ImageRuns`, `ImageCrashes`, `ImageBlobs`, `ImageLimits`, `ImageEffects`, `Fsck`, `ImageHistory`, `ImageStore`, `LayerCache` |
| address plan, leases, networks, endpoints, names | `Bits`, `Subnets`, `Ipam`, `LeaseHistory`, `V6Carver`, `NetworkModel`, `NetworkProofs`, `NetworkRuns`, `NetworkLimits`, `NetworkEffects`, `NetworkManager` |
| compose start order and `extends` | `ComposeOrder`, `ComposeSort`, `ComposeExtends` |
| verified, resumable blob download | `BlobFetch` |
| codecs: DNS, multiplexed stream, image references | `DnsWire`, `DnsNames`, `MuxStream`, `ImageRef` |

## How it is built

**Image store.** A `Disk` is everything durable: records, tag index, blobs,
layer directories, the stray directories beside them (the unpack sidecar `.by-blob`
and staging directories), partial downloads and the builder cache's roots. Each store
operation is a *plan*, the ordered sequence of its durable writes. The classes
`ImageStore.Store` and `ImageStore.DataRoot` execute the source's loops and are
proved to append exactly that plan to a ghost journal, so a crash is a prefix of
the plan and a completed call is the whole of it. What fsck reports is defined
apart from all of this (`ImageDisk.Reports`), finding by finding, and
`Fsck.Check` is proved to return exactly those findings. `ImageEffects` says what each
operation does by the disk before and the disk after alone, without the plans.

**Networks.** A `State` holds the networks, the v4 and v6 leases, the map from a
v4 to a v6 address and the two name registries. `NetworkManager.Manager` is the
class with the source's fields; each of its methods is proved to perform one
function of `NetworkModel`, and `NetworkProofs` and `NetworkRuns` prove what every
sequence of those functions keeps. `NetworkEffects` says what each call answers and
changes, with the exact condition of every error, without naming those functions. Addresses are naturals; masks, shifts and ors
are bit functions proved equal to arithmetic in `Bits`.

**The rest.** Kahn's algorithm is proved against the order that always starts the
greatest name whose dependencies have started; `extends` against the chain of
services it walks; the downloader against an arbitrary script of registry
answers; the codecs against independent encoders and readers.

## Where the code and what it is meant to do part ways

Each of these is stated as a theorem about the code as it is.

- fsck-clean alone is not inductive. From any clean store the next one is clean iff a
  deletion drops every tag the index gives its record and an install leaves no stray
  directory (`ImageRuns.StepCleanIff`, over runs `ImageRuns.EveryRunStaysClean`). Where
  every indexed tag is embedded, deletions always do (`ImageRuns.EveryRunKeepsInverse`); a
  crash inside an untag followed by a removal is an input that fails
  (`ImageLimits.UntagCrashThenRemoveDangles`), and `ImageHistory.CutEmbeddedIff` names
  every crash point that can lead there.
- Unpacking a pulled layer creates the directory `.by-blob` among the layers, which fsck
  reports as an unreferenced layer and repair never removes. After the first pull of any
  image with a layer fsck is not clean (`ImageLimits.FirstPullIsReported`), and stays so
  (`ImageLimits.SidecarStays`) unless the builder cache's text names the directory.
- Pull and build merge a record in without collecting the revision it replaces; only the
  load path does. `ImageLimits.PullCleanIff` says when fsck is clean after that, and
  `ImageLimits.RepullExample` is a store where it is not.
- After `repair`, a tag that named a misfiled record is reported as missing from the
  index; nothing else is new (`Fsck.RepairReport`, with the disk of `Fsck.RepairUnhooks`).
- Tagging an image that already embeds the tag succeeds and writes nothing, also where the
  index gives the tag to another image or to none; that is exactly when a successful tag does
  not name the image (`ImageEffects.TagNamesIff`, on the store of
  `ImageEffects.ContestedTagStays`, which `ImageEffects.ContestedByCrash` shows a put that
  died after its first write leaves behind).
- The unpack sidecar is keyed by blob alone while the answer depends on the media
  type as well, and a marked directory is trusted unread. `LayerCache.EnsureRightIff` gives
  the exact condition for one call from any state. `LayerCache.MediaTypeSwapPoisonsDirectory`
  shows a directory filled under a wrong name, `LayerCache.EmptyDirectoryIsReplaced` the
  same over an empty directory an interrupted deletion left.
- A deletion of a layer that dies before the marker goes leaves a marked directory with
  files missing, and later uses answer with it (`LayerCache.MarkerLeftIsTrusted`). Over runs
  with one media type per blob that is the only way to a bad directory
  (`LayerCache.CacheNeverLies`, `LayerCache.GenuineThroughoutIff`). One that dies after the
  marker went and before the rest did blocks the layer for good
  (`LayerCache.PartialNeverHeals`).
- A repair must evict stale embeds before it drops the dangling tag they embed
  (`Fsck.RepairAgainIff`, `Fsck.WrongOrderSticks`). The report's order sees to that, so a
  repair that dies can be run again (`Fsck.RepairResumes`).
- A rewire draws a fresh v6 lease and leaves the old one to the boot sweep: until then no
  call but the removal of the network gives it back (`NetworkLimits.RewireOrphans`,
  `NetworkLimits.OrphanStays`).
- A failed attach hands back its v4 lease unless the bridge came up, a v4 address was to be
  had and the v6 subnet was exhausted (`NetworkRuns.FailedAttachRollsBackIff`, shown on
  every dual-stack boot by `NetworkLimits.ExhaustedV6Leaks`).
- Detach and rewire keep the name registries consistent iff they are given every name
  of the endpoint (`NetworkRuns.DetachKeepsIff`, `NetworkRuns.RewireKeepsIff`);
  `NetworkLimits.ForgottenNameBreaks` and `NetworkLimits.OtherNameBreaks` show the failure
  on every state that has a name.
- The name server's comments promise that a name it owns is never forwarded. `decide`
  forwards a name it knows iff it knows it only in the AAAA registry and is asked for
  something else (`DnsWire.ForwardsKnownIff`); the network manager never creates such a
  name (`DnsWire.OwnedNamesStayHome`).
- The answer builders append their record behind everything the query carried. A client
  reads the address first iff nothing follows the question, or what follows happens to be
  the answer itself (`DnsWire.AddressComesFirstIff`), so an EDNS query gets its OPT record
  first (`DnsWire.OptRecordComesFirst`).
- A Docker Hub repository such as `library/a/b` does not survive printing and parsing
  (`ImageRef.RoundTripIff`, `ImageRef.NestedOfficialIsLost`).
- The v4 subnet parser admits /0, where the release build's shift wraps; `Subnets`
  models that wrap, and the results below hold for /0 as well.

## Model

| member | source | states |
|---|---|---|
| `ImageRuns.EveryRunStaysClean` | crates/image/src/store.rs:110-469 | from any store fsck calls clean, every store along a run of installs, tags, untags and removals is one fsck calls clean, iff every deletion drops every tag the index gives its record and no install leaves a stray directory the builder cache does not name |
| `ImageRuns.StepCleanIff` | crates/image/src/store.rs:110-469 | the same for one step: clean to clean, with the exact condition |
| `ImageRuns.StepTidyIff` | crates/image/src/store.rs:110-469 | from any store without findings but stray directories, the next has none but those iff a deletion drops every tag of its record |
| `ImageRuns.RunTidyIff` | crates/image/src/store.rs:110-469 | the same for every store along a run |
| `ImageRuns.DeleteTidyIff` | crates/image/src/store.rs:370-440 | the exact condition for removals and for untags of a last tag |
| `ImageRuns.EveryRunKeepsInverse` | crates/image/src/store.rs:110-469 | where every indexed tag is embedded, every run drops all tags at each deletion, stays tidy, and embeds a tag in a record iff the index maps it there |
| `ImageHistory.EveryHistoryStaysWhole` | crates/image/src/store.rs:110-440 | commands, pulls, builds and repairs, with crashes at any write of any of them, in any order: nothing is ever lost, iff every deletion that got as far as its record had dropped every tag of it |
| `ImageHistory.EveryHistoryKeepsBlobs` | crates/image/src/store.rs:110-469 | over such a history every blob a remaining record refers to stays |
| `ImageHistory.CutEmbeddedIff` | crates/image/src/store.rs:110-440 | exactly which crash points leave an indexed tag embedded nowhere: between the first eviction of a put, or the rewrite of an untag, and the saving of the index |
| `ImageCrashes.CutSoundIff` | crates/image/src/store.rs:110-440 | from any store that has lost nothing, a crash after k writes loses something iff a deletion got as far as its record without dropping every tag of it |
| `ImageCrashes.CrashLosesNothing` | crates/image/src/store.rs:110-440 | from any store that has lost nothing, after a crash at any durable write of any operation that drops the tags it must, the index is wholly old or wholly new, every indexed tag names a record, and fsck finds no missing layer, blob or config |
| `ImageBlobs.CrashKeepsBlobs` | crates/image/src/store.rs:416-469 | stronger than fsck asks: at every crash point each blob a remaining record refers to, as config or as layer, is still there |
| `ImageBlobs.RunKeepsBlobs` | crates/image/src/store.rs:416-469 | the same over every run: the collector never takes a blob a remaining record refers to |
| `ImageBlobs.GcCollects` | crates/image/src/store.rs:450-469 | the collector's writes include no blob any record on disk refers to |
| `ImageCrashes.StepSafe` | crates/image/src/store.rs:110-440 | every prefix of every operation's writes leaves a sound disk and one of two indexes |
| `ImageRuns.AddTagKeepsCoherent` | crates/image/src/store.rs:166-176 | tagging, including taking the tag from another record, keeps the invariant |
| `ImageRuns.UntagKeepsCoherent` | crates/image/src/store.rs:377-398 | untagging keeps it, both when tags are left and when the record goes |
| `ImageRuns.RemoveKeepsCoherent` | crates/image/src/store.rs:400-440 | removal keeps it: nothing needed is deleted, nothing is stranded, no tag dangles |
| `ImageProofs.InstallKeepsCoherent` | crates/server/src/handlers/images.rs:1065-1083 | content, merged put and collection of the replaced revision keep it |
| `ImageProofs.PutRun` | crates/image/src/store.rs:110-139 | the write-by-write put equals one simultaneous step: the record written, each moved tag taken from its holder, all tags bound |
| `ImageProofs.PutTag` | crates/image/src/store.rs:110-139 | after a put that may move several tags from several holders, a tag is embedded in a record iff the index maps it there |
| `ImageProofs.GcRun` | crates/image/src/store.rs:450-469 | the collector removes exactly the old revision's layers and blobs that no record uses |
| `ImageProofs.GcKeepsSound` | crates/image/src/store.rs:450-469 | it removes no layer or config a record needs |
| `ImageProofs.GcKeepsNoGarbage` | crates/image/src/store.rs:450-469 | if only the old revision's content was unrooted before, nothing is unrooted after |
| `ImageLimits.RemoveCleanIff` | crates/image/src/store.rs:400-440 | removal from a clean store leaves it clean iff the record embeds every tag the index gives it |
| `ImageLimits.LastUntagCleanIff` | crates/image/src/store.rs:377-388 | the same for dropping the last tag |
| `ImageLimits.UntagCrashThenRemoveDangles` | crates/image/src/store.rs:389-398 | a crash between an untag's two writes, then a removal, leaves a dangling tag |
| `ImageLimits.PullCleanIff` | crates/image/src/pull.rs:149-248 | after a pull fsck is clean iff the replaced revision had no layer or blob of its own and the builder cache names every stray directory, the unpack sidecar included when there is a layer |
| `ImageLimits.PullTidyIff` | crates/image/src/pull.rs:246-248 | strays apart, a merged put without collection leaves nothing to report iff it strands nothing |
| `ImageLimits.PullCrashLosesNothing` | crates/image/src/pull.rs:149-248 | a crash at any write of a pull loses nothing and leaves one of two indexes |
| `ImageLimits.FirstPullIsReported` | crates/image/src/store.rs:332-348 | the first pull of any image with a layer leaves a store whose report names the sidecar directory and nothing lost |
| `ImageLimits.FirstPullExists` | crates/image/src/pull.rs:149-248 | a record and content such a pull brings |
| `ImageLimits.SidecarStays` | crates/image/src/store.rs:110-469 | once reported, the sidecar directory is reported after every further run |
| `ImageLimits.RepullStrands` | crates/image/src/pull.rs:246-248 | a layer only the replaced revision had is reported after the pull |
| `ImageLimits.RepullExample` | crates/image/src/pull.rs:246-248 | a store and a second pull that strand one |
| `ImageEffects.InstallMerges` | crates/server/src/handlers/images.rs:1065-1083 | after an uninterrupted load into any store whose records are filed under their ids: every tag of the record, and every tag that named it before, is embedded in it and indexed to it, other tags are indexed as before, former holders lose just the moved tags; it has the new layers, the digests of both and the new manifest digest, or the stored one when the new is empty |
| `ImageEffects.PullMerges` | crates/image/src/pull.rs:246-248 | the same after a pull or a build |
| `ImageEffects.LoadMerges` | crates/image/src/store.rs:145-163 | the same of the merged put alone, with and without collection, and the index it leaves |
| `ImageEffects.PutMoves` | crates/image/src/store.rs:110-139 | a put moves exactly the tags of its record, from their holders to it |
| `ImageEffects.InstallCollects` | crates/image/src/store.rs:450-469 | a load takes exactly those layers and blobs of the replaced revision that no record refers to any more |
| `ImageEffects.AddTagDoes` | crates/image/src/store.rs:166-176 | a tag the record lacks goes last and moves to it, together with the tags it embeds; otherwise nothing changes |
| `ImageEffects.TagNamesIff` | crates/image/src/store.rs:166-176 | after tagging a stored image the tag names it, in index and record, unless the record embedded it already while the index gave it elsewhere or to none |
| `ImageEffects.ContestedTagStays` | crates/image/src/store.rs:166-176 | a store on which tagging succeeds and the tag still names another image |
| `ImageEffects.ContestedByCrash` | crates/image/src/store.rs:110-139 | a put that dies after its first write leaves that store |
| `ImageEffects.UntagDoes` | crates/image/src/store.rs:377-398 | an untag that leaves a tag takes just that tag from the record, its index entry if it named the record, and nothing else |
| `ImageEffects.LastUntagDoes` | crates/image/src/store.rs:377-388 | one that leaves none takes the record, its config, the layers and blobs nothing else refers to, and no other index entry |
| `ImageEffects.RemoveDoes` | crates/image/src/store.rs:400-440 | a removal takes the same with the index entries of all tags the record embeds, and nothing else |
| `ImageDisk.RecordBlobRefs` | crates/image/src/fsck.rs:43-50 | a record roots its config, when its id is not empty, and its layer blobs, nothing else |
| `ImageDisk.SoundIffNothingSevere` | crates/image/src/fsck.rs:96-186 | fsck has no severe finding iff every record is well named and has its content and every tag a record |
| `ImageDisk.CleanIff` | crates/image/src/fsck.rs:53-222 | fsck finds nothing iff the disk is tidy and the builder cache names every stray directory |
| `ImageDisk.TidyIff` | crates/image/src/fsck.rs:53-222 | the disk is sound, embedded tags agree with the index and everything is rooted iff fsck reports nothing but stray directories |
| `ImageDisk.MissingBlobIff` | crates/image/src/fsck.rs:161-171 | a blob of a record is reported missing iff it is the blob of a layer that is there neither as blob nor unpacked; none is iff every layer can be had |
| `ImageDisk.MissingBlobExtremes` | crates/image/src/fsck.rs:161-171 | with no layer unpacked exactly the absent blobs are reported, with all of them unpacked none |
| `Fsck.Check` | crates/image/src/fsck.rs:53-222 | the loops return exactly the findings the definition gives, those of records before the store-wide ones, each stale embed as often as its record holds the tag |
| `Fsck.CheckRecord` | crates/image/src/fsck.rs:119-177 | the findings of one record, exactly |
| `Fsck.CheckHeader` | crates/image/src/fsck.rs:119-156 | name, layer lists and config of a record, exactly |
| `Fsck.CheckTags` | crates/image/src/fsck.rs:138-152 | its stale embeds and tags missing from the index, exactly |
| `Fsck.CheckContent` | crates/image/src/fsck.rs:166-177 | its missing blobs and layers, exactly, a blob being excused by its unpacked layer |
| `Fsck.CheckStore` | crates/image/src/fsck.rs:180-219 | dangling tags, partial downloads, unreferenced content and stray directories, exactly |
| `Fsck.CheckBlobs` | crates/image/src/fsck.rs:190-204 | partial downloads and unreferenced blobs, exactly |
| `Fsck.CheckLayers` | crates/image/src/fsck.rs:206-219 | every entry of the layers directory that neither a record nor the builder cache names, exactly |
| `Fsck.RepairKeeps` | crates/image/src/fsck.rs:225-297 | repair deletes no record, no layer, no blob rooted by a record or the build cache, and changes records only by dropping stale tags |
| `Fsck.RepairReport` | crates/image/src/fsck.rs:225-297 | exactly what check finds after repair: the findings repair does not handle, plus tags whose misfiled record left the index |
| `Fsck.RepairTakes` | crates/image/src/fsck.rs:225-297 | repair takes exactly the stale embeds, the dangling index entries, the unrooted blobs and the partial downloads |
| `Fsck.RepairUnhooks` | crates/image/src/fsck.rs:247-262 | a disk with a misfiled record on which repair brings a new finding about |
| `Fsck.RepairIdempotent` | crates/image/src/fsck.rs:225-297 | a second repair changes nothing |
| `Fsck.CrashThenRepair` | crates/image/src/fsck.rs:225-297 | after any crash and a repair only missing index entries, spare layer directories and stray directories can be reported |
| `Fsck.RepairKeepsWhole` | crates/image/src/fsck.rs:225-297 | a repair of a store that has lost nothing loses nothing |
| `Fsck.RepairResumes` | crates/image/src/fsck.rs:225-275 | a repair cut short at any write and a second one do what one repair does |
| `Fsck.RepairAgainIff` | crates/image/src/fsck.rs:238-297 | a repair that stopped with any set of findings acted on and a second one do what one does, iff no dangling tag was dropped before every stale embed of it |
| `Fsck.RepairPrefix` | crates/image/src/fsck.rs:237-273 | every prefix of a repair's writes is a prefix of the report acted on, and all of them are the whole repair |
| `Fsck.RepairedByWhole` | crates/image/src/fsck.rs:225-275 | a repair cut short loses nothing |
| `Fsck.WrongOrderSticks` | crates/image/src/fsck.rs:138-186 | a disk on which the report's order matters |
| `ImageStore.DataRoot.Repair` | crates/image/src/fsck.rs:225-275 | refused while the daemon lives; otherwise the whole repair, journalled write by write in the report's order, returning exactly the findings it does not handle and the stale embeds of tags a record holds twice or more |
| `ImageStore.DataRoot.Fix` | crates/image/src/fsck.rs:238-297 | the action for one finding; it counts as fixed iff it is of a kind repair handles and, for a stale embed, the tag is still there |
| `ImageStore.DataRoot.FixAll` | crates/image/src/fsck.rs:237-273 | the loop over the findings, journalling their writes in order |
| `ImageStore.DataRoot.Do` | crates/image/src/store.rs:105-111 | one durable write, journalled |
| `ImageStore.Store.PutImage` | crates/image/src/store.rs:110-139 | journals exactly the put plan; memory index bound to the record's tags |
| `ImageStore.Store.EvictHolders` | crates/image/src/store.rs:115-130 | rewrites each holder a tag moves away from, in tag order |
| `ImageStore.Store.BindTags` | crates/image/src/store.rs:131-135 | binds every tag of the record |
| `ImageStore.Store.PutImageMerged` | crates/image/src/store.rs:145-163 | journals the put of the merged record; afterwards the tags of both records name it, it has the new layers, the digests of both, and the stored manifest digest when the new one is empty |
| `ImageStore.Store.Tag` | crates/image/src/store.rs:166-176 | fails iff there is no such record; otherwise journals the tag plan, after which the tag names the image unless it was embedded and indexed elsewhere |
| `ImageStore.Store.GcReplacedLayers` | crates/image/src/store.rs:450-469 | journals the collection plan |
| `ImageStore.Store.DeleteRecord` | crates/image/src/store.rs:416-440 | journals index, record, content and config, in that order |
| `ImageStore.Store.RemoveImage` | crates/image/src/store.rs:370-414 | fails iff there is no such record; otherwise journals the untag or remove plan and returns the record, without the tag when one was named |
| `ImageStore.Store.UnbindTags` | crates/image/src/store.rs:401-408 | drops the index entries of the record's tags that still name it |
| `ImageStore.Store.LoadImage` | crates/server/src/handlers/images.rs:1065-1083 | merged put, then collection when the revision changed and no container uses the image; the record is merged in as `ImageEffects.LoadMerges` says |
| `LayerCache.CacheNeverLies` | crates/image/src/store.rs:274-351 | after any run of unpacks and deletions, whole or interrupted anywhere, a successful answer is the diffID a fresh unpack computes and a marked directory of that name exists; it holds that content iff its last deletion did not stop with the marker left over other content |
| `LayerCache.StepsKeep` | crates/image/src/store.rs:274-368 | every run keeps the sidecar truthful, and a directory is marked over other content iff it was left so |
| `LayerCache.GenuineThroughoutIff` | crates/image/src/store.rs:274-368 | every state of a run has only genuine marked directories iff no deletion leaves its marker over other content |
| `LayerCache.PartialNeverHeals` | crates/image/src/unpack.rs:78-90 | an unmarked directory with something in it stops every unpack of its content, through every run that does not delete it |
| `LayerCache.EnsureRightIff` | crates/image/src/store.rs:274-351 | from any state and with any media type: answer and directory are right iff the call trusts no bad directory; it makes a directory bad iff it fills a vacant one the sidecar names against this media type; from a genuine state all goes well iff the sidecar does not mislead |
| `LayerCache.EnsureSucceedsIff` | crates/image/src/store.rs:274-351 | with a truthful sidecar a call succeeds iff the blob unpacks and the directory of its diffID is missing, empty or marked; each failure has its cause and changes nothing; after success the sidecar has the answer, the directory is marked, and all other entries and directories are as before |
| `LayerCache.FirstUnpackSucceeds` | crates/image/src/store.rs:328-348 | the first unpack into an empty store succeeds for every blob that unpacks, and places the layer |
| `LayerCache.EnsureMisremembered` | crates/image/src/store.rs:285-302 | with any other sidecar entry: a marked directory it names is the answer; a missing or empty one is filled before the mismatch is noticed; the entry stays |
| `LayerCache.MediaTypeSwapPoisonsDirectory` | crates/image/src/store.rs:285-351 | a blob offered under a second media type fills a directory under a name that is not its content |
| `LayerCache.EmptyDirectoryIsReplaced` | crates/image/src/unpack.rs:78-90 | the same over an empty directory, which the rename replaces |
| `LayerCache.MarkerLeftIsTrusted` | crates/image/src/store.rs:287-351 | after any run, a deletion that dies before the marker goes leaves a directory the next use answers with |
| `LayerCache.Layers.UnpackLayer` | crates/image/src/unpack.rs:19-93 | staged, all-or-nothing unpack returning the diffID; a rename replaces nothing but an empty directory |
| `LayerCache.Layers.EnsureLayerUnpacked` | crates/image/src/store.rs:274-351 | performs the step of `LayerCache.EnsureSucceedsIff`: sidecar hit, stale entry, unpack, placement and mismatch paths |
| `LayerCache.Layers.RemoveLayer` | crates/image/src/store.rs:365-368 | drops the directory, not the sidecar entry |
| `Subnets.ParseIs` | crates/network/src/ipam.rs:39-63 | parsing succeeds iff the prefix leaves two host bits, and gives the aligned block holding the address, in both families |
| `Subnets.UsableRangeIs` | crates/network/src/ipam.rs:65-78 | what the bit arithmetic of the usable range computes, /0 included |
| `Subnets.OverlapsExact` | crates/network/src/ipam.rs:80-162 | the usable-range test is true iff the two whole blocks share an address, iff one contains the other |
| `Subnets.OverlapsByRanges` | crates/network/src/ipam.rs:80-86 | the test is the interval test on usable ranges |
| `Subnets.DefaultGatewayUsable` | crates/network/src/ipam.rs:94-172 | the default gateway is usable |
| `Subnets.UsableInBlock` | crates/network/src/ipam.rs:75-78 | usable addresses lie in the block and are not its network address |
| `Ipam.FirstFree` | crates/network/src/ipam.rs:207-219 | the scan yields the least address neither leased nor the gateway, or none when there is none |
| `Ipam.Allocate` | crates/network/src/ipam.rs:193-220 | the least usable free address; an error for a gateway outside the subnet or, exactly, when none is free |
| `Ipam.Reserve` | crates/network/src/ipam.rs:225-256 | succeeds iff the address is usable, not the gateway and not leased, and then gives that address; each of the three errors exactly when its check is the first to fail |
| `Ipam.Leases.AllocateLowest` | crates/network/src/ipam.rs:193-296 | allocates as above and leases exactly that address, in either family |
| `Ipam.Leases.ReserveAddress` | crates/network/src/ipam.rs:225-333 | reserves as above |
| `Ipam.Leases.Release` | crates/network/src/ipam.rs:376-410 | gives back one lease and nothing else |
| `Ipam.Leases.ResetBucket` | crates/network/src/ipam.rs:335-346 | gives back all leases of a network |
| `Ipam.Leases.SweepOrphans` | crates/network/src/ipam.rs:351-435 | keeps exactly the known and live leases; the two counts are exactly the buckets and leases lost |
| `LeaseHistory.HeldIffGrantedAndKept` | crates/network/src/ipam.rs:193-435 | over every run with fixed subnets, a lease is held iff some request was granted it and nothing since gave it back |
| `LeaseHistory.NeverGrantedTwice` | crates/network/src/ipam.rs:193-435 | between two grants of the same address on a network it was given back |
| `LeaseHistory.HeldAreLeasable` | crates/network/src/ipam.rs:193-435 | every held lease is usable on its network and never the gateway |
| `LeaseHistory.ServeTable` | crates/network/src/ipam.rs:193-435 | the lease table serves each kind of request as the history says |
| `V6Carver.AssignV6Subnet` | crates/network/src/lib.rs:334-370 | the probe loop computes the first free slot from the hash and ends within one round |
| `V6Carver.AssignIs` | crates/network/src/lib.rs:334-370 | a pool longer than /64 is refused as invalid; otherwise an aligned /64 inside the pool that nobody holds, failing iff every slot is taken |
| `V6Carver.ProbeIsPermutation` | crates/network/src/lib.rs:351-368 | one round visits every slot exactly once |
| `V6Carver.FirstFromHash` | crates/network/src/lib.rs:346-368 | the slot taken is the first from the hash on, round the pool, that nobody holds |
| `V6Carver.SlotNetworkIs` | crates/network/src/lib.rs:351-361 | the or-and-shift of a slot index is an aligned /64 of the pool, that many blocks from its start |
| `V6Carver.SlotsDistinct` | crates/network/src/lib.rs:354-357 | different slots are different networks |
| `V6Carver.DistinctApart` | crates/network/src/lib.rs:334-370 | /64s with different network addresses share no address |
| `NetworkRuns.EveryRunFromBoot` | crates/network/src/lib.rs:662-684 | in every run from boot, v4 and v6 blocks are pairwise disjoint, gateways usable, leases on their subnets, pairs injective and leased, names consistent, and no address is leased on two networks |
| `NetworkProofs.BootOk` | crates/network/src/lib.rs:662-684 | the default bridge, with or without a carved /64, satisfies the invariant |
| `NetworkProofs.LeasedOnce` | crates/network/src/lib.rs:1332-1374 | an address is leased on at most one network |
| `NetworkProofs.ChosenV4` | crates/network/src/lib.rs:1102-1189 | a chosen subnet, asked for or predefined, shares no address with any network and holds its gateway |
| `NetworkProofs.ChosenV6` | crates/network/src/lib.rs:1190-1206 | a carved /64 shares no address with any network's and holds its gateway |
| `NetworkProofs.CreateKeeps` | crates/network/src/lib.rs:1144-1226 | creation keeps the invariant, whether it succeeds or fails, for every subnet, gateway and pool asked for |
| `NetworkProofs.RemoveKeeps` | crates/network/src/lib.rs:1279-1313 | removal keeps it and leaves no lease, pair or name of the network |
| `NetworkRuns.AttachKeeps` | crates/network/src/lib.rs:1332-1374 | attach keeps it in every outcome |
| `NetworkRuns.FailedAttachRollsBackIff` | crates/network/src/lib.rs:1332-1374 | a failed attach changes nothing unless the bridge came up, a v4 address was to be had and the v6 subnet was exhausted |
| `NetworkRuns.RewireKeeps` | crates/network/src/lib.rs:1382-1411 | rewiring a leased endpoint under all its names keeps the invariant |
| `NetworkRuns.RewireKeepsIff` | crates/network/src/lib.rs:1382-1411 | and a successful rewire under some name keeps it only then |
| `NetworkRuns.DetachKeepsIff` | crates/network/src/lib.rs:1646-1687 | detach keeps the invariant iff it is given all the endpoint's names |
| `NetworkRuns.AttachDetach` | crates/network/src/lib.rs:1646-1687 | detaching undoes an attach under fresh names completely |
| `NetworkRuns.RunKeeps` | crates/network/src/lib.rs:1102-1687 | every run of calls keeps the invariant |
| `NetworkLimits.ExhaustedV6Leaks` | crates/network/src/lib.rs:1353-1358 | on every dual-stack boot with its v6 range used up, an attach fails and keeps its v4 lease |
| `NetworkLimits.ForgottenNameBreaks` | crates/network/src/lib.rs:1646-1687 | from every state with a name, detaching its endpoint without the name breaks the invariant |
| `NetworkLimits.OtherNameBreaks` | crates/network/src/lib.rs:1382-1411 | from every state with a dual-stack name, rewiring its endpoint under another name only breaks it |
| `NetworkLimits.RewireOrphans` | crates/network/src/lib.rs:1376-1411 | a successful rewire of a paired endpoint leaves its old v6 address leased and with no endpoint |
| `NetworkLimits.OrphanStays` | crates/network/src/lib.rs:1332-1687 | such a lease stays through every run of calls that does not remove the network |
| `NetworkLimits.AttachNames` | crates/network/src/lib.rs:1563-1597 | every name of a successful attach resolves to the new endpoint |
| `NetworkEffects.CreateDoes` | crates/network/src/lib.rs:1144-1226 | a create fails iff its name is used, its prefix too long, its gateway unusable, its block taken, the private ranges or the v6 pool used up, or the bridge down, with the first of these, and changes nothing; otherwise it adds exactly one network, with the name asked for, its subnets and gateways as the next three rows say |
| `NetworkEffects.RequestedV4` | crates/network/src/lib.rs:1102-1141 | a requested ip/prefix gives the block of that prefix that holds ip, with the requested gateway or the first usable address; exact conditions for a bad subnet, a bad gateway and an overlap |
| `NetworkEffects.PrivateV4` | crates/network/src/lib.rs:1166-1189 | without a request, the least of 172.18.0.0/16 to 172.31.0.0/16 that shares no address with any network, or none when each shares one |
| `NetworkEffects.PooledV6` | crates/network/src/lib.rs:334-370 | the /64 is the first of the pool from the hash on that no network has; refused iff the pool is longer than /64 or every /64 is taken |
| `NetworkEffects.BlockUnique` | crates/network/src/ipam.rs:39-63 | an address and a prefix name one aligned block |
| `NetworkEffects.BootIs` | crates/network/src/lib.rs:662-684 | the default bridge is 172.17.0.0/16 with gateway 172.17.0.1, nothing leased, paired or named |
| `NetworkEffects.RemoveDoes` | crates/network/src/lib.rs:1279-1313 | a removed network is gone with its leases, pairs and names, every other keeps all of its own; no such network and the default bridge are refused and change nothing |
| `NetworkEffects.AttachAnswers` | crates/network/src/lib.rs:1332-1374 | the exact condition of each failure, in order; otherwise the address asked for, or the least free one, and on a dual-stack network the least free v6 address |
| `NetworkEffects.AttachDoes` | crates/network/src/lib.rs:1332-1374 | a successful attach adds one v4 lease, one v6 lease and one pair, points the given names at the endpoint, and changes nothing else |
| `NetworkEffects.RewireDoes` | crates/network/src/lib.rs:1382-1411 | the same for a rewire, which keeps the recorded address and touches no v4 lease; failures change nothing |
| `NetworkEffects.DetachDoes` | crates/network/src/lib.rs:1646-1687 | gives back both leases and the pair, and drops those of the given names that point at the endpoint, nothing else |
| `NetworkModel.CreateIs` | crates/network/src/lib.rs:1144-1226 | a failed creation changes nothing; a successful one adds only the chosen network, which `NetworkEffects.CreateDoes` describes |
| `NetworkManager.Manager.constructor` | crates/network/src/lib.rs:662-684 | boot with the default bridge |
| `NetworkManager.Manager.FindClash` | crates/network/src/lib.rs:1102-1142 | finds whether any network overlaps |
| `NetworkManager.Manager.PickSubnet` | crates/network/src/lib.rs:1167-1186 | the first predefined /16 that overlaps none |
| `NetworkManager.Manager.ChooseSubnet` | crates/network/src/lib.rs:1102-1189 | the subnet and gateway `NetworkEffects.RequestedV4` and `NetworkEffects.PrivateV4` describe |
| `NetworkManager.Manager.ValidateRequest` | crates/network/src/lib.rs:1102-1141 | parse, gateway and overlap checks, in order |
| `NetworkManager.Manager.CarveSubnet` | crates/network/src/lib.rs:1190-1206 | the /64, when v6 is on |
| `NetworkManager.Manager.DesignNetwork` | crates/network/src/lib.rs:1154-1222 | everything a create decides before it changes anything |
| `NetworkManager.Manager.CreateNetwork` | crates/network/src/lib.rs:1144-1226 | performs the create step |
| `NetworkManager.Manager.RemoveNetwork` | crates/network/src/lib.rs:1279-1313 | performs the remove step |
| `NetworkManager.Manager.AttachEndpoint` | crates/network/src/lib.rs:1332-1374 | performs the attach step, both lease tables included |
| `NetworkManager.Manager.LeaseV4` | crates/network/src/lib.rs:1338-1349 | the requested v4 address or the lowest free one |
| `NetworkManager.Manager.LeaseV6` | crates/network/src/lib.rs:1353-1361 | a v6 lease on a dual-stack network |
| `NetworkManager.Manager.RewireEndpoint` | crates/network/src/lib.rs:1382-1411 | performs the rewire step |
| `NetworkManager.Manager.RegisterEndpoint` | crates/network/src/lib.rs:1563-1597 | pair and name updates of a wired endpoint |
| `NetworkManager.Manager.DetachEndpoint` | crates/network/src/lib.rs:1646-1687 | performs the detach step |
| `NetworkManager.PointNames` | crates/network/src/lib.rs:1563-1597 | points every name at the address |
| `NetworkManager.ScrubNames` | crates/network/src/lib.rs:1646-1687 | drops only the names that still point at the address |
| `ComposeSort.TopologicalSort` | crates/ingot-cli/src/compose.rs:404-455 | for every service map, repeated and self dependencies included: each service once, and every service that reaches no cycle after all its in-map dependencies; it begins with the greedy order |
| `ComposeOrder.GreedyPlacesAcyclic` | crates/ingot-cli/src/compose.rs:431-444 | a service is placed before the cyclic remainder iff it reaches no cycle |
| `ComposeOrder.GreedyOrdered` | crates/ingot-cli/src/compose.rs:431-444 | placed services come after their dependencies |
| `ComposeOrder.GreedyThenRest` | crates/ingot-cli/src/compose.rs:446-455 | the greedy order with any arrangement of the rest behind it is a start order |
| `ComposeOrder.PlacedReachesNoCycle` | crates/ingot-cli/src/compose.rs:431-444 | nothing placed reaches a cycle |
| `ComposeOrder.UnplacedReachesCycle` | crates/ingot-cli/src/compose.rs:446-455 | everything left over does |
| `ComposeSort.BuildGraph` | crates/ingot-cli/src/compose.rs:405-422 | in-degrees count in-map dependencies with repeats; adjacency is their transpose as multisets |
| `ComposeSort.InitialQueue` | crates/ingot-cli/src/compose.rs:424-429 | the sorted services without dependencies |
| `ComposeSort.Relax` | crates/ingot-cli/src/compose.rs:434-443 | lowers each neighbour once per edge and queues exactly those that reach zero |
| `ComposeSort.PlaceNext` | crates/ingot-cli/src/compose.rs:432-444 | one turn of the loop keeps the invariant and places one more service |
| `ComposeSort.AppendRest` | crates/ingot-cli/src/compose.rs:446-454 | appends exactly the services left over |
| `ComposeExtends.ResolveIs` | crates/ingot-cli/src/compose.rs:508-607 | fails exactly as the chain ends, at an empty name, an unknown service or a cycle; otherwise each field has the value of the nearest service that sets it and no `extends` is left |
| `ComposeExtends.WholeChainOf` | crates/ingot-cli/src/compose.rs:508-548 | every service of every file has exactly one such chain |
| `ComposeExtends.ResolveAlong` | crates/ingot-cli/src/compose.rs:508-607 | the same for each link of the chain |
| `ComposeExtends.ApplyExtends` | crates/ingot-cli/src/compose.rs:494-502 | succeeds iff every service resolves, with each service replaced by its resolution |
| `BlobFetch.PublishesOnlyVerified` | crates/registry/src/client.rs:717-886 | whatever the registry sends, success publishes bytes with the requested digest and their exact length, failure publishes nothing, and at most four attempts are made |
| `BlobFetch.ServedFetch` | crates/registry/src/client.rs:717-886 | against a registry serving the blob, the part file is always a prefix of it and success publishes the blob itself |
| `BlobFetch.ServedFetchSucceedsIff` | crates/registry/src/client.rs:717-886 | against such a registry the download succeeds iff some answer within four attempts is a whole body and every earlier one was worth a retry |
| `BlobFetch.ServedAttempt` | crates/registry/src/client.rs:755-886 | one attempt against a registry that sends the bytes behind the leftover with a 206 and the whole blob with any other success: the part file stays a prefix, and a body that arrives whole completes and publishes the blob |
| `BlobFetch.SpoiledLeftoverHeals` | crates/registry/src/client.rs:875-885 | a leftover that completes to the wrong digest is dropped and the next whole body is published |
| `BlobFetch.AttemptIs` | crates/registry/src/client.rs:755-886 | what an attempt does for every status and ending: a 206 appends to the leftover, any other success starts over, a 416 drops the leftover, another failure keeps it, a wrong digest drops it, an interrupted body leaves exactly what was flushed; which errors are worth a retry |
| `BlobFetch.ResumePublishes` | crates/registry/src/client.rs:816-886 | a whole 206 over a leftover publishes leftover and body |
| `BlobFetch.RefusedRangeHeals` | crates/registry/src/client.rs:793-799 | after a 416 a whole 200 publishes its body, whatever the leftover was |
| `BlobFetch.ServedAttemptIff` | crates/registry/src/client.rs:755-886 | against such a registry an attempt succeeds iff its body arrives whole, and its failure is retried iff worth it |
| `BlobFetch.Download.FetchBlobAttempt` | crates/registry/src/client.rs:755-886 | performs the attempt of `BlobFetch.AttemptIs`: statuses, resume or restart, stall, digest check, publication |
| `BlobFetch.Download.FetchBlobToFile` | crates/registry/src/client.rs:717-750 | skips a blob that is there, otherwise the retry loop |
| `BlobFetch.Download.HashPrefix` | crates/registry/src/client.rs:818-836 | re-hashes the whole leftover block by block |
| `BlobFetch.HashingWriter.WriteChunks` | crates/registry/src/client.rs:846-866 | file, hash and count advance together over any chunking |
| `MuxStream.Session` | crates/ingot-cli/src/client.rs:288-430 | for every way of cutting the stream into reads, handshake and frame loop show what decoding the whole stream at once shows |
| `MuxStream.UpgradeStream` | crates/ingot-cli/src/client.rs:288-316 | splits at the first blank line wherever reads fall, losing and repeating no byte; fails exactly when there is none or the status is not 101 |
| `MuxStream.HandshakeShows` | crates/ingot-cli/src/client.rs:288-430 | a header, CR LF CR LF and encoded frames show exactly those frames, stream 2 as stderr, iff 101 stands before the first line feed of the header; otherwise the upgrade fails |
| `MuxStream.NoBlankLineCloses` | crates/ingot-cli/src/client.rs:288-316 | a stream without CR LF CR LF is one that closes during the handshake |
| `MuxStream.AttachedStream.Drain` | crates/ingot-cli/src/client.rs:394-430 | emits every complete frame and keeps the rest |
| `MuxStream.AttachedStream.Run` | crates/ingot-cli/src/client.rs:394-430 | over any reads, emits the decoding of all bytes |
| `MuxStream.AttachedStream.RunTty` | crates/ingot-cli/src/client.rs:394-430 | on a terminal, bytes pass through unframed |
| `MuxStream.DecodeAppend` | crates/ingot-cli/src/client.rs:394-430 | decoding a prefix and then the remainder equals decoding the whole |
| `MuxStream.HeaderEndStable` | crates/ingot-cli/src/client.rs:288-316 | more bytes never move a header end already found |
| `MuxStream.DecodeEncoded` | crates/ingot-cli/src/client.rs:394-430 | encoded frames come out in order, before whatever follows them |
| `MuxStream.EncodeDecode` | crates/ingot-cli/src/client.rs:394-430 | a concatenation of encoded frames yields exactly those frames and nothing left over |
| `MuxStream.EncodeIs` | crates/ingot-cli/src/client.rs:394-430 | the frame header: stream, three zero octets, the length with its high octet first, then the payload |
| `DnsWire.ExtractQueryNameType` | crates/network/src/dns.rs:189-221 | the parsing loop ends in bounds on every byte string and computes the parse, for any substitution of what is not UTF-8 |
| `DnsWire.ParseEncoded` | crates/network/src/dns.rs:189-221 | inverts the name encoding of section 4.1.2 of RFC 1035, label by label, ASCII ones unchanged, and reads the type; `DnsNames.ParsedNameIs` says what the name is |
| `DnsWire.ScanEncoded` | crates/network/src/dns.rs:193-212 | the label scan returns the labels and stops at their terminator |
| `DnsNames.ParsedNameIs` | crates/network/src/dns.rs:189-221 | the parsed name, cut at every dot, is the labels in order with A to Z as a to z and every other byte unchanged; only the root has no name; the type is the two octets behind it |
| `DnsNames.CaseBlind` | crates/network/src/dns.rs:215-219 | questions whose labels differ in ASCII case alone parse to the same name |
| `DnsNames.ParseRejects` | crates/network/src/dns.rs:189-207 | no name and type A for a message without a header, and for any labels that lead to a length octet of 64 or more or to a label cut short |
| `DnsNames.CutTypeIsA` | crates/network/src/dns.rs:208-214 | a question whose type is cut off asks for A |
| `DnsWire.ReplyReparses` | crates/network/src/dns.rs:224-252 | A and AAAA replies parse as their query does, to the name and type asked for |
| `DnsWire.ClientReadsAddress` | crates/network/src/dns.rs:224-252 | an independent record reader finds, first after the question, the asked name with exactly the given type and address |
| `DnsWire.AddressComesFirstIff` | crates/network/src/dns.rs:224-252 | for every query that ends with its question or goes on with a whole record of any owner name, the client reads the address first iff nothing follows the question or that record is the answer itself |
| `DnsWire.OptRecordComesFirst` | crates/network/src/dns.rs:224-252 | for every query that carries an OPT record behind its question, that record and not the address comes first |
| `DnsWire.AnswerKeepsQuestion` | crates/network/src/dns.rs:224-252 | an answer to any complete question asks the same question |
| `DnsWire.ErrorKeepsQuestion` | crates/network/src/dns.rs:119-127 | an error reply parses as its query, whatever the query |
| `DnsWire.PatchAnswer` | crates/network/src/dns.rs:224-252 | the patched and extended buffer of both answers |
| `DnsWire.PatchError` | crates/network/src/dns.rs:119-127 | the patched buffer of an error reply |
| `DnsNames.BuildersAnswer` | crates/network/src/dns.rs:224-252 | out of the reply to a plain question a client reads the asked name with an A record of the four octets, or an AAAA record of the sixteen, class IN and TTL 0 |
| `DnsNames.AnswerHeader` | crates/network/src/dns.rs:224-252 | an answer sets the response and recursion bits and one answer, keeps the response code and the rest of the query, and puts the record behind it |
| `DnsNames.ErrorHeader` | crates/network/src/dns.rs:119-127 | an error reply carries the given response code, sets both bits and changes nothing else |
| `DnsNames.NoHeaderNoReply` | crates/network/src/dns.rs:119-252 | a message without a header comes back as it is from all three builders |
| `DnsNames.SelectionIs` | crates/network/src/dns.rs:172-186 | an A answer iff the question is not AAAA and the name has that v4 address, AAAA iff it is and the name has that v6 address, no data iff it is and only v4 is known |
| `DnsNames.AttachedNameAnswers` | crates/network/src/dns.rs:172-186 | a name of an endpoint just attached resolves to its v4 address, and for AAAA to its v6 address or to no data |
| `DnsWire.OwnedNamesStayHome` | crates/network/src/dns.rs:172-186 | with the registries the network manager keeps, a name is forwarded iff it is in neither, and answers are leased addresses of that network |
| `DnsWire.ForwardsKnownIff` | crates/network/src/dns.rs:172-186 | the selection forwards a name it knows iff it knows it only as AAAA and is asked for something else |
| `DnsWire.KnownNameForwardedIff` | crates/network/src/dns.rs:172-186 | over two registries, some question about a known name is forwarded iff a name is in the AAAA registry alone |
| `ImageRef.RoundTripIff` | crates/registry/src/reference.rs:21-80 | for every whitespace-free input that parses, parsing its printed form gives it back iff a Docker Hub repository is `library/` plus one non-empty segment or starts with a segment that is no host |
| `ImageRef.CanonicalRoundTripIff` | crates/registry/src/reference.rs:53-80 | the same for every canonical reference |
| `ImageRef.ParseCanonical` | crates/registry/src/reference.rs:21-50 | what every successful parse satisfies: registry, repository, tag and digest in canonical form |
| `ImageRef.ParseParts` | crates/registry/src/reference.rs:21-143 | what every form `[host/]repo[:tag][@digest]` parses to: docker.io without a host and under its three names, `library/` before a single segment there, `latest` with neither tag nor digest, an error for a digest that is not sha256 and for a missing repository |
| `ImageRef.SpaceAround` | crates/registry/src/reference.rs:21-50 | white space around a reference is ignored, and white space alone is an error of its own |
| `ImageRef.DisplayRef` | crates/registry/src/reference.rs:58-80 | the printer's pushes build the printed form |
| `ImageRef.NestedOfficialIsLost` | crates/registry/src/reference.rs:128-134 | an input that parses to a reference whose printed form names another |
| `ImageRef.SplitOnce` | crates/registry/src/reference.rs:107-125 | splits at the first separator, or not at all when there is none |
| `ImageRef.RSplitOnce` | crates/registry/src/reference.rs:136-143 | splits at the last separator, or not at all when there is none |

## Left out

- Store: write failures (a write happens or the daemon dies), the `sha256:` prefix
  of digests (digests are in short form), record files that do not parse, the
  one-second list cache, `list_effective`, and lookup by name or prefix.
- Store: a put that gives a stored record fewer tags is no step; the callers that
  rewrite a record go through the merge or through `tag`.
- Store: the clean runs of `ImageRuns` install by the load path, collection included; what
  pulls, builds and loads of an image in use do to a clean store is in `ImageLimits`.
  Partial files of a download under way are `BlobFetch`'s.
- Store: a stray directory's name starts with a dot and no digest does, so none is taken
  for a layer. Which strays the builder cache's text happens to contain is a field.
- Store: that no config digest is also a layer digest is a condition on the records,
  because the blob collector looks only at layer references.
- SHA-256, gzip, tar, JSON and YAML: hashes and unpacking are parameters.
- LayerCache: the staging directory's own name and the size and count budgets of an
  unpack; a failed unpack leaves nothing behind.
- Networks: each manager call is one atomic step. The source releases its locks
  between checking and saving, and two creations interleaved there are not modelled.
- Networks: looking a network up by name, the driver check, search domains and
  names registered apart from an attach; bridges, veth pairs and packet filters are
  reduced to whether they succeeded; publishing of ports.
- Networks: persisted records read back at boot are not modelled; runs start from a
  first boot.
- V6Carver.AssignV6Subnet: the FNV-1a hash of the network id is an arbitrary number.
- Ipam.Leases.AllocateLowest: the v4 and v6 tables are one class with the family as a
  field, where the source has twin methods.
- Subnets.ParseIs: the textual form of an address is not parsed, and the panic a debug
  build raises at v4 /0 is not modelled.
- ComposeExtends.ResolveIs: bases in other files are left out, since their identity
  depends on how paths are spelt.
- BlobFetch.Download.FetchBlobToFile: waits, Retry-After and authentication are left
  out, and local file operations succeed.
- DnsWire.ParseEncoded: how invalid UTF-8 is replaced is a parameter that leaves ASCII alone.
- DnsWire: search-domain expansion, upstream forwarding and sockets.
- ImageRef.RoundTripIff: inputs with white space inside are left out.
- ImageRef.ParseParts: repositories that hold a colon or whose first of several segments looks
  like a host are left out, since what is written then reads as other parts.
- The builder, the container runtime, the HTTP API, registry authentication and push,
  and the command line.
