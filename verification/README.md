# Virter, modelled and proved

Virter runs virtual machines on libvirt and keeps their disk images as layers. This project models
the parts where it is easy to go wrong and proves what they promise, in Dafny:

- **The layer store.** A pool holds tags, immutable layers named by their digest, and working volumes.
  Each has at most one backing layer, whose name is part of the volume's own content. Layers are
  collected by walking a chain until one is still in use; `image prune` does that for every layer.
- **Machines.** Starting, removing and committing a machine are sequences of libvirt calls on domains,
  volumes and DHCP entries. Any call may fail; what is left then can be removed, or finished, later.
- **Identifiers.** One number decides a machine's MAC and IP address, its host entry and, in a batch, its name.
- **Disks.** Each disk gets a target device, lettered per bus.

The state of the host is a `Libvirt.Connection`, changed in place. Its calls fail nondeterministically;
`faults` counts the failed ones and `deleteFaults` the failed volume deletions among them. Every operation
is a method over it, proved equal to a function of the state when no call fails, with its own clauses for the
other cases. The theorems are about those functions, or about all runs and interleavings of the operations.

`Volumes` and `Collector` hold the store and mark-and-sweep, `Layers` and `Images` the operations on it,
`Digests` content addressing, `Interruptions` what operations that break off leave behind. `Addresses`, `Dhcp`
and `NetworkAdd` do the arithmetic, `Pairs` tells which MAC and which address belong together, `DriveLetters` and
`Devices` name the disks. `Machines`, `Removal`, `Lifecycle` and `Commit` are the machine's life, `Batch` several
starts at once, `Histories` whole runs of the program and `Pairing` its host entries over such runs.

Check with `dafny verify dfyconfig.toml`.

## Where the code does less than its comments say

The model follows the code. In each case a lemma gives the exact condition, or a case that fails.

- The search for a free identifier asks for the wanted identifier in every round, never for the one it is at
  (`internal/virter/dhcp.go:391-392`). It therefore always hands out the same one, free or not
  (`Dhcp.VmIdIsFree`, `Dhcp.SearchMayReturnUsedId`). In a network with one host bit there is nothing to try;
  with none the upper end wraps around, and what is handed out lies outside the network (`Dhcp.SearchLeavesTinyNetwork`).
- An identifier from 2^63 on becomes negative (`internal/virter/dhcp.go:29`), and negative numbers count from a
  network's end. Two identifiers that are both given explicitly and both free can so get one address, such as 255 and
  2^64 - 1 in a network of 256 (`Pairs.TwoIdsOneAddress`). Exactly two identifiers 2^64 less the network's size apart do
  (`Pairs.PairedExactly`), and an entry keeps addresses apart exactly if its identifier's counterpart has none
  (`Pairs.AddKeepsUnsharedExactly`). Below 2^63 there are no counterparts (`Pairs.SmallIdsUnshared`).
- An identifier that was searched for may have an entry already; its MAC then gets a second one, and exactly then the
  pairing breaks (`Pairing.StartedPairedExactly`).
- Retagging an image collects the old tag's chain before it refers to the new top. It fails, and loses both,
  exactly if only the old chain stands on the new top (`Digests.RetagSucceedsExactly`, `Digests.RetagToBaseLosesImage`).
- Turning a volume into a layer takes a failing lookup for an existing layer, and after a failing deletion
  deletes the layer without asking who uses it. That breaks chains exactly if somebody does
  (`Layers.ConversionSoundExactly`, `Layers.CleanupMayBreakChains`, `Histories.StepHealthyExactly`).
- Copying a volume to its layer can break off, or even go through, with another content under the digest's name:
  a broken upload is left behind, and a broken download is only logged (`internal/virter/layer.go:245-261`, `385-462`).
  An operation can do that exactly if it gets to store a layer that is not there yet (`Interruptions.CloneNamesExactly`,
  `Interruptions.ImportNamesExactly`, `Interruptions.StreamNamesExactly`, `Interruptions.CommitNamesExactly`). Later
  imports take the misnamed layer for the listed one (`Interruptions.BrokenImportStays`, `Interruptions.RepeatedImportPasses`).
- An import stores each layer under the digest it is listed under, without checking it (`internal/virter/image.go:428`).
  Content addressing is therefore proved for images that list the right digests.
- Removing a machine also collects its image's top layer, if nothing else holds it (`Lifecycle.RemoveUndoesRun`).
- Waiting for a shutdown ends at a poll that fails, as if the machine had stopped (`internal/virter/vm.go:556-568`).
  The commit then removes a machine that may still run (`Commit.VmShutdown`, `Commit.VMCommit`).
- Committing a running transient domain shuts it down, which makes libvirt forget it; its volumes other than
  the boot volume, and its host entries, are then never deleted (`Commit.CommitClearsMachine`, `Commit.CommitDropsEntries`).
- The DHCP range of a network is only usable if the interface address is not among the last ones
  (`NetworkAdd.RangeIsGood`).
- A download that breaks off while an image's layers are listed is only logged (`Images.LocalImage.Layers`).

## Model

| member | source | states |
|---|---|---|
| Volumes.CreateSound | internal/virter/layer.go:126-188 | a new volume on an existing layer keeps every backing present and every chain finite, also if a volume of that name existed before |
| Volumes.DeleteSound | internal/virter/layer.go:524-565 | deleting what nothing is backed by keeps every backing present and every chain finite |
| Volumes.SweepSkipsUnreferenced | internal/virter/layer.go:524-565 | a layer that nothing is backed by is garbage, and sweeping with or without it is the same |
| Volumes.NothingToSweep | internal/virter/layer.go:519-565 | a sound pool all of whose layers are in use holds no garbage: following references upwards always ends at a tag or working volume |
| Volumes.SweepKeepsChains | cmd/image_prune.go:55-74 | a sweep leaves the chain of every tag and working volume complete and as it was |
| Collector.InterruptedCollect | internal/virter/layer.go:487-517 | a chain deletion cut short after any number of deletions leaves a sound part of the pool, which sweeps to the same, with every other root still there |
| Collector.CollectSucceeds | internal/virter/layer.go:487-517 | in a sound pool the walk fails exactly if it cannot read what it starts at |
| Collector.ExactCollection | internal/virter/layer.go:487-517 | in a pool without garbage, deleting a tag or working volume leaves exactly what the other roots reach, and the count is the number of volumes removed |
| Collector.CollectRemovesExactly | internal/virter/layer.go:487-517 | the walk removes a volume exactly if each one between it and the start is backed into by its upper neighbour only |
| Collector.PruneIsSweep | cmd/image_prune.go:55-74 | deleting chains for every layer in any order, repeated and vanished ones included, is mark-and-sweep |
| Libvirt.Connection.CreateVolume | internal/virter/libvirt_test.go:133-145 | creating a volume adds it empty on its backing, or changes nothing; a taken name is refused |
| Libvirt.Connection.DeleteHostEntry | internal/virter/libvirt_test.go:271-311 | one entry is deleted if it occurs exactly once |
| Libvirt.Connection.UndefineDomain | internal/virter/libvirt_test.go:413-434 | an active domain becomes transient, an inactive one ceases to exist |
| Layers.Delete | internal/virter/layer.go:464-483 | deleting a missing volume succeeds; a failure changes nothing |
| Layers.DeleteIfUnused | internal/virter/layer.go:519-565 | deletes exactly what no volume is backed by |
| Layers.DeleteAllIfUnused | internal/virter/layer.go:485-517 | without failing calls it is the chain deletion, with its count; otherwise it is that up to some point |
| Layers.CloneAs | internal/virter/layer.go:384-462 | yields a copy under the new name or a remainder of one, whose content is only known if no call failed, and nothing else changes |
| Layers.ToVolumeLayer | internal/virter/layer.go:342-382 | finds or clones the layer and deletes the source; whatever fails, it ends in one of the listed ways: unchanged, a copy beside the source, the source gone, or the layer gone after a failed deletion |
| Layers.DeletionSoundExactly | internal/virter/layer.go:371-378 | taking a layer away leaves a sound pool exactly if nothing is backed by it |
| Layers.ConversionSoundExactly | internal/virter/layer.go:342-382 | every way a conversion can end is sound, exactly if no volume stands on the layer it is to become |
| Layers.CleanupMayBreakChains | internal/virter/layer.go:371-378 | a pool and an ending of the conversion that does break a chain |
| Images.FindImage | internal/virter/image.go:262-283 | the tag's top layer, none for a missing tag, an error for a foreign backing |
| Images.MakeImage | internal/virter/image.go:288-340 | without failing calls it is the retagging; otherwise nothing changes, or the chain of a tag that points elsewhere is collected up to some point; always sound |
| Images.ImageSpawn | internal/virter/image.go:250-257 | a new working volume on the image's top layer, or nothing |
| Images.SpawnExactly | internal/virter/image.go:250-257 | that volume is made exactly if its name is free and the top layer is there, empty and on that layer; otherwise nothing changes |
| Images.ImageRm | internal/virter/image.go:478-497 | removes the tag and what it alone kept; a missing tag is no error; cut short it is that up to some point |
| Images.ImageImport | internal/virter/image.go:343-442 | without failing calls it is the import; whatever fails, it ends after some turns of its loop, in the middle of one, or in the retagging after all of them; always sound |
| Images.ImageImportFromReader | internal/virter/image.go:445-472 | without failing calls one layer without backing and the tag on it; whatever fails, it ends in the upload, the conversion or the retagging; sound unless a deletion failed and the layer is in use |
| Images.LocalImage.Layers | internal/virter/image.go:60-89 | the chain of the top layer, base first, by a walk that ends; later calls answer from the cache |
| Images.LayersUnique | internal/virter/image.go:60-89 | a top layer has one list of layers only |
| Images.LayersExist | internal/virter/image.go:60-89 | in a sound pool every layer has one |
| Images.LocalImage.ConfigFile | internal/virter/image.go:110-131 | the digests of exactly those layers, in that order |
| Images.LayerList | internal/virter/layer.go:203-225 | all layers of the pool and nothing else |
| Images.PruneLayers | cmd/image_prune.go:50-74 | without failing calls the pool is swept; otherwise it is a part that sweeps to the same |
| Images.ImagePrune | cmd/image_prune.go:20-74 | expired images go, then everything only they kept, and nothing else |
| Images.PruneKeepsRoots | cmd/image_prune.go:23-52 | of tags and working volumes it takes away the tags whose top layer has expired, only if it is asked to delete unused images, and no others |
| Digests.TopDigestDecides | internal/virter/layer.go:594-601 | two lists whose layers are named by their digests are equal exactly if their last digests are |
| Digests.SameTopSameImage | internal/virter/image.go:301-316 | comparing top layers, as retagging does, decides whether two images are the same layer for layer |
| Digests.UnchangedComparesWholeBase | cmd/image_build.go:355-384 | the build cache test holds exactly if the last step is the expected one and all other layers are those of the base image |
| Digests.DeduplicationRefinesCloning | internal/virter/layer.go:347-382 | found or cloned, the resulting layer is the same, the source is gone, and every layer is named by its digest |
| Digests.RetagSucceedsExactly | internal/virter/image.go:288-340 | retagging to an existing layer ends with the tag on it, except exactly if the old tag points at nothing, or only its chain stands on that layer; then both are lost |
| Digests.RetagSweeps | internal/virter/image.go:288-340 | in a pool without garbage a successful retagging leaves exactly what pointing the tag at the layer and sweeping would, and no garbage |
| Digests.RemoveImageExactly | internal/virter/image.go:478-497 | in a sound pool removing an image succeeds, its tag is gone, and what is left sweeps to the pool without the tag; in a pool without garbage it is that |
| Digests.RetagToBaseLosesImage | internal/virter/image.go:312-325 | a pool on which that happens |
| Digests.RetagKeepsNewTop | internal/virter/image.go:288-340 | after a successful retagging the image has the layers its top had before |
| Digests.RetagKeepsOthers | internal/virter/image.go:288-340 | every other image and working volume keeps its chain, whether the retagging succeeds or not |
| Digests.CollectKeepsOthers | internal/virter/image.go:478-497 | the same for removing an image |
| Digests.ImportRoundTrip | internal/virter/image.go:343-442 | an import of a well-formed list, whatever part of it is already there, succeeds exactly if no left-over volume is in the way and none of retagging's exceptions arises; then walking the image yields that list |
| Digests.ImportSucceedsExactly | internal/virter/image.go:343-442 | an import of any list succeeds exactly if image and layers have virter's media types, there is a layer, no left-over volume is in the way and none of retagging's exceptions arises; the tag then is on the last layer |
| Digests.StreamRoundTrip | internal/virter/image.go:445-472 | importing a stand-alone disk succeeds exactly if no working volume has the image's name and none of retagging's exceptions arises; the tag then is on an image of that one layer, with its content |
| Addresses.AddToMAC | internal/virter/dhcp.go:94-108 | fails exactly if the big-endian sum does not fit, else keeps the length and is the sum |
| Addresses.AddMacCollides | internal/virter/dhcp.go:94-108 | two addends give the same address exactly if they are equal or their sums only differ in sign |
| Addresses.AddMacInjective | internal/virter/dhcp.go:94-108 | different addends below 2^63 give different addresses |
| Addresses.IdFromMacUndoesAdd | internal/virter/dhcp.go:110-118 | the identifier read back from an address is the one that was added |
| Addresses.QemuFitsExactly | internal/virter/dhcp.go:74-83 | below 2^63 the identifiers that do not make `QemuMAC` panic are exactly those below 0xADAC00000000 |
| Addresses.QemuMacTotal | internal/virter/dhcp.go:74-92 | every one of these can be added to the base, and read back |
| Addresses.QemuMacInjective | internal/virter/dhcp.go:74-83 | no two of these share a MAC |
| Addresses.NetworkAddressValue | internal/virter/dhcp.go:26-27 | masking an address leaves the multiple of the network's size below it |
| Dhcp.GetVMID | internal/virter/dhcp.go:356-408 | for every 64-bit identifier: without failing calls the loop's answer, static entries, errors and the panic on an identifier without a MAC included; a result is only given if no call failed |
| Dhcp.VmIdIsFree | internal/virter/dhcp.go:353-408 | without static entries, for every 64-bit identifier: none is given where the network or its address is missing; one asked for is given exactly if it has a MAC and no entry; a search hands out the same one exactly if identifier 0 has none and there is not exactly one host bit; it is one of the network's exactly with two host bits or more |
| Dhcp.StaticIdHasEntry | internal/virter/dhcp.go:357-372 | with static entries an identifier is given exactly if it was asked for and the network has an entry for its MAC |
| Dhcp.SearchMayReturnUsedId | internal/virter/dhcp.go:383-392 | in every network the search either hands out nothing at all, or in some case a used identifier |
| Dhcp.SearchLeavesTinyNetwork | internal/virter/dhcp.go:380-392 | without host bits the upper end wraps around: the MAC handed out lies below the QEMU base and the address is the interface's own |
| Dhcp.AddDHCPHost | internal/virter/dhcp.go:20-46 | appends the entry that pairs the MAC with host number id of the network, or changes nothing |
| Dhcp.RemoveDHCPEntries | internal/virter/dhcp.go:224-239 | deletes the entries of the MAC and no other; cut short, the first few of them are gone, the others are there as they were, and nothing has come |
| Dhcp.RemoveMACDHCPEntries | internal/virter/dhcp.go:168-180 | on success the access network has exactly the entries of other MACs; cut short, all but the first few of this one as well; without failing calls it succeeds if the network exists and the MAC's entries are distinct |
| Dhcp.NetworkHostAdd | cmd/network_host_add.go:20-51 | for every identifier and count, wrap-around included: nothing is entered before all identifiers are known to be free; then the entries of the first few, on success of all; without failing calls it succeeds exactly if the first identifier is not 0 and every one is free and has an address in the network |
| Pairs.PairedIPExactly | internal/virter/dhcp.go:20-32 | the address for an identifier is the one in the interface's own network whose number, modulo the network's size, is the identifier as a signed word; there is none exactly if that word reaches past the network's beginning or end |
| Pairs.ReservedId | internal/virter/virter.go:194-195 | identifier 1, which no machine may have, is the interface's own address, exactly if that is the first one |
| Pairs.PairedExactly | internal/virter/dhcp.go:16-46 | entries for two identifiers have one MAC exactly if the identifiers are equal, and one address exactly if they are equal or counterparts, that is 2^64 less the network's size apart |
| Pairs.UnsharedExactly | internal/virter/dhcp.go:16-46 | of paired entries no two share an address, exactly if no two are for counterparts |
| Pairs.SmallIdsUnshared | internal/virter/dhcp.go:16-46 | entries for identifiers below 2^63 never share an address |
| Pairs.AddPairedExactly | internal/virter/dhcp.go:20-46 | one entry more keeps the entries paired, exactly if its identifier was free |
| Pairs.AddKeepsUnsharedExactly | internal/virter/dhcp.go:20-46 | one entry more keeps all addresses apart, exactly if the counterpart of its identifier has no entry |
| Pairs.AddedUnsharedExactly | cmd/network_host_add.go:31-51 | any number of entries for consecutive identifiers do, exactly if no counterpart has an entry and no two of them are counterparts |
| Pairs.TwoIdsOneAddress | cmd/network_host_add.go:20-51 | in every network with a host bit, two additions that both succeed and end in two MACs with one address |
| Pairing.StepPaired | internal/virter/dhcp.go:16-46 | every operation, whichever of its calls fail, keeps the entries paired if the identifiers it makes entries for are explicit, and unshared if these do not clash |
| Pairing.StartedPairedExactly | internal/virter/vm.go:186-258 | a start that makes an entry keeps the entries paired, exactly if the identifier it was given, or found, had none |
| Pairing.HistoryPaired | internal/virter/dhcp.go:16-46 | in every history of all operations with failing calls whose new entries are for explicit identifiers, every entry pairs the addresses of one identifier and no MAC is entered twice, at all times |
| Pairing.HistoryUnshared | internal/virter/dhcp.go:16-46 | nor is any address, as long as no operation asks for identifiers that clash with one another or with those entered |
| Pairing.HistorySharesExactly | internal/virter/dhcp.go:16-46 | at any moment of such a history no address is entered twice, exactly if there are no entries for counterparts; never, if the identifiers are below 2^63 |
| Pairing.SameIdSameAddress | internal/virter/dhcp.go:16-19 | between any two moments of such a history, equal MACs have equal addresses, and equal addresses equal MACs except exactly for counterparts |
| NetworkAdd.BuildNetworkDHCP | cmd/network_add.go:141-176 | fails exactly if some MAC overflows; else the range and one entry per consecutive identifier and address |
| NetworkAdd.RangeIsGood | cmd/network_add.go:141-151 | the range is nonempty, has at most 65535 addresses, lies within the network and leaves out the network, interface and broadcast addresses, exactly if an address follows the interface's before its end |
| NetworkAdd.RangeExactly | cmd/network_add.go:141-151 | a good range has all addresses of the network after the interface's and before the broadcast address, up to number 65535 |
| NetworkAdd.EntryMacsDistinct | cmd/network_add.go:158-169 | no two entries share a MAC, except exactly if their sums with the base only differ in sign, which takes identifiers from 2^63 on |
| NetworkAdd.EntryIPsDistinct | cmd/network_add.go:158-169 | no two entries share an IP, exactly if there are no more entries than addresses |
| NetworkAdd.EntriesInRange | cmd/network_add.go:141-176 | all entries lie in a good range exactly if it has room for them |
| NetworkAdd.EntriesArePaired | cmd/network_add.go:158-169 | for every 64-bit identifier: the entries are those AddDHCPHost would make exactly if the first identifier, counted from the network's beginning or its end, stands for the first address and there are no more entries than stay in step with it |
| NetworkAdd.NewNetworkPaired | cmd/network_add.go:141-176 | a network whose identifiers count from its beginning starts out with paired entries, no address shared |
| DriveLetters.DriveLetter.String | pkg/driveletter/driveletter.go:28-36 | the loop yields the letters of the number |
| DriveLetters.DecodeLetters | pkg/driveletter/driveletter.go:28-36 | decoding the letters gives the number back; only 0 has none |
| DriveLetters.LettersDecode | pkg/driveletter/driveletter.go:28-36 | every lowercase word is the letters of the number it decodes to |
| DriveLetters.LettersInjective | pkg/driveletter/driveletter.go:28-36 | different numbers have different letters |
| DriveLetters.LettersSucc | pkg/driveletter/driveletter.go:38-43 | counting on in numbers is adding one with carry on words |
| Devices.VmDisksToLibvirtDisks | internal/virter/libvirtxml.go:43-96 | fails exactly on an unknown bus; else the k-th disk of a bus gets the k-th letter behind the prefix of the bus |
| Devices.DevicesDistinct | internal/virter/libvirtxml.go:43-96 | no two disks of a machine share a target device |
| Devices.PrefixTellsBus | internal/virter/libvirtxml.go:23-27 | the first two letters of a target device are hd, sd or vd, exactly for ide, scsi and virtio |
| Devices.MachineDevices | internal/virter/libvirtxml.go:98-116 | every machine has its boot volume as vda and its configuration data as the drive sda; its other disks follow in order, each on its bus and in its format |
| Devices.LettersWithoutGaps | internal/virter/libvirtxml.go:43-96 | before each letter on a bus all earlier ones are given to earlier disks |
| Devices.AcceptedNeverFails | internal/virter/virter.go:174-185 | a configuration that passed the check never has an unknown bus later |
| Machines.AcceptedExactly | internal/virter/virter.go:174-204 | exactly what is accepted: memory and processors, any identifier but 1, disks on the three known buses in the two known formats, a VNC port from 5900 on |
| Machines.AnyImageExists | internal/virter/vm.go:46-71 | whether one of the machine's volumes exists |
| Machines.GetDomainForMAC | internal/virter/dhcp.go:241-263 | a domain is found exactly if some domain has an interface with the MAC |
| Machines.MacIsUnused | internal/virter/vm.go:190-201 | past the checks no interface of any domain has the machine's MAC |
| Machines.VMRun | internal/virter/vm.go:154-268 | for every 64-bit identifier: however a start ends, the state is that of a point of the sequence domain, volumes, entry, activity, and nothing has changed before all checks passed; without failing calls it succeeds whenever the checks pass and the steps are possible |
| Machines.RunMakesVolumes | internal/virter/vm.go:227-250 | as far as the start got, only the boot volume has the image below it, only the second volume has content, and no other volume has changed |
| Machines.RunMakesDomain | internal/virter/vm.go:190-225 | the domain has these volumes as disks, in order, and as its first interface one on the access network whose MAC is the base plus the identifier |
| Removal.VMRm | internal/virter/vm.go:333-407 | a removal that succeeds is the full one; without failing calls it is; cut short anywhere it is an attempt: host entries and volumes have only gone, the domain is there with its interfaces and disks and has at most been stopped and lost its oldest snapshots, and the final goal has not moved |
| Removal.RemoveDomainDHCP | internal/virter/dhcp.go:182-222 | removes the entries of the domain's interfaces, each in its own network; cut short, on every network entries have only gone, and removing the rest leads to the same end |
| Removal.RetriesConverge | internal/virter/vm.go:333-407 | a removal repeated until it succeeds ends like one that succeeded at once, except for unused layers; sweeping makes them equal |
| Removal.RemovalIsComplete | internal/virter/vm.go:333-434 | after a successful removal the domain and its doomed volumes are gone, every other root is there, and each network has lost exactly the entries for the domain's interfaces on it, or none with static entries |
| Removal.RemoveSucceedsExactly | internal/virter/vm.go:333-434 | without failing calls a removal succeeds, exactly unless it is to delete a foreign volume on a foreign backing; then the domain is still defined, but stopped and without snapshots |
| Removal.RemoveDropsEntries | internal/virter/vm.go:364-367 | even then its entries are gone, and no others |
| Lifecycle.RemoveUndoesRun | internal/virter/vm.go:154-268 | removing a machine whose start ended anywhere after defining it restores the state exactly, if and only if something else holds the image's top layer and no interface had an entry before |
| Lifecycle.ExplicitIdHasNoEntry | internal/virter/vm.go:191-195 | with an explicit identifier the access interface never had an entry |
| Lifecycle.RunKeepsNoRepeats | internal/virter/vm.go:249-258 | a start that found no entries for its interfaces leaves no network with a repeated one, which a removal could not delete |
| Lifecycle.StartAndRemove | internal/virter/vm.go:154-407 | a start and removals after it, any call of which may fail, where the machine's interfaces had no entries before or entries are static: once a removal succeeds, domains and entries are what they were and the volumes but for garbage; if no call of the removal failed and no network repeated an entry, it succeeds, and restores all if the top layer is held |
| Commit.VmShutdown | internal/virter/vm.go:535-572 | the machine stops or stays as it is; without failing calls it has stopped; a failing poll passes for that |
| Commit.VMCommit | internal/virter/vm.go:464-529 | without failing calls it is the commit; whatever fails, it ends before, during or after the removal of the stopped or still running machine, in the conversion or in the retagging; no domain appears or gets other disks |
| Commit.CommitRefused | internal/virter/vm.go:464-516 | without a machine, for a running one without permission to stop it, or a stopped one whose identity is to be reset, nothing happens at all; without a boot volume no image is made |
| Commit.CommitSucceedsExactly | internal/virter/vm.go:464-529 | a commit succeeds exactly if the machine is running only if it may be stopped, is running if its identity is to be reset, and none of retagging's exceptions arises |
| Commit.CommitDropsEntries | internal/virter/vm.go:504-507 | a commit that gets past its checks has removed exactly the entries for the machine's interfaces, none with static entries, and none of a transient domain that was shut down |
| Commit.CommitPreservesMeaning | internal/virter/vm.go:464-529 | the image then has the machine's base layers and one more with the boot volume's content, and the domain is gone |
| Commit.CommitClearsMachine | internal/virter/vm.go:483-520 | the machine's volumes are gone, except exactly when a transient domain was shut down and had some |
| Commit.CommitKeepsOthers | internal/virter/vm.go:464-529 | every other image and machine keeps its chain, whether the commit succeeds or not |
| Batch.VMNames | cmd/vm_run.go:179-213 | every machine of a batch has its derived name, and no two the same |
| Batch.NameTellsId | cmd/vm_run.go:192-204 | a supplied name stands alone exactly if the count was not given; every other name is the supplied one, or else the image's, then a dash and the identifier |
| Batch.MembersApart | cmd/vm_run.go:181-211 | two machines of a batch share neither a name, nor a MAC, nor any volume name, whatever the disks are called |
| Batch.InterleavingIsolated | cmd/vm_run.go:192-248 | in every interleaving of the calls, at every moment, each machine finds on what belongs to it exactly what its start alone would have made by then, and everything else is as before the batch |
| Batch.StepPossible | internal/virter/vm.go:154-268 | a start that has not ended always has a next step |
| Batch.AccessMacsStayDistinct | internal/virter/vm.go:190-204 | no two domains ever get the same access MAC |
| Batch.EntriesStayUnique | internal/virter/vm.go:249-258 | no MAC ever gets a second host entry |
| Batch.NoInterference | internal/virter/vm.go:154-268 | a machine that could be started alone never ends because of the others |
| Batch.StartableMachinesRun | cmd/vm_run.go:179-248 | over a whole interleaving such a machine is only lost to a failing call of its own |
| Interruptions.CollectedPartKeepsOthers | internal/virter/layer.go:487-517 | a collection, however far it gets, leaves the chain of every other root complete and as it was |
| Interruptions.ImportOutcomeKeepsOthers | internal/virter/image.go:343-442 | an import, however it ends, leaves every other image and volume with its chain |
| Interruptions.CommitOutcomeKeepsOthers | internal/virter/vm.go:464-529 | so does a commit, unless a deletion fails and volumes stand on the layer it is to make |
| Interruptions.StreamSoundExactly | internal/virter/image.go:445-472 | every ending of a stream import is sound, exactly if nothing stands on the layer it becomes or its upload cannot start |
| Interruptions.CommitSoundExactly | internal/virter/vm.go:464-529 | every ending of a commit is sound, exactly if nothing stands on the layer it is to make |
| Interruptions.CloneNamesExactly | internal/virter/layer.go:384-462 | every ending of a copy of a volume to its layer keeps layers named by their digests, exactly if the layer was there |
| Interruptions.ImportNamesExactly | internal/virter/image.go:360-441 | every ending of an import keeps layers named by their digests, exactly if no listed layer is missing or the first missing one is blocked by a left-over |
| Interruptions.StreamNamesExactly | internal/virter/image.go:445-472 | every ending of a stream import does, exactly if the layer is there or the upload cannot start |
| Interruptions.CommitNamesExactly | internal/virter/vm.go:464-529 | every ending of a commit does, exactly if it is refused, or the layer of the boot volume is there once the rest of the machine is gone |
| Interruptions.ImportYieldsExactly | internal/virter/image.go:393-404 | in any sound pool an import that passes yields the listed layers exactly if those already there were the listed ones |
| Interruptions.BrokenImportStays | internal/virter/image.go:393-404 | an import broken off at its first missing layer can leave it so that every later import that passes yields another image |
| Interruptions.RepeatedImportPasses | internal/virter/image.go:393-404 | a pool on which that import passes |
| Histories.StepHealthy | internal/virter/layer.go:126-188 | every operation, whichever of its calls fail, keeps every backing present and every chain finite, as long as no deletion fails or none that matters |
| Histories.StepHealthyExactly | internal/virter/layer.go:371-378 | with failing deletions that holds of an operation exactly if it is not a stream import or commit whose layer is in use |
| Histories.StepNamesExactly | internal/virter/layer.go:347-462 | whichever calls fail, an operation keeps layers named by their digests exactly if it does not get to store a new one |
| Histories.StepKeepsChain | internal/virter/layer.go:524-565 | whichever calls fail, an operation leaves the chain of every root it was not asked to touch as it was |
| Histories.HistoryHealthy | internal/virter/layer.go:347-462 | in every history of operations with failing calls every backing is present and every chain finite at all times |
| Histories.HistoryContentAddressed | internal/virter/layer.go:347-462 | in every such history every layer is named by its own digest, also when it is deleted and made again, if each operation that gets to store one does so without a failing call |
| Histories.HistoryKeepsChain | internal/virter/layer.go:524-565 | in every such history a root keeps its whole chain, volume by volume, until an operation names it |
| Histories.HistoryKeepsImage | internal/virter/image.go:250-497 | in every such history an image keeps the same list of layers until an operation names its tag |
| Histories.Perform | internal/virter/image.go:250-497 | each operation on images, machines and host entries, whichever of its calls fail, is one step of such a history; if none fails and no network repeats an entry, it comes to the full operation |

## Left out

- Sizes and formats of volumes, host keys, metadata, memory and processors: they do not interact with the properties above.
- Several storage pools: one pool holds everything, so a disk configured for another pool is modelled in the same one.
- libvirt's protocol and XML: a call goes through or fails; volume creation and domain definition refuse a taken name, and a host entry is deleted only if it occurs exactly once. These are assumptions about libvirt.
- `patchedNetworkUpdate` and its argument order: an entry is added to, or deleted from, the named network.
- SHA-256, gzip and qcow2: a digest is any function of content and backing name, injective where a lemma says so. An uploaded or cloned file carries the backing it was created with.
- Registry transport, download and name parsing: an import starts from the list of layers.
- Image load, save and squashing, and provisioning: nothing in them changes the store beyond the operations modelled.
- Guests writing to their disks during other operations: a guest's write is an operation of its own in `Histories`.
- The timing of a shutdown: the request is one call and the polling another; what the guest does after a failing poll or a timeout is left open. The command that resets the machine identity is one call.
- `dhcp_release`, whose errors the program ignores.
- go-cidr's functions are modelled as arithmetic on numbers, with its wrap-around and its errors.
- MAC addresses as text: a MAC is its bytes.
- VNC and GDB ports: the VNC port is shared by a whole batch, so nothing is claimed about it.
- Two virter processes at once: the program has no lock and promises nothing there. Interleavings are those within one batch.
- Batch.InterleavingIsolated: reads of what no machine of the batch changes are one step with the call after them: the host's capabilities with the domain lookup, the network's address with the identifier check and with the new host entry, the image's top layer with the boot volume on it. A read that fails fails the step.
- Batch.MembersApart: a batch's identifiers are given explicitly, from 2 on and below 0xADAC00000000; identifier 1 is refused, 0 starts a search, and from 2^63 on members could share a MAC or an address.
- Histories.HistoryHealthy: a history in which a deletion fails in an operation that has to clean up a layer in use is excluded; `Histories.StepHealthyExactly` shows that soundness can then be lost.
- Lifecycle.RemoveUndoesRun: the access network has a nonempty name, because interfaces without a network are skipped when entries are removed.
- Removal.VMRm: that the removal succeeds without failing calls is stated for networks that do not list an entry twice; libvirt refuses to delete such an entry.
