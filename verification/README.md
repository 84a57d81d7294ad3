# A model of the FAT12 library and of the put, move and delete commands

f12 keeps files in FAT12 images. This project models its library (`src/libfat12`) and the commands on top of it, and
proves what they promise. The format is that of the Microsoft EFI FAT32 File System Specification 1.03 (fatgen103),
sections "Boot Sector and BPB", "FAT Data Structure", "FAT Volume Initialization" and "FAT Directory Structure".

## How the model is built

There are two layers. The lower one follows the code: byte buffers and tables are arrays, the image is an object with
a position, directory slots are objects with a record, a table of slots and a parent link, and loops and recursions
stand where the code has them. The upper one is made of values: a disk (boot area, FAT area, root table, clusters), a
FAT table, and a tree of slots with addresses. Every method is proved to compute a function on these values; what the
program promises is then proved about the functions.

| files | content |
|---|---|
| `Bytes`, `Multiplication`, `Options`, `Errors`, `Records`, `Bpb`, `Disks` | bytes, directory records, parameter block, areas of an image, the image object |
| `Fat`, `FatPacking`, `FatSectors`, `Layouts`, `ChainIo` | chains, first-fit allocator, 12-bit packing, table size, layouts by image size, chain input and output |
| `Trees`, `DirectoryTables`, `DirectoryWrites`, `Volumes` | the directory tree, its storage, failing writes, metadata as a value, soundness |
| `Creation`, `Lookups`, `Placing`, `Files`, `Contents`, `Putting` | making directories, entries and files, and what files hold |
| `Moves`, `DotMoves`, `DotCuts`, `DotLookups`, `Walks`, `Rewriting`, `Deletion`, `Tidiness`, `Runs`, `RecursiveOption`, `SmallVolumes`, `Witnesses`, `Promises`, `PutPromises` | moves, the walk of a move, repeated writes, deletions, unique names, whole runs of commands, small volumes as examples, what the commands promise |
| `ShortNames`, `Paths`, `NameForms` | 8.3 names and path strings |
| `ImageFormat` | byte positions in an image file |
| `DirectoryEntries`, `DirectoryIo`, `Scanning`, `MetadataIo`, `MetadataReading`, `EntryCreation`, `FileIo`, `EntryMoves`, `EntryDotMoves`, `EntryWalk`, `EntryDeletion`, `EntryPaths`, `Commands` | the code on slot objects and on the image |

A volume is *sound* when its layout fits, its table is 12-bit with the two entries that are not persisted free, and
in its tree a live file has no chain or a complete one in the data area, a live directory a complete one below 64 KiB
with room for its slots, free slots and dot entries are leaves, free slots lack the directory attribute, and no two
references share a cluster.

## What the proofs show about the code

* An empty file can never be put: the allocator answers a request for no cluster with 0, which is read as a full image.
* A file whose clusters reach 64 KiB is rejected, because chain sizes are kept in 16 bits; the disk is unchanged.
* A path that ends in two slashes after its leading slash leaves a pointer unset that is used afterwards.
* A name with a space inside is counted too short, so printing its path writes before the buffer.
* The walk that prints the move of a directory leaves it or its tables exactly when it has no slots or a directory that
  is entered is in a last slot.
* The computed table size covers the data clusters up to half a byte, but not always the entries that are packed: of
  the ten image sizes with a layout of their own, 1200 KiB gets a table that is too small.
* For 320 KiB the root directory does not fill whole sectors, and the first data cluster lies on it.
* The allocator also hands out clusters behind the data area, exactly when too few are free in it but enough in the
  whole table.
* Parsed paths contain no dot, so `f12_move` never reaches the branch of `lf12_move_entry` for "."; only a caller of
  the library does. With a destination below an entry of the source that branch loses all entries of the source: it
  cuts off the entry that the destination lies in, with those that were moved before, and moves the later ones there.
* A soft deletion changes nothing, not even for an empty directory.
* `f12_move` and `f12_del` compare the number of slots, not of used slots, with two: they ask for the recursive option
  for every directory with a chain of at least 96 bytes, so for every one that the library made.
* `f12_move` does not look for an entry of the same name at the destination. The image stays sound then, but one of the
  two entries is hidden: the moved one if the other lies before the free slot that it gets, else the other. When moves
  avoid it, names stay unique from an empty partition on.
* Metadata with a directory of 64 KiB or more are written in part: the write stops at the first such directory, after
  the parameter block and the tables and before the root table.

Where preconditions stand for something the code does not check, they say so: requests for clusters are served from
the data area or not at all, a put does not replace a directory, and the layout conditions named above.

## Model

| member | source | states |
|---|---|---|
| Fat.CreateClusterChain | src/libfat12/io.c:727-763 | the counting loop and the linking loop together compute the allocator specification `Allocate`, for every count and every table |
| Fat.AllocateFirstFit | src/libfat12/io.c:744-763 | a satisfied request for `count >= 1` clusters is exactly the chain of the `count` lowest free clusters in increasing order; every other entry and every non-zero entry keeps its value |
| Fat.AllocateFails | src/libfat12/io.c:734-742 | the answer is 0 if and only if no cluster was requested or fewer than `count` are free, and then (for too few) the table is unchanged |
| Fat.AllocateUsesUp | src/libfat12/io.c:744-763 | afterwards the free clusters are the remaining ones in the same order, so the free count drops by `count` |
| Fat.AllocateBelow | src/libfat12/io.c:744-763 | with enough free clusters below a limit, first fit stays below it and leaves that many fewer there |
| Fat.AllocateBelowIff | src/libfat12/io.c:744-763 | the clusters handed out are below a limit if and only if that many are free below it |
| Fat.ChainBelowIff | src/libfat12/io.c:744-763 | so the allocated chain stays below the limit exactly then |
| Witnesses.AllocateBeyond | src/libfat12/io.c:744-763 | a sound volume for which the allocator answers a cluster behind the data area |
| Fat.AllocateKeptOutside | src/libfat12/io.c:744-763 | then all entries outside the data area keep their values and 12-bit tables stay 12-bit |
| Fat.ChainLength | src/libfat12/io.c:33-46 | the loop terminates on every complete chain and returns the number of its clusters |
| Fat.ChainIsUnique | src/libfat12/io.c:33-46 | a first cluster determines its chain |
| Fat.ChainIsAcyclic | src/libfat12/io.c:33-46 | a complete chain visits no cluster twice |
| Fat.ClustersSurvive | src/libfat12/io.c:744-763 | a chain is the same chain in every table in which no non-zero entry changed |
| FatPacking.PackingRoundTrip | src/libfat12/io.c:10-19 | for every 12-bit table whose entries fit the buffer, reading entry i of the packed table gives entry i, although neighbours share a byte that is stored twice |
| FatPacking.CreateFat | src/libfat12/io.c:522-549 | the packing loop fills a zeroed buffer with exactly the stores of the specification, including the rewritten shared byte |
| FatPacking.StoresInBounds | src/libfat12/io.c:535-546 | all two-byte stores stay inside the buffer if and only if (3n+1)/2 bytes fit |
| FatPacking.UnpackFat | src/libfat12/io.c:339-341 | every persisted entry is unpacked and the entries beyond them keep their values |
| BiosParameterBlock.BpbRoundTrip | src/libfat12/io.c:369-390 | decoding the 59 bytes that write_bpb stores gives the same parameter block |
| BiosParameterBlock.OffsetIsClusterStart | src/libfat12/io.c:21-31 | the sector arithmetic of the code addresses the byte where the cluster starts in the data area |
| BiosParameterBlock.ClusterInImage | src/libfat12/io.c:21-31 | every data cluster lies behind the root directory and inside the image |
| BiosParameterBlock.ClustersApart | src/libfat12/io.c:21-31 | different data clusters are at least a cluster size apart, so the offset is injective |
| BiosParameterBlock.FatLayout | src/libfat12/io.c:604-629 | the copies of the FAT follow the boot area one after the other and end before the root directory |
| BiosParameterBlock.AreasFit | src/libfat12/io.c:783-785 | boot area, FAT copies, root directory and data clusters follow each other inside the image |
| BiosParameterBlock.RootGap | src/libfat12/io.c:21-31 | the first data cluster starts right behind the root directory if that fills whole sectors, and otherwise on its last, partial sector |
| Layouts.PresetNumbers | src/create.c:97-185 | for each image size with a layout of its own, the sectors of the image and of a table that f12_create computes |
| Layouts.TableIsComputed | src/create.c:36-73 | in each of these layouts the sectors of a table are those that _f12_sectors_per_fat computes from the other fields |
| Layouts.PresetsSound | src/create.c:97-185 | these layouts are sound except for 1200 KiB, where the kept entries overrun the table, and 320 KiB |
| Layouts.Overlap320 | src/create.c:154-162 | for 320 KiB the first data cluster lies on the root directory, against the comment in the source that root entries fill whole sectors |
| FatSectors.SectorsPerFat | src/create.c:19-73 | the floating-point computation, cut to integers where ceil_div takes them, equals a formula in integers |
| FatSectors.TableHoldsClusters | src/create.c:36-70 | with the computed sectors a table holds floor(3(D+2)/2) bytes for the D data clusters that are left after all tables are taken off |
| FatSectors.BoundIsTight | src/create.c:36-70 | for 700 sectors the bound is reached: the last entry misses half a byte |
| FatSectors.KeptEntriesOverrun | src/create.c:36-70 | for 2400 sectors the 7 computed sectors are too few for the entries that create_fat packs, so it stores past the end |
| ChainIo.LoadClusterChain | src/libfat12/io.c:71-108 | the loop reads the clusters of the chain in order |
| ChainIo.WriteToClusterChain | src/libfat12/io.c:405-468 | with the 16-bit sizes of the code: it succeeds if and only if the truncated chain size passes both comparisons; then the data and zeros are in as many clusters of the chain as the data needs, otherwise nothing is written |
| ChainIo.TruncatedSizeCheck | src/libfat12/io.c:411-428 | for a chain as long as the data needs, the comparisons pass if and only if the chain is below 64 KiB |
| ChainIo.CountedRight | src/libfat12/io.c:412-465 | where whole clusters make up 64 KiB, the 16-bit counter of written bytes never wraps after a passed check |
| ChainIo.CounterWraps | src/libfat12/io.c:412-465 | where they do not, it can: 65024 bytes in a chain of 85 clusters of 1536 bytes pass the comparisons |
| ChainIo.EraseClusterChain | src/libfat12/io.c:118-154 | exactly the clusters of the chain become zeros |
| ChainIo.ChainSize | src/libfat12/io.c:48-60 | the product is the number of bytes of the chain |
| ChainIo.ChainRoundTrip | src/libfat12/io.c:71-108 | reading a chain after writing it gives the written bytes back |
| ChainIo.WriteChainFrame | src/libfat12/io.c:430-465 | writing a chain leaves every other cluster alone |
| Files.FileClustersFit | src/libfat12/io.c:918-921 | the chain computed for a file is long enough and less than one cluster too long |
| Files.ServedIffInData | src/libfat12/io.c:918-928 | the chain that lf12_create_file allocates stays in the data area if and only if the request is served from there |
| Records.RecordRoundTrip | src/libfat12/io.c:166-181 | decoding the 32 bytes that create_directory stores for an entry gives the entry back |
| Records.BytesRoundTrip | src/libfat12/io.c:560-592 | storing an entry that was read gives the same 32 bytes |
| Rewriting.ReadIsSettled | src/libfat12/io.c:644-680 | writing the directories of a tree that was read from an image changes no byte of them |
| Rewriting.WriteMetadataAt | src/libfat12/io.c:644-680 | what a metadata write stores for a directory depends on that directory only |
| DirectoryTables.TableRoundTrip | src/libfat12/io.c:560-595 | slot i of the stored table is the record of slot i, or an empty record behind the last slot |
| DirectoryTables.WriteDirReads | src/libfat12/io.c:644-680 | scanning what was written for a directory rebuilds its tree, each table filled up with empty slots |
| DirectoryTables.WriteDirFrame | src/libfat12/io.c:644-680 | writing a directory touches only clusters of the directories at and below it |
| DirectoryTables.ReadsIsUnique | src/libfat12/io.c:192-250 | the image and the record determine the scanned tree |
| DirectoryIo.CreateDirectory | src/libfat12/io.c:560-595 | the buffer is the table of the slots, zeros behind |
| DirectoryIo.WriteTable | src/libfat12/io.c:664-677 | the table goes to the chain of the directory; a chain of 64 KiB or more is refused and nothing is written |
| DirectoryIo.WriteDirectory | src/libfat12/io.c:644-680 | the recursion over slot objects has exactly the error and the image of the specification PutDir, where the first directory of 64 KiB or more ends it |
| DirectoryIo.WriteChildren | src/libfat12/io.c:701-707 | the loop over the slots of a directory writes all tables below it, in order, up to the first error |
| DirectoryWrites.PutDirSucceeds | src/libfat12/io.c:644-680 | write_directory succeeds if and only if all directories at and below the slot have chains below 64 KiB |
| DirectoryWrites.PutDirFrame | src/libfat12/io.c:644-680 | in success and in failure it touches only clusters of the directories at and below the slot |
| DirectoryWrites.PutMetadataSucceeds | src/libfat12/io.c:812-832 | lf12_write_metadata succeeds exactly then; otherwise the parameter block and the tables are new, the root table is old, and of the clusters only those of directories changed |
| DirectoryWrites.SoundMetadata | src/libfat12/io.c:812-832 | sound metadata are written completely, to the disk WriteMetadata |
| Scanning.ScanSubsequentEntries | src/libfat12/io.c:192-250 | the recursion terminates and builds separate slot objects holding exactly the tree that the image stores, with right parent links |
| Scanning.ScanTable | src/libfat12/io.c:238-246 | the loop over a table scans each slot without disturbing those before |
| MetadataIo.NewTable | src/libfat12/metadata.c:43-54 | the table of an empty partition |
| MetadataIo.NewRootDir | src/libfat12/metadata.c:16-41 | the empty root directory with its parent links |
| MetadataIo.WriteBpb | src/libfat12/io.c:477-514 | replaces the 59 bytes of the parameter block and nothing else |
| MetadataIo.WriteFats | src/libfat12/io.c:604-633 | the FAT area becomes that many copies of the packed table |
| MetadataIo.WriteRootDir | src/libfat12/io.c:690-725 | the directory tables are written, then the root table; an error leaves the root table alone |
| MetadataIo.WriteMetadataToImage | src/libfat12/io.c:812-832 | error and image are those of the specification PutMetadata, whatever the sizes of the directories |
| MetadataIo.SaveMetadata | src/libfat12/io.c:812-832 | for sound metadata it succeeds and the image is WriteMetadata |
| MetadataReading.ReadFatEntries | src/libfat12/io.c:311-345 | the persisted entries are those stored on the image |
| MetadataReading.LoadRootDir | src/libfat12/io.c:259-302 | the root slots and everything below them are read |
| MetadataReading.ReadMetadata | src/libfat12/io.c:765-810 | an image that stores metadata v is read to exactly v, in fresh objects with right parent links |
| Volumes.MetadataRoundTrip | src/libfat12/io.c:812-832 | an image after lf12_write_metadata reads as the same parameter block, table and tree, tables filled up with empty slots |
| Volumes.ReadsVolumeIsUnique | src/libfat12/io.c:765-810 | an image stores at most one metadata value |
| ImageFormat.BpbOfStored | src/libfat12/io.c:354-390 | the byte position of each field of the parameter block in an image file that stores metadata |
| ImageFormat.TableOfStored | src/libfat12/io.c:10-19 | the bytes and half bytes of each table entry |
| ImageFormat.RootOfStored | src/libfat12/io.c:252-300 | the byte position of each field of each slot of the root directory |
| ImageFormat.SlotOfStored | src/libfat12/io.c:192-250 | and of each slot of every other directory, in the clusters of its chain |
| ImageFormat.FileOfStored | src/libfat12/io.c:867-888 | and of each byte of a file |
| ImageFormat.WrittenIsStored | src/libfat12/io.c:812-832 | so these positions hold after every metadata write |
| ImageFormat.WrittenCopies | src/libfat12/io.c:604-629 | all copies of the table are alike after a write |
| ImageFormat.CommandStillStores | src/libfat12/io.c:498-515 | after every command the image stores metadata with the same parameter block, and bytes 0 to 2 and from 62 to the table are as they were |
| ImageFormat.FreshImage | src/libfat12/metadata.c:34-57 | the bytes of an empty partition: the parameter block, the medium byte and two bytes 0xff, free table entries, and a zero byte in each slot of the root directory |
| EntryCreation.EntryFromPath | src/libfat12/path.c:132-154 | the loop and recursion return the slot object at the address that the lookup function gives |
| EntryMoves.GetFreeEntry | src/libfat12/directory_entry.c:14-28 | the first free slot of a directory; nothing for a file or a full directory |
| Trees.LookupNames | src/libfat12/path.c:132-154 | a path leads to a slot only along the names of the slots on the way, so different paths lead to different slots |
| EntryCreation.CreateDirectoryTable | src/libfat12/io.c:973-1011 | chain, attributes, 224 slots and the two dot entries, or the state after a full image |
| EntryCreation.PathCreateDirectories | src/libfat12/path.c:243-293 | on slot objects it does what the specification MakeDirs does, in every error case too |
| EntryCreation.CreateEntryFromPath | src/libfat12/io.c:1013-1081 | on slot objects it does what the specification CreateEntry does, and returns the slot |
| Creation.MakeDirsResolves | src/libfat12/path.c:243-293 | on success the whole path resolves to a directory, and a second call changes nothing |
| Creation.MakeDirsGrows | src/libfat12/path.c:269-290 | whatever the outcome, used entries stay and new names fill free slots |
| Creation.GrowsLookup | src/libfat12/path.c:243-293 | so every path that resolved resolves to the same entry |
| Creation.MakeDirsSound | src/libfat12/path.c:243-293 | new chains are allocated only for missing components, complete, in the data area and apart from all others; no non-zero table entry changes |
| Creation.MakeDirsUses | src/libfat12/path.c:243-293 | success needs free clusters for all missing directories, wherever they lie |
| Creation.MakeTableSound | src/libfat12/io.c:973-1011 | with enough free clusters a new table succeeds and lies in clusters that were free |
| Lookups.MakeDirsLookup | src/libfat12/path.c:243-293 | directory creation changes no path but the beginnings of its own |
| Lookups.Insert | src/libfat12/path.c:132-154 | putting a subtree into a free slot affects exactly the paths through the new entry, which hides entries of its name in later slots; if an earlier slot has the name, no path changes |
| Lookups.Remove | src/libfat12/path.c:132-154 | clearing a slot makes exactly the paths through it lead through the next slot of its name, or nowhere |
| Lookups.RemainingOnly | src/libfat12/path.c:132-154 | nowhere, if the entry is the only one of its name in its directory |
| Files.PlacedLookup | src/libfat12/io.c:1052-1078 | after an entry was placed, exactly its path leads to it and every other path leads where it led |
| Placing.CreateEntryIffPlace | src/libfat12/io.c:1013-1081 | with enough free clusters, making an entry succeeds if and only if every existing component before the last is a directory and the deepest one has the next component or a free slot |
| FileIo.StoreFileData | src/libfat12/io.c:918-947 | allocation and data: disk, table, error and first cluster are those of the specification |
| FileIo.EnterFile | src/libfat12/io.c:949-970 | entry, attributes, sizes and time stamps are set as specified |
| FileIo.CreateFileOnImage | src/libfat12/io.c:890-971 | error, image, table and tree after lf12_create_file are those of the specification CreateFile |
| FileIo.DumpFile | src/libfat12/io.c:867-888 | the dumped bytes are the first FileSize bytes of the chain |
| Contents.WriteKeepsContents | src/libfat12/io.c:812-832 | writing the metadata and reading them back changes no file content |
| Putting.CreateFileSucceeds | src/libfat12/io.c:890-971 | with enough free data clusters, creating a non-empty file succeeds if and only if its clusters stay below 64 KiB and there is a place for the path |
| Putting.ServedPutSucceeds | src/libfat12/io.c:890-971 | a put of which no chain leaves the data area, on a full image too, succeeds if and only if the source is not empty, its clusters stay below 64 KiB, the data area has room for it and the missing directories, and there is a place for the path |
| Putting.CreatedSound | src/libfat12/io.c:923-959 | then the metadata are sound again and no non-zero table entry changed |
| Putting.NewContent | src/libfat12/io.c:923-959 | the new path holds exactly the bytes of the source |
| Putting.OldContent | src/libfat12/io.c:923-959 | every other path holds what it held |
| Putting.PutThenGet | src/libfat12/io.c:890-971 | create, write and read metadata, look up, dump: the path gives the source, every other path what it gave before |
| Putting.FailedPutIsInvisible | src/put.c:63-69 | after any failure of lf12_create_file the image reads as the same metadata with the same contents, and only free clusters were written |
| Putting.FreeClustersAreInvisible | src/libfat12/io.c:923-947 | metadata and contents do not depend on free clusters |
| Putting.EmptyFileIsRejected | src/libfat12/io.c:918-928 | an empty source always fails with a full image and links all free clusters in memory |
| ShortNames.ConvertShortFileName | src/libfat12/name.c:7-20 | the loop stores the stem and leaves the other bytes |
| ShortNames.ConvertShortFileExtension | src/libfat12/name.c:22-41 | the loop stores the extension after the first dot and leaves the other bytes |
| ShortNames.ConvertName | src/libfat12/name.c:126-140 | eight and three characters, padded with spaces |
| ShortNames.GetFileName | src/libfat12/name.c:73-102 | the printed name: stem without spaces at its end, a dot and the extension if there is one |
| ShortNames.ConvertIsIdempotent | src/libfat12/name.c:126-140 | for every string, converting the printed form of its short name gives the same 11 bytes |
| ShortNames.PrintThenConvert | src/libfat12/name.c:73-102 | every canonical name is what its printed form converts to |
| ShortNames.ConvertedIsCanonical | src/libfat12/name.c:126-140 | a converted name has only valid characters and spaces only where padding puts them |
| ShortNames.CanonicalIsConverted | src/libfat12/name.c:126-140 | exactly the canonical names are results of a conversion |
| ShortNames.CanonicalIsPlain | src/libfat12/name.c:110-124 | no converted name contains a zero byte, a dot or a slash, so none looks like a free slot or a dot entry |
| ShortNames.BlankPrintsEmpty | src/libfat12/name.c:73-102 | only the blank name is printed as an empty string |
| NameForms.SanitizeSpells | src/libfat12/name.c:110-124 | a-z become A-Z, the listed valid characters stay, everything else becomes an underscore |
| NameForms.AroundDot | src/libfat12/name.c:22-41 | the text on the two sides of the first dot makes up the string |
| NameForms.ConvertedBytes | src/libfat12/name.c:7-41 | each of the eleven bytes of a short name, for names of any length: the first eight characters before the first dot, without spaces in front, and the first three behind it, without any space |
| NameForms.ConvertedIgnoresCase | src/libfat12/name.c:126-140 | letter case does not matter |
| NameForms.PrintedBytes | src/libfat12/name.c:73-102 | a printed name is the bytes of the stem up to its last character, a dot, and the bytes of the extension |
| Paths.SplitInput | src/libfat12/path.c:77-130 | the buffer cut in place and the pointer table give the parts; the pointer that is never set is told apart |
| Paths.SplitIsExact | src/libfat12/path.c:77-130 | all parts are set if and only if the input, after one leading slash, does not end in two slashes; then they are the parts between the slashes and make up the input again |
| Paths.PartsJoined | src/libfat12/path.c:103-127 | splitting at slashes loses nothing |
| Paths.BuildPath | src/libfat12/path.c:5-75 | each component is the converted part |
| Paths.ParsePath | src/libfat12/path.c:156-190 | empty path, use of an unset pointer, or the converted parts |
| Paths.ParsedIsPlain | src/libfat12/path.c:156-190 | no parsed component can be the name of a free slot or a dot entry |
| NameForms.ParseIgnoresCase | src/libfat12/path.c:156-190 | strings that differ in letter case only are parsed to the same path |
| NameForms.ParseOutcome | src/libfat12/path.c:77-130 | which strings have no path and which use an unset pointer, by their characters alone |
| NameForms.ParseJoined | src/libfat12/path.c:77-130 | parts joined by slashes are parsed to their short names, with or without a slash in front and behind |
| NameForms.NonEmptyMore | src/common.c:50-75 | only empty parts are dropped when a path is normalised |
| Paths.NextToken | src/common.c:50-75 | strtok gives the next non-empty part |
| Paths.ConvertPath | src/common.c:41-79 | the loop joins the printed short names of the non-empty parts |
| Paths.NormalFormParses | src/common.c:41-79 | the normalised string is parsed to the converted non-empty parts if and only if neither the first nor the last is printed as an empty string |
| EntryPaths.GetPathLength | src/libfat12/name.c:43-71 | climbing the parent links gives one more than the counted length of all names on the way; for the root directory one |
| EntryPaths.GetEntryPath | src/libfat12/name.c:142-177 | the path is written backwards into the buffer, each name up to its first zero byte; it stays inside if and only if the printed names are not longer than counted |
| EntryPaths.RootPath | src/libfat12/name.c:142-177 | the root directory is printed as an empty string |
| EntryPaths.CountedIsPrinted | src/libfat12/name.c:48-62 | a canonical name is counted too short exactly when it has a space inside |
| EntryPaths.PathFits | src/libfat12/name.c:142-177 | the buffer is filled exactly if and only if no canonical name on the way has a space inside; otherwise it is overrun |
| EntryPaths.PrintedPathParses | src/libfat12/name.c:142-177 | parsing a printed path gives the names back if and only if the last one is not blank |
| EntryPaths.NamesLookup | src/libfat12/path.c:132-154 | the names on the way lead back to a slot if and only if each is the first of its name |
| EntryPaths.PrintParseLookup | src/libfat12/name.c:142-177 | print, parse, look up leads back to the same entry |
| Moves.PathGetParent | src/libfat12/path.c:208-241 | FIRST, SECOND and EQUAL exactly for proper beginning, proper extension and equality |
| Moves.PrefixesAgree | src/move.c:142-161 | between existing entries, the path relation is the relation of places in the tree |
| Moves.MoveLookup | src/libfat12/directory_entry.c:186-201 | every path below the source resolves below the destination, unless an earlier slot there has the name; every other path leads where it leads without the entry |
| Moves.MovedName | src/libfat12/directory_entry.c:186-201 | after a name clash the name leads to whichever of the two entries is in the earlier slot: to the moved one exactly if no slot before it has the name |
| Witnesses.NameClash | src/move.c:142-202 | a sound volume with such a clash, for each order of the slots: the move is done, and one of the two files is hidden |
| Witnesses.BothClashes | src/move.c:142-202 | the order in which the moved file is hidden and the order in which it hides the other |
| Moves.MoveRecords | src/libfat12/directory_entry.c:186-201 | every path leads to the record of the entry that it leads to now |
| Moves.CameFromOrigin | src/libfat12/directory_entry.c:186-201 | for an entry that is the only one of its name that is a matter of paths: those below the new place lead to what the old path led to |
| Moves.MovedSubtree | src/libfat12/directory_entry.c:191-199 | the moved subtree is the same at its new place |
| Moves.MoveContents | src/libfat12/directory_entry.c:186-201 | files keep their bytes under their new paths, name clash or not |
| Moves.MoveSound | src/libfat12/directory_entry.c:186-201 | all chains stay where they are and apart |
| Moves.MoveThenGet | src/move.c:197-202 | the same after writing and reading the metadata |
| EntryMoves.GetChildCount | src/libfat12/directory_entry.c:64-79 | the number of used slots of a directory |
| EntryMoves.MoveEntry | src/libfat12/directory_entry.c:136-202 | on slot objects: the error checks, and then exactly the moved tree in separate objects (so without a cycle) with right parent links if they were right before |
| EntryMoves.MovedLinked | src/libfat12/directory_entry.c:186-196 | after a move every used slot knows its directory again |
| EntryMoves.ParentedIsLinked | src/libfat12/io.c:238-241 | the parent links of a scanned tree are right |
| EntryDotMoves.MoveDot | src/libfat12/directory_entry.c:143-184 | moving "." to a directory that is neither the source nor below it: the checks and both nested loops, which do not break, give the specified tree in separate objects |
| DotMoves.MoveAllSlots | src/libfat12/directory_entry.c:161-184 | the live entries land in order in the first free slots, other free slots are empty, used slots keep their contents, the source keeps only its dot entries |
| DotMoves.CountsDecide | src/libfat12/directory_entry.c:147-159 | with two dot entries in the source, the compared counts say exactly whether there is room |
| DotMoves.MoveAllSound | src/libfat12/directory_entry.c:161-184 | if the destination does not lie below the source, all chains stay where they are and apart, whether there is room or not |
| DotMoves.StepLoses | src/libfat12/directory_entry.c:168-181 | a turn for an entry that the destination lies in loses the entry: its chains are in the tree no more |
| EntryDotMoves.CutOff | src/libfat12/directory_entry.c:168-181 | on slot objects, that turn leaves only the cleared slot in the tree of the root directory |
| DotCuts.LoopsAgree | src/libfat12/directory_entry.c:161-184 | for a destination that does not lie below the source nothing is cut off |
| DotCuts.MoveBelow | src/libfat12/directory_entry.c:161-184 | if it lies below an entry of the source, with room for all, the loops leave the source without any live entry; if it is such an entry, the entries behind it stay |
| DotCuts.MoveBelowLoses | src/libfat12/directory_entry.c:161-184 | the chains of these entries are in the tree no more, and the tree is sound without them |
| DotLookups.DotMoveRecords | src/libfat12/directory_entry.c:161-184 | with unique names that are free in the destination, every path below an entry of the source leads below the destination to the same record, the old paths lead nowhere, every other path leads where it led |
| DotLookups.DotMoveContents | src/libfat12/directory_entry.c:161-184 | and files keep their bytes under their new paths |
| EntryWalk.DumpMove | src/move.c:24-101 | the parent-pointer loop terminates; it stays below the source and inside the tables if and only if the source has slots and no entered directory lies in a last slot, and then visits the recursive preorder |
| EntryWalk.WalkNames | src/move.c:55-101 | the names of the visited entries in that order |
| EntryWalk.FindInParent | src/move.c:57-61 | the unbounded search in the parent table finds the own slot |
| Walks.StepDown | src/move.c:90-97 | entering a directory leaves the same entries to visit after it |
| Walks.PreorderVisits | src/move.c:66-99 | the preorder contains exactly the live entries all of whose directories are entered |
| Walks.PreorderDistinct | src/move.c:66-99 | each entry once |
| Walks.PreorderSorted | src/move.c:24-101 | in the order of the tables, each directory before what lies below it |
| Walks.VisitsAllLive | src/move.c:90-93 | where no directory is wrongly taken for empty, these are all live entries below the source |
| EntryDeletion.DelEntry | src/libfat12/io.c:834-865 | the not-empty check, the soft case, the erased chain, the cleared slot and the written metadata |
| EntryDeletion.DelKids | src/del.c:19-32 | the loop over the slots stops at the first error |
| EntryDeletion.DelTree | src/del.c:8-43 | the recursion, which writes the metadata after every entry, ends with the specified error and tree; if the image stored the metadata, it is at the end that of one write after erasing all clusters at once, whatever was deleted |
| Deletion.RemoveTreeSucceeds | src/del.c:8-43 | a hard deletion succeeds, and leaves a free slot, if and only if no directory it enters has more than two dot entries |
| Deletion.TwoDotsAreNormal | src/del.c:19-32 | so it never meets the not-empty error when every directory has its two dot entries |
| Deletion.RemoveTreeErases | src/del.c:8-43 | then it erases every chain of the subtree |
| Deletion.SoftRemovesNothing | src/libfat12/io.c:845-847 | a soft deletion removes nothing |
| Deletion.ErasedTwice | src/libfat12/io.c:859-862 | two deletions with a metadata write each leave the image of one deletion with one write |
| Deletion.RemoveTreeSound | src/del.c:8-43 | whatever the outcome, what is left is sound and refers to no new cluster |
| Deletion.DeleteSucceeds | src/del.c:8-43 | on a sound volume: success, a free slot, all clusters of the subtree erased, sound metadata |
| Deletion.DeleteZeroes | src/libfat12/io.c:849-854 | those clusters hold zeros on the image at the end |
| Deletion.DeleteThenGet | src/del.c:79-91 | the metadata without the subtree are sound; after reading the image again paths through the entry lead through the next entry of its name or nowhere, and every other path gives what it gave |
| Runs.FilledVolumeSound | src/libfat12/io.c:765-810 | metadata that were written and read back are sound |
| RecursiveOption.OptionNeeded | src/move.c:173-180 | f12_move and f12_del ask for the recursive option for a directory that was read exactly if its chain has at least 96 bytes |
| RecursiveOption.NewDirectoryNeeds | src/libfat12/io.c:973-1011 | so they always ask for it for a directory that the library made |
| RecursiveOption.OptionNotNeeded | src/del.c:84-89 | a sound image with a directory of one slot, which is deleted without the option |
| Runs.CommandKeeps | src/libfat12/io.c:812-832 | every put, directory creation, move and deletion, successful, failed or rejected, hard or soft, on a full image too, leaves the image readable as sound metadata and changes no non-zero table entry |
| Runs.CommandMeans | src/libfat12/io.c:867-888 | where a moved or deleted entry is the only one of its name in its directory and a deleted subtree is normal, every path holds after the command what the command means for it, also after a name clash |
| Runs.RunKeeps | src/libfat12/io.c:727-763 | every run of such commands keeps the image readable as sound metadata and changes no non-zero table entry |
| Runs.RunMeans | src/libfat12/io.c:867-888 | after every run of clear commands each path holds what the commands mean: the image implements a map from paths to bytes |
| Runs.PoliteIsClear | src/move.c:142-187 | on tidy metadata (unique plain names, two dot entries in every directory) the only further condition is that the path of a move is free |
| Runs.TidyNext | src/libfat12/io.c:973-1070 | every such command leaves the metadata tidy |
| Runs.PoliteRunIsClear | src/libfat12/io.c:812-832 | so every run of such commands from a tidy state is clear and ends in a tidy state |
| Tidiness.TidyFile | src/libfat12/io.c:1052-1078 | putting a file keeps names unique |
| Tidiness.TidyMakeDirs | src/libfat12/path.c:269-290 | making directories keeps names unique and gives each new directory its two dot entries |
| Tidiness.TidyMove | src/libfat12/directory_entry.c:186-201 | moving an entry to where no other has its name keeps names unique |
| Tidiness.TidyFilledKids | src/libfat12/io.c:192-250 | writing and reading keeps a directory tidy |
| Runs.ChainsInBounds | src/libfat12/io.c:33-46 | in a sound volume every chain of a live entry lies in the data area, is acyclic and ends with the marker |
| Runs.ChainsDisjoint | src/libfat12/io.c:33-46 | the chains of different live entries share no cluster |
| Runs.FreshStart | src/libfat12/io.c:1083-1099 | writing the metadata of an empty partition starts a run in a tidy state in which no path holds anything |
| Commands.OpenImage | src/common.c:210-231 | the stored metadata are loaded with right parent links |
| Commands.PutCommand | src/put.c:55-91 | parse, create, write: exit status and image keep the promise of a put and are those of the put command of a run, on a full image too |
| Commands.GetCommand | src/get.c:81-117 | parse, look up, dump: the bytes of the file at the path, nothing for a directory or a path to nowhere; the image is unchanged |
| Commands.GetAfterPut | src/put.c:55-91 | after a successful put, a get of any path from the image gives the source or what it gave before |
| Moves.WillMoveIsSafe | src/move.c:142-187 | the guards of f12_move are enough: the destination is not below the source, the target slot is a leaf, and the result is sound |
| Promises.DeleteKeepsPromise | src/del.c:64-91 | said of paths, records, bytes and clusters: a hard deletion is done for every file, and for every directory with two dot entries throughout, if the recursive option is given or the chain is below 96 bytes; then the entry is gone, everything else stays, and its clusters are zero; where the entry or the option is missing nothing changes; a soft deletion changes nothing and fails for directories in use; an interrupted one leaves all other paths |
| Promises.MoveKeepsPromise | src/move.c:142-202 | a move is done if and only if both entries exist, the source does not begin the destination, the recursive option is given or not needed, and the destination is a directory with a free slot; then everything at and below the source is below the destination, unless an earlier slot has the name, and everything else stays; otherwise nothing changes |
| PutPromises.PutKeepsPromise | src/put.c:55-91 | a put is done if and only if there is something to store, room for it below 64 KiB, and a place for the path; then the path holds it in a new entry below directories, and every other path and entry stays; otherwise the image reads as the same metadata and contents |
| PutPromises.FileEntry | src/libfat12/io.c:953-968 | the record of the new entry: name, size, the archive bit set and all other attribute bits as in the slot before, and each time stamp field with its part of the stamp |
| PutPromises.NewDirectory | src/libfat12/io.c:973-1011 | a new directory has the attribute 0x10, 224 slots, "." and ".." without a cluster and otherwise like it and its parent, free slots, and a chain for 244 entries with less than a cluster to spare |
| PutPromises.MissingAreNew | src/libfat12/path.c:243-293 | each component that did not exist becomes such a directory, with the record of the one above in ".." |
| Commands.MoveCommand | src/move.c:122-212 | exit status and image keep the promise of a move and are those of the move command of a run, and the names that the verbose option prints, for all inputs that are parsed |
| Commands.DeleteCommand | src/del.c:59-91 | exit status and image keep the promise of a deletion and are those of the delete command of a run, hard or soft, for all inputs that are parsed |

## Left out

- Input and output errors, errno, allocation failure and freeing of memory: the image is its bytes, memory suffices.
- Command line, messages, list and info output; of the verbose output, the names of the entries that a move shows are modelled.
- Time stamps and the volume id: a time stamp is a parameter.
- The host directory walks of recursive put and get, and the boot code.
- The layout of image sizes without one of their own, and the options that change a layout: a sound layout is a precondition.
- lf12_create_image: only its metadata write is modelled, not the zero sectors before it.
- Used-bytes and recursive counts, reclaiming clusters on deletion: not part of what is proved; deletion keeps the table.
- The children pointers that "." and ".." share with other directories: dot entries are leaves, so lookups through them are not part of this model.
- The nodes of a parsed path and their temporary unlinking: a path is a sequence of names.
- Other end-of-chain values than 0xfff.
- Big-endian hosts: the code copies integers between memory and image as they lie, here with the lower byte first.
- FatSectors.SectorsPerFat: doubles are exact real numbers, which they are for the divisions by powers of two that usual sizes lead to; for other sizes a double may be rounded below an integer.
- ChainIo.WriteToClusterChain: the 16-bit counter of written bytes does not wrap, because the loop would then read behind the data; by ChainIo.TruncatedSizeCheck it never does for the tables and files that the library writes.
- Scanning.ScanSubsequentEntries: leaves the children pointers of dot entries null.
- FileIo.StoreFileData: the allocator does not serve the request from behind the data area, because the clusters there are outside the image.
- FileIo.CreateFileOnImage: the same.
- Putting.FailedPutIsInvisible: the same.
- EntryDotMoves.MoveDot: says nothing about parent links, because the code leaves those of the moved entries' slots as they were; the destination is not the source directory and not below it; for the latter the objects of one turn are in EntryDotMoves.CutOff, and the whole loops are modelled on values, in DotCuts.MoveBelow.
- DotLookups.DotMoveRecords: the names of the moved entries are not in use in the destination, because the path of the source may lead through such a name; for a single entry of a name in use there is Moves.MovedName.
- DotLookups.DotMoveContents: the same.
- EntryMoves.MoveEntry: is about entries other than ".", for which there is EntryDotMoves.MoveDot.
- Commands.PutCommand: is about regular files; the path does not lead to a directory, whose chain the code would replace; path strings that leave a pointer unset are excluded, as in Commands.GetCommand, Commands.MoveCommand and Commands.DeleteCommand.
- Commands.GetCommand: the file has a chain that holds its size, which lf12_dump_file does not check.
- Commands.MoveCommand: with the verbose option the walk stays inside the tables, which the code does not check; the printed text around the names is not modelled.
- Runs.CommandKeeps: a put does not replace a directory and is served from the data area or not at all, as in Commands.PutCommand.
- Runs.RunKeeps: the same.
- Runs.CommandMeans: the moved or deleted entry is the only one of its name, because what comes to light otherwise had no path; where it comes from is in Moves.MoveThenGet and Deletion.DeleteThenGet.
- Runs.RunMeans: the same; the order of two puts without a write between them is not modelled.
