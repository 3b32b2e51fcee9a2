# A verified model of the `dylblock` file system

This Dafny project models the teaching file system of the repository: the C stack in `dylblock/`
(packed bit set, inodes, directory cache, format, mount and unmount, and the shell on top), the block
cache that the C build does not link, and the persistence arithmetic of the C++ version.

The model has two layers. The lower one is values and functions: a volume is a device, a bit set and an
inode table; the directory cache is a forest in left-child, right-sibling form; the shell is a state
machine. The upper one is the program: classes with the fields of the C structures, arrays, linked
entries and loops, each method proved against the function that says what it does. The properties are
proved about the functions and reach the program through those contracts, up to `RunSession`, which
runs the whole program and returns the replies of an abstract tree of names.

| files | contents |
|---|---|
| `bytes`, `block_device` | bytes, words, positions in blocks, the device in memory |
| `bit_set`, `inode`, `volume`, `file_system` | allocator, inode layout, block loops on values and in place |
| `ownership`, `accounting`, `volume_runs` | who owns which block, how many are used, runs of the inode layer |
| `directory_text`, `text_buffers` | the stored text of a directory, printing and parsing |
| `directory_store`, `forest`, `write_back`, `dirty_tracking`, `cache_laws` | directories on disk, the cache as a value, what a flush does, in which order |
| `directory_entries`, `directory_cache`, `directory_loader` | the cache as linked entries |
| `metadata`, `metadata_io`, `format_laws` | master block, block map and inode table on disk; format, mount, unmount, in plain numbers |
| `name_tree`, `shell`, `session`, `session_commands`, `session_mounts`, `refinement`, `session_laws`, `reply_laws`, `dot_entry` | the tree of names, the shell on values, the session theorems, replies byte by byte, what `cd .` loses |
| `shell_program`, `session_program` | the shell as a program, and its runs |
| `block_cache`, `block_cache_program` | the write-back cache |
| `packed_map`, `inode_windows`, `cpp_layout` | the C++ version |

## What the code does that its interface does not say

Where the code departs from what a reader expects, the model follows the code, and a lemma says exactly
when the expectation holds.

- `iNodeRead` and `iNodeWrite` look blocks up from block 0 on whatever the start offset is, so the offset
  counts modulo the block size (`Ownership.ReadHonoursStart`, `Ownership.WriteHonoursStart`,
  `Accounting.CompleteWriteHonoursStart`).
- A range that ends on a block boundary costs one more iteration, and a write one more block; a
  directory, written as one whole block, takes two. If that block is missing, every byte is written but
  the length is not recorded (`Accounting.AllBytesButNoLength`, `Accounting.LengthMissed`).
- The size of the block map leaves out its 8-byte header, so that a mount can read fewer bits than there
  are blocks (`Metadata.RemountNeedsHeaderRoom`, `Shells.HeaderForgotten`).
- `allocateINode` reports failure with the number of the root (`INodes.ZeroMeansFailure`,
  `SessionLaws.MkdirNeedsINode`).
- A flush returns early below a directory that it wrote (`Forests.FlushClears`); in the states that the
  shell reaches nothing is missed (`Sessions.FlushSettles`).
- `cd .` enters a second entry for the same inode (`SessionLaws.DotIsAnotherEntry`). What is made there
  is lost when the first entry is written again (`DotEntries.DotLosesDirectory`).
- `allocateBlockCache` makes an array of NULL pointers and follows the first, so no cache comes out of it.
  The cache is modelled with its entries in place.
- The comment on `getDiskAddressOfBlock` promises -1 for an absent block; a pointer that holds -1 from a
  failed allocation and one that holds 0 both read as absent, and the model treats them alike.

A command of a session is legal when the tree gives it a meaning: `mkdir` needs a name without newline,
space, `|` and NUL, a free inode, two free blocks for the new directory (one for the last), and room for
its line in the block of its parent and for two more word pointers in a block of pointers; `cd` needs a
target other than `.`. Everything else is allowed, commands on an unmounted device and `cd` to a name that
does not exist included.

## Model

| member | source | states |
|---|---|---|
| `Refinement.SessionRefinement` | dylblock/my_shell.c:90-180 | main theorem: format any device that newfs accepts, whose block map has room for its header and whose inode table ends with a block, then run any legal mount, unmount, mkdir, ls, cd and cd .. commands; the shell never leaves defined behaviour (every text and pointer array stays in its buffer) and every reply, each ls included, is the one a tree of names gives, across any number of unmounts and mounts |
| `SessionProgram.RunSession` | dylblock/my_shell.c:69-180 | the imperative program (device, bit set array, inode array, linked directory entries, shell variables), formatted and run on any legal command list, returns exactly the replies of the tree |
| `SessionProgram.RunCommands` | dylblock/my_shell.c:57-180 | a shell object that stands for a tree answers any legal run as the tree does and stands for the resulting tree afterwards |
| `SessionProgram.RunCommand` | dylblock/my_shell.c:57-180 | one legal command, executed in place, gives the reply and the state of the tree; given the two bytes 46, cd goes to the parent, or is refused in the root |
| `Refinement.StepRefines` | dylblock/my_shell.c:90-180 | each legal command keeps the refinement relation between shell and tree and gives the reply of the tree |
| `Refinement.RunRefines` | dylblock/my_shell.c:57-180 | the same over runs of any length, from any related pair of states |
| `SessionLaws.DirtyTrackingOverRuns` | dylblock/directory_cache.c:97-147 | in every state a session reaches the cache is clean, or clean but for the last child of the current directory, or the bare root just mounted; every cached directory without a dirty child is on disk exactly as it is cached |
| `SessionLaws.OwnershipOverRuns` | dylblock/filesystem.c:34-54 | in every mounted state of a session the pointers of all inodes name distinct, marked data blocks behind the metadata, and used blocks are metadata plus pointers |
| `SessionLaws.CdThenUp` | dylblock/my_shell.c:142-171 | cd to a child and then cd .. restores the very entry that was current |
| `SessionLaws.DotIsAnotherEntry` | dylblock/my_shell.c:157-171 | cd . never stays: it always moves to the separate "." entry, which has the inode of the current directory but nothing loaded; this is why "." is no legal target |
| `DotEntries.DotLosesDirectory` | dylblock/my_shell.c:112-174 | what cd . costs, from every mounted state of a session: cd ., mkdir, cd .., mkdir, unmount all answer as usual, and the device left behind mounts with the second directory listed in its parent and without the first; for any two names that the tree has room for |
| `DotEntries.FlushPending` | dylblock/directory_cache.c:129-147 | a flush from above one dirty child, in any cache otherwise clean, clears it and writes the directory it is listed in and nothing else |
| `SessionLaws.MkdirNeedsINode` | dylblock/my_shell.c:112-125 | mkdir gives the new entry an inode of its own if and only if one is free; otherwise it succeeds all the same and the new entry is the root |
| `SessionLaws.RunGrows` | dylblock/my_shell.c:112-180 | on the tree no run loses, renames or reorders a directory; with the refinement this holds of the shell |
| `SessionLaws.NestedSession` | dylblock/my_shell.c:90-180 | a directory made inside another is still there, under its parent, after unmount and mount, and cd .. leads back: for every device with three inodes and the blocks for three directories, such a session is legal and the shell gives these very replies |
| `SessionCommands.LsOk` | dylblock/my_shell.c:131-141 | ls is defined in every session state and lists "." and then the children of the current directory in the order of their creation |
| `SessionCommands.CdDownOk` | dylblock/my_shell.c:142-174 | cd name moves to the first child of that name or reports that there is none, and keeps the session invariant |
| `SessionCommands.CdUpOk` | dylblock/my_shell.c:149-156 | cd .. moves to the parent, and is refused exactly in the root |
| `SessionCommands.MkdirOk` | dylblock/my_shell.c:112-125 | mkdir is defined, adds one directory at the end of the current one with the next inode, and leaves exactly that child dirty |
| `ReplyLaws.CdDotDot` | dylblock/my_shell.c:149-156 | from every mounted state of a session, cd with the two bytes 46 goes to the parent, and is refused exactly in the root |
| `ReplyLaws.CdNamed` | dylblock/my_shell.c:157-174 | cd with any other name but the byte 46 goes to the least child of that name, or reports that there is none and stays |
| `ReplyLaws.LsNames` | dylblock/my_shell.c:131-141 | ls lists the one byte 46 and then the names of the children |
| `ReplyLaws.MayMakeIs` | dylblock/my_shell.c:112-125 | what a session asks for before mkdir, in numbers: any nonempty name without the bytes 0, 10, 32 and 124, an inode, two blocks for each directory but one, room for the line and for two more pointers |
| `ReplyLaws.MkdirNamed` | dylblock/my_shell.c:112-125 | mkdir adds the name at the end of the current directory, with the next number, as a directory without children |
| `ReplyLaws.UnmountThenMount` | dylblock/my_shell.c:90-111 | unmount leaves a device that mount brings back with the root current, as one entry named by two quotation marks; in between every other command is refused, and so is a second mount |
| `ReplyLaws.SessionIsLegal` | dylblock/filesystem.c:10-54 | which devices and commands make a legal session, in numbers |
| `ReplyLaws.LegalRunIs` | dylblock/my_shell.c:57-180 | a run is legal if and only if each command is in the state the tree is in by then: on a mounted device mkdir has to be possible, and cd must not be given the one byte 46 |
| `ReplyLaws.FruitSession` | dylblock/my_shell.c:69-180 | one session byte by byte, on 100 blocks of 1024 bytes and 16 inodes: it is legal, and its replies are listed |
| `SessionMounts.UnmountOk` | dylblock/filesystem.c:135-158 | unmount leaves a device from which a mount finds every directory as the tree has it |
| `SessionMounts.MountOk` | dylblock/filesystem.c:85-122 | a mount of such a device succeeds, with the root current and nothing cached |
| `SessionMounts.NewFsOk` | dylblock/filesystem.c:10-83 | newfs makes a device that mounts as the empty tree, whatever the device held |
| `FormatLaws.NewFsAccepts` | dylblock/filesystem.c:16-51 | newfs succeeds if and only if blocks have at least 128 bytes and there are more of them than the master block, the block map and the inode table take, all three in plain quotients |
| `FormatLaws.NewFsLeaves` | dylblock/filesystem.c:23-78 | for every device that newfs accepts: the words of the master block with the addresses of block map and inode table, the block map in which exactly the reserved blocks are used, the new inode table field by field, all other blocks as they were; and a mount finds just that |
| `FormatLaws.PersistLayout` | dylblock/filesystem.c:135-146 | unmount writes the block map, header and bits, from block 1 on and the inode table, 128 bytes an inode, right behind it, and nothing else |
| `FormatLaws.MountAccepts` | dylblock/filesystem.c:85-115 | for every device: a mount succeeds if and only if block 0 starts with the magic number and tells the true sizes and the two regions are inside; what it then finds is read from there |
| `FormatLaws.SessionDevices` | dylblock/dylan_bit_set.c:63-67 | the two conditions on the device of a session, in numbers |
| `Sessions.WithChildrenSettles` | dylblock/directory_cache.c:60-101 | getting the children of the current directory, in every session state, is defined, caches exactly its listing, clears every flag, and leaves every directory in step with the disk |
| `Sessions.FlushSettles` | dylblock/directory_cache.c:129-147 | the flush at unmount clears every flag and brings every directory in step with the disk, despite its early return |
| `ShellProgram.MainShell.constructor` | dylblock/my_shell.c:46-52 | a new shell is idle on its device |
| `ShellProgram.MainShell.Mount` | dylblock/my_shell.c:90-104 | the mount branch in place: state and reply are those of the shell on values |
| `ShellProgram.MainShell.Unmount` | dylblock/my_shell.c:105-111 | the unmount branch in place, as above |
| `ShellProgram.MainShell.Mkdir` | dylblock/my_shell.c:112-130 | the mkdir branch in place, as above |
| `ShellProgram.MainShell.Ls` | dylblock/my_shell.c:131-141 | the ls branch in place, as above |
| `ShellProgram.MainShell.Cd` | dylblock/my_shell.c:142-180 | the cd branch in place, as above |
| `ShellProgram.MainShell.Execute` | dylblock/my_shell.c:57-180 | one command of any kind: the heap afterwards shows the next state of the shell on values, and the reply is its reply |
| `ShellProgram.FindIn` | dylblock/my_shell.c:157-171 | the list walk of cd stops at the first directory entry of that name, or finds none |
| `ShellProgram.ListNames` | dylblock/my_shell.c:133-138 | the loop of ls lists every sibling once, in order |
| `DirectoryLoader.DirParentSearch` | dylblock/my_shell.c:24-42 | the recursive search returns the entry under which the first entry (children before parents) with the inode number and the very name pointer hangs, and NULL exactly if there is none |
| `Forests.SearchFinds` | dylblock/my_shell.c:24-42 | in any cache, the search returns the parent of an entry that no other entry shares number and name pointer with |
| `Forests.SearchMisses` | dylblock/my_shell.c:24-42 | the search returns NULL if and only if no entry of the list or below it has the key |
| `CacheLaws.SearchIsFirstVisit` | dylblock/my_shell.c:24-42 | on any cache the search returns what the first entry with the key hangs under, in the order children, entry, later siblings |
| `NameTrees.ParentSearchFinds` | dylblock/my_shell.c:24-42 | in a cache that shows a tree, the search from the root finds the parent directory of every directory but the root |
| `NameTrees.KeyOnlyAt` | dylblock/my_shell.c:34-37 | there inode number and name pointer identify the real entry of a directory, its "." entry included among the others |
| `NameTrees.ShowsMade` | dylblock/directory_cache.c:9-27 | adding a child at the current entry of a cache that shows a tree shows the tree with that child made |
| `DirectoryEntries.AddChild` | dylblock/directory_cache.c:9-27 | links a new dirty entry behind the last sibling and changes no other entry; the cache as a value gains exactly that entry at the end |
| `DirectoryLoader.GetChildren` | dylblock/directory_cache.c:60-101 | loads on demand, adds "." to an empty directory, flushes from the entry on; result, cache and volume are those of the function on values |
| `DirectoryLoader.AddEntries` | dylblock/directory_cache.c:87-88 | the loop adds one entry for each pair of words, in order, with name strings of its own |
| `DirectoryLoader.ReadWords` | dylblock/directory_cache.c:74-83 | reading, counting pipes and tokenizing into one block of pointers gives the words of the stored text, ended by NULL, whenever they and the NULL fit it |
| `DirectoryCache.WriteDirectory` | dylblock/directory_cache.c:106-126 | stores the text of the cached children in the inode of the directory and clears the flags of the children and of the entry itself, nothing else |
| `DirectoryCache.PrintChildren` | dylblock/directory_cache.c:111-121 | the loop builds the block of one line per child, zero-padded, and clears the children's flags |
| `DirectoryCache.FlushDirectoryCache` | dylblock/directory_cache.c:129-147 | the recursive write-back in place: flags and volume afterwards are those of the function on values, links and other entries are unchanged |
| `Forests.FlushClears` | dylblock/directory_cache.c:129-147 | on arbitrary caches a flush changes flags only, and clears every flag if and only if nothing below the children of a directory where it returns early is dirty |
| `CacheLaws.FlushStores` | dylblock/directory_cache.c:129-147 | on any cache a flush writes exactly the listed directories, in the listed order: later siblings, the entry if dirty, then what is below, unless a child is dirty |
| `CacheLaws.FindDirectoryIs` | dylblock/my_shell.c:157-171 | on any cache the walk of cd stops at the first sibling with the name whose inode has type 2 |
| `WriteBack.FlushUpdates` | dylblock/directory_cache.c:129-147 | in a cache that shows a tree, a flush brings exactly the directories it writes up to date, and changes no other directory and no metadata block |
| `DirtyTracking.PendingIsTidy` | dylblock/directory_cache.c:133-144 | with one pending child a flush from above clears everything and writes exactly the directory of that child |
| `DirtyTracking.LoadedIsTidy` | dylblock/directory_cache.c:97-144 | a flush right after loading clears everything and rewrites exactly the directory just loaded |
| `DirectoryText.PrintParseRoundTrip` | dylblock/directory_cache.c:74-126 | a directory printed into its block is parsed back, same children, same order, if and only if every name is nonempty and has none of the bytes 10, 32 and 124 |
| `DirectoryText.TokensOfPrint` | dylblock/filesystem.c:165-184 | strtok splits printed text into exactly the names and numbers, alternating |
| `DirectoryText.AtoiOfDecimal` | dylblock/directory_cache.c:88 | atoi inverts %d on every integer |
| `DirectoryText.PipesOfPrint` | dylblock/directory_cache.c:79-80 | printed text holds one pipe per child and no NUL |
| `DirectoryText.TokensAreWords` | dylblock/filesystem.c:165-184 | every token of any text is nonempty, free of delimiters, and made of characters of the text |
| `DirectoryText.TokensAreRuns` | dylblock/filesystem.c:165-184 | for every text, the tokens are exactly its maximal runs of bytes other than 10, 32 and 124, in order, the last one included |
| `DirectoryText.LegalNameIs` | dylblock/directory_cache.c:83 | the names that a session may use are the nonempty ones with none of the bytes 0, 10, 32 and 124 |
| `DirectoryText.ParseIs` | dylblock/directory_cache.c:79-88 | for every buffer: one entry for each pipe as long as there are words, made of a word and the number in the next |
| `DirectoryText.PrintIs` | dylblock/directory_cache.c:116 | each child is printed as its name, the byte 124, its number and the byte 10 |
| `DirectoryText.DecimalIs` | dylblock/directory_cache.c:116 | numbers are printed in decimal digits, without leading zeros, after a sign if negative |
| `DirectoryText.AtoiIs` | dylblock/directory_cache.c:88 | atoi skips blanks, takes one sign, and reads the digits up to the first other byte, for every text |
| `DirectoryText.CStringIs` | dylblock/directory_cache.c:79 | the string in a buffer ends at its first NUL, or with the buffer |
| `DirectoryText.CountOccurrencesIs` | dylblock/directory_cache.c:151-157 | the count is the number of places with that byte |
| `TextBuffers.BreakWords` | dylblock/filesystem.c:165-184 | the loop returns the first max_words tokens, NULLs behind them, and their number |
| `TextBuffers.CountOccurrencesIn` | dylblock/directory_cache.c:151-157 | the loop counts the occurrences of a byte in the first bsize bytes |
| `TextBuffers.StrCat` | dylblock/directory_cache.c:117 | appends a string to the text of a zeroed buffer |
| `TextBuffers.StrLen` | dylblock/directory_cache.c:79 | finds the end of the C string that starts a buffer |
| `Ownership.ReadOverWrite` | dylblock/inode.c:9-105 | for ranges that start in the first block: a read after a write returns the bytes the write reported inside their positions and the old bytes elsewhere in every block that was mapped, and everywhere while free blocks hold zeros; for complete and short writes |
| `Ownership.WriteEffect` | dylblock/inode.c:52-105 | for every start: the reported bytes stand at offset start modulo the block size, no other byte of a mapped block, no other file and no metadata block changes, and ownership is kept |
| `Ownership.ReadOfOtherFile` | dylblock/inode.c:9-105 | a write to one inode never changes what a read of another returns |
| `Ownership.WriteLength` | dylblock/inode.c:75-103 | the recorded length grows exactly when the block loop ran to its end |
| `Accounting.AllBytesButNoLength` | dylblock/inode.c:57-105 | a nonempty write reports every byte and still leaves the length alone if and only if its range ends on a block boundary, there is a block for everything up to there, and none for the extra iteration |
| `Accounting.LengthMissed` | dylblock/inode.c:57-105 | such a write: one free block, one whole block written at 0 to an empty file; every byte is in the file, whose length stays 0 |
| `Ownership.LookupKeepsOwned` | dylblock/inode.c:172-204 | mapping a block on demand keeps ownership, changes at most the one pointer and its bit, and takes a block that was free |
| `Volumes.ReadIsView` | dylblock/inode.c:9-49 | a read of n bytes returns n bytes of the zero-extended file from offset start modulo the block size |
| `Volumes.ReadIsPrefix` | dylblock/inode.c:9-49 | for any pointers: what a read returns is the file from that offset on, up to the end of the request or to the first block whose pointer is outside the device |
| `Volumes.SpanIsQuotients` | dylblock/inode.c:12-14 | the number of iterations, as the quotients of the C code |
| `Volumes.WriteStops` | dylblock/inode.c:73-93 | a write ends at the first block without an address, or with one outside the device: it reports the bytes before and leaves the recorded length |
| `Volumes.LookupCases` | dylblock/inode.c:172-204 | a lookup with allocation, case by case: level, the 16 pointers, the first free block, -1 left in the pointer on a full device |
| `Ownership.ReadHonoursStart` | dylblock/inode.c:9-30 | over every file of every volume with the ownership invariant, a read returns the bytes at its start offset if and only if the range starts in the first block or is empty |
| `Ownership.WriteHonoursStart` | dylblock/inode.c:52-74 | over the same files and all data of a length, the bytes that a write reports stand at its start offset afterwards if and only if the range starts in the first block or is empty |
| `Accounting.CompleteWriteHonoursStart` | dylblock/inode.c:52-105 | the same of the writes that complete, for every length that a write can have: all of the data stands at the start offset if and only if the range starts in the first block or is empty |
| `Volumes.ChunkTiles` | dylblock/inode.c:18-47 | the per-block byte counts are nonnegative, end inside their blocks and tile the request exactly, on the extra last iteration too |
| `Accounting.WriteAccounts` | dylblock/inode.c:52-105 | a write completes if and only if its loop stays within the 16 pointers and there is a free block for each one the file lacks; it takes exactly those, or all that are left, at most one per iteration of the loop, and used blocks stay metadata plus pointers |
| `Accounting.LookupConserves` | dylblock/inode.c:172-188 | a lookup takes one block or none, succeeds exactly if the block is mapped or one is free, and keeps the count |
| `VolumeRuns.RunAgrees` | dylblock/inode.c:9-126 | over every run of writes at any offsets, inode allocations and releases, and remounts: ownership, conservation and zeroed free blocks hold, and the inodes hold exactly their byte streams |
| `VolumeRuns.RunFromFormat` | dylblock/inode.c:27-34 | from a format of a blank device on, every read after any run returns what was written and zero where nothing was |
| `VolumeRuns.ApplyAgrees` | dylblock/inode.c:52-126 | each single operation keeps that agreement; a freed inode keeps its blocks and its bytes |
| `INodes.ZeroMeansFailure` | dylblock/inode.c:107-119 | an answer 0 of allocateINode means that no inode is free if and only if the root is already in use |
| `INodes.AllocationEffect` | dylblock/inode.c:109-119 | an allocation gives the first inode of status 2 status 1 and owner 0xcafef00d and changes nothing else; with none it changes nothing |
| `INodes.FreeEffect` | dylblock/inode.c:121-126 | a free gives the inode status 2 and owner 0xfeedfeed and changes nothing else |
| `INodes.FreedComesNext` | dylblock/inode.c:109-126 | the inode freed is the next allocated if and only if no lower one is free, and then the table is as before but for status and owner |
| `INodes.INodeRoundTrip` | dylblock/inode.h:35-48 | the 128-byte layout of an inode is inverted by reading it back, for every inode of the C widths |
| `INodes.INodeLayout` | dylblock/inode.h:35-48 | each field of the structure lies at its own word of the 128 bytes |
| `Bytes.WordIsLittleEndian` | dylblock/master_block.h:10-18 | words lie on the device least significant byte first |
| `Bytes.UnsignedIsModulo` | dylblock/master_block.h:10-18 | negative numbers are two's complements |
| `INodes.TableRoundTrip` | dylblock/inode.c:141-168 | the inode table is recovered from its bytes whatever follows them in the last block |
| `FileSystems.FileSystem.GetDiskAddressOfBlock` | dylblock/inode.c:172-204 | address, table and bit set after a lookup in place, with and without allocation |
| `FileSystems.FileSystem.INodeRead` | dylblock/inode.c:9-49 | the loop over the buffer returns the bytes of the function on volumes, their number, and leaves the rest of the buffer |
| `FileSystems.FileSystem.INodeWrite` | dylblock/inode.c:52-105 | the loop in place leaves the volume and reports the number that the function on volumes gives |
| `FileSystems.FileSystem.AllocateINode` | dylblock/inode.c:109-119 | the scan in place takes the first free inode, or answers 0 and changes nothing |
| `FileSystems.FileSystem.FreeINode` | dylblock/inode.c:121-126 | gives the inode status 2 and the owner word of a free one, and keeps its pointers |
| `DirectoryStore.StoreEffect` | dylblock/directory_cache.c:122 | on a volume with room for its directories, writing one stores its whole text, leaves the text of every other, and keeps the room for all later ones |
| `BitSets.BitFrame` | dylblock/dylan_bit_set.h:20-22 | setting or clearing an index changes that index only, also within a shared byte; clearing undoes setting |
| `BitSets.MaskIsShift` | dylblock/dylan_bit_set.h:20-22 | the mask of an index is the one that the macros shift into place |
| `BitSets.BitsAreMacros` | dylblock/dylan_bit_set.h:20-22 | testing, setting and clearing are the three macros, on byte i / 8 with 1 shifted by i % 8 |
| `BitSets.FreshBitsFillBlocks` | dylblock/dylan_bit_set.c:3-11 | the buffer of a new set is zero and, with its header, fills the whole blocks that the 12-byte structure and the bits need |
| `Bytes.CeilDivIsQuotient` | dylblock/block_device.h:42 | the number of blocks that some bytes take is the quotient that the macro rounds up |
| `Bytes.PositionIsQuotient` | dylblock/block_device.h:43 | block and offset of a position are the quotient and the remainder of the C division |
| `BitSets.AllocateManyDrains` | dylblock/dylan_bit_set.c:37-45 | from k free items exactly the first k calls succeed, for every count, and each adds one set bit |
| `BitSets.AllocateManyAscends` | dylblock/dylan_bit_set.c:37-45 | the successful results of a run are free indices in increasing order, hence distinct |
| `BitSets.AllocateStep` | dylblock/dylan_bit_set.c:37-45 | one call succeeds if and only if some index is free, and changes only the bit it returns |
| `BitSets.AllocateManyReservesPrefix` | dylblock/filesystem.c:52-54 | the preallocation loop of newfs marks exactly the metadata blocks |
| `BitSets.BitSet.AllocateBlock` | dylblock/dylan_bit_set.c:37-45 | the scan in place returns the least free index and marks it, or returns -1 and changes nothing |
| `BitSets.BitSet.FreeBlock` | dylblock/dylan_bit_set.c:48-55 | frees exactly a used index; a free one is reported and nothing changes |
| `BitSets.BitSet.constructor` | dylblock/dylan_bit_set.c:3-11 | a new set is all clear, in a buffer of whole blocks |
| `BitSets.BitSet.Set` | dylblock/dylan_bit_set.c:19-21 | sets one bit in the byte array |
| `BitSets.BitSet.Clear` | dylblock/dylan_bit_set.c:24-26 | clears one bit in the byte array |
| `BitSets.BitSet.Get` | dylblock/dylan_bit_set.c:29-31 | reads one bit of the byte array |
| `Metadata.MountOfPersist` | dylblock/filesystem.c:85-158 | unmount then mount gives back inode table and master block, and the block map as far as its blocks hold it, and touches no data block |
| `Metadata.RemountNeedsHeaderRoom` | dylblock/dylan_bit_set.c:63-85 | a mount after an unmount always succeeds; every bit comes back, and the bits read cover every block, if and only if the block map blocks have room for the header that the size formula leaves out |
| `Metadata.EveryBitIsStored` | dylblock/dylan_bit_set.c:63-67 | that condition holds if and only if every index has its byte inside the blocks written |
| `Shells.HeaderForgotten` | dylblock/dylan_bit_set.c:63-85 | on every device of 2048 blocks of 256 bytes newfs with 16 inodes succeeds and so does the mount, with 1984 bits for the 2048 blocks, so that the shell is undefined from there |
| `Metadata.RegionsDisjoint` | dylblock/filesystem.c:140-146 | block map and inode table are written to disjoint regions, neither the master block nor a data block changes, and both are read back |
| `Metadata.MasterRoundTrip` | dylblock/master_block.c:45-57 | the master block is recovered from its block |
| `MetadataIO.NewFs` | dylblock/filesystem.c:10-83 | newfs in place: the refusals and the device of the function on values; a refused device keeps the blocks that it was created with |
| `MetadataIO.WriteFormat` | dylblock/filesystem.c:52-82 | reserving the metadata blocks, making the root and writing everything out, in place, leaves the formatted device of the function on values |
| `MetadataIO.MountDevice` | dylblock/filesystem.c:85-122 | mount in place gives the volume of the function on values, or null exactly when that has none |
| `MetadataIO.PersistMetadata` | dylblock/filesystem.c:140-146 | the two writes of unmount leave the device of the function on values and nothing else changed |
| `MetadataIO.WriteBlockMap` | dylblock/dylan_bit_set.c:88-100 | the block loop stores the header and the bits, as far as the blocks reach |
| `MetadataIO.ReadBlockMap` | dylblock/dylan_bit_set.c:70-85 | the block loop reads them back, or reports a device that is too short |
| `MetadataIO.WriteINodeMap` | dylblock/inode.c:141-154 | the block loop stores the table; where its last block is not full, zeros follow |
| `MetadataIO.ReadINodeMap` | dylblock/inode.c:156-168 | the block loop reads the table, or reports a device that is too short |
| `MetadataIO.AllocateINodeMap` | dylblock/inode.c:128-139 | a numbered table of free inodes when asked to initialise |
| `BlockDevices.BlockDevice.ReadBlock` | dylblock/block_device.c:86-100 | copies one block into the buffer; an address outside the device is reported and nothing is copied |
| `BlockDevices.BlockDevice.WriteBlock` | dylblock/block_device.c:112-125 | replaces one block; behind the end the device grows, with zeros in between; only a negative address is reported, and then nothing changes |
| `BlockDevices.StoreBlockGrows` | dylblock/block_device.c:112-125 | a block stored behind the end leaves zeros in between |
| `BlockCaches.CacheRefinesDevice` | dylblock/block_cache.c:25-74 | over every run of lookups and client writes the cache answers as a plain device given the same writes, and its overlay stays the contents of that device |
| `BlockCaches.DoCacheBlockKeeps` | dylblock/block_cache.c:45-74 | caching an uncached block changes nothing a client sees, keeps block numbers distinct and clean slots equal to the device, writes nothing back while a slot is clean, and otherwise exactly the one victim at the pointer |
| `BlockCaches.AllocCacheBlockCases` | dylblock/block_cache.c:45-64 | on any cache: the slot taken is the first clean one behind the pointer, or the one at it; it gets the number and zeros, keeps its flag, and goes to the device first if dirty |
| `BlockCaches.DoCacheBlockCases` | dylblock/block_cache.c:66-74 | on any cache: that slot ends up clean, with the block of the device, or zeros when there is none |
| `BlockCaches.ScanFindsClean` | dylblock/block_cache.c:46-58 | the scan stops at a clean slot if and only if there is one, at the first behind its start; otherwise it is back at its start |
| `BlockCaches.ScanVisitsEach` | dylblock/block_cache.c:46-47 | the modular steps 1 to count visit each slot exactly once, for every count and start |
| `BlockCaches.WriteSlotKeeps` | dylblock/block_cache.h:9-13 | a client write changes the block it is for in the overlay, and no other |
| `BlockCaches.EmptyCacheOk` | dylblock/block_cache.c:4-14 | a cache of explicitly empty slots satisfies the invariant and shows the device |
| `BlockCacheProgram.BlockCache.GetCacheEntry` | dylblock/block_cache.c:26-33 | finds the first entry of a block, or null exactly if it is not cached |
| `BlockCacheProgram.BlockCache.GetCachedBlock` | dylblock/block_cache.c:37-40 | returns the buffer of a cached block, or null exactly if it is not cached |
| `BlockCacheProgram.BlockCache.AllocCacheBlock` | dylblock/block_cache.c:45-64 | the replacement in place: pointer, slots and device are those of the function on values |
| `BlockCacheProgram.BlockCache.DoCacheBlock` | dylblock/block_cache.c:66-74 | caching a block in place, as above |
| `BlockCacheProgram.BlockCache.Request` | dylblock/block_cache.c:25-74 | a client request in place: look the block up, cache it if need be, then read or overwrite its buffer; cache and answer are those of the function on values |
| `PackedMaps.SaveAndLoad` | my_Blocks_c++/blockMap.cc:55-88 | a map written and read back is the same booleans, for every map of at most 8 bits per byte of a block, whatever the output buffer held |
| `PackedMaps.BlockMap.WriteBlockMap` | my_Blocks_c++/blockMap.cc:68-88 | the two-condition loop terminates; the block packs the booleans and zeros up to the block size in bits; no other block changes |
| `PackedMaps.BlockMap.ReadBlockMap` | my_Blocks_c++/blockMap.cc:55-64 | the booleans become the bits of the block |
| `PackedMaps.BlockMap.AllocBlock` | my_Blocks_c++/blockMap.cc:35-43 | takes the least free index, or answers -1 exactly if there is none |
| `PackedMaps.UnpackOfPacked` | my_Blocks_c++/blockMap.cc:55-88 | a block that packs some booleans is read as those booleans |
| `INodeWindows.TableComesBack` | my_Blocks_c++/inode.cc:27-61 | the inode map written in overlapping windows and read back in order restores every inode, also when the block size is no multiple of the inode size |
| `INodeWindows.WindowsRoundTrip` | my_Blocks_c++/inode.cc:34-39 | the same of every byte the windows cover, over any memory read into |
| `INodeWindows.TableInWindows` | my_Blocks_c++/inode.cc:45-61 | each block gets the bytes from the first of its inodes on, bytesPerBlock / 128 inodes to a block; no other block changes |
| `INodeWindows.WriteINodeMap` | my_Blocks_c++/inode.cc:45-61 | the loop writes one window per block and no other block |
| `INodeWindows.ReadINodeMap` | my_Blocks_c++/inode.cc:27-42 | the loop lays the windows over the memory in order |
| `CppLayout.MasterBlock.constructor` | my_Blocks_c++/header_files/master_block.hh:17-39 | the subtraction loop computes the quotient rounded up; the number of inodes is the greatest up to 128 that fit a quarter of the open blocks, and 0 with fewer than none open |
| `CppLayout.CountBlocks` | my_Blocks_c++/header_files/master_block.hh:22-26 | the subtraction loop alone: it terminates and counts the quotient rounded up |
| `CppLayout.CountIsMost` | my_Blocks_c++/header_files/master_block.hh:30-38 | the formula of the constructor gives that greatest number |
| `CppLayout.TableInsideDevice` | my_Blocks_c++/header_files/master_block.hh:28-38 | with the block map at block 1 and one block besides it, the inode table lies behind the map and inside the device, with at most 128 inodes |

## Left out

- Shells.Undefined: a directory text that overruns its buffer, a failed C assertion, and a NULL or
  out-of-range pointer are one state without successors; the model does not say what the C program does then.
- SessionRefinement: covers mount, unmount, mkdir, ls and cd; `newfs` is its start and cannot come later in a
  run, `q` is an unmount, and the raw `allocBlock`, `freeBlock`, `freeINode` and `write` commands are not part
  of a session, because `freeBlock` can release metadata blocks by design. Their functions are modelled.
- BlockDevices.BlockDevice.ReadBlock: file handles, seeking, `errno` and device failures inside the range do
  not occur; the device is a sequence of blocks in memory. A C read behind the end of the file comes up
  short and is reported, as here.
- MetadataIO.MountDevice: a device that is not a formatted one gives null; the C code prints and then
  dereferences NULL. A block map with too few bits is mounted, as in C, and the shell is undefined from there.
  A wrong magic number in the block map only prints a message and is not modelled.
- MetadataIO.NewFs: the flush at the end of `newfs` is left out; the root has no children then, so it
  writes nothing. `createBlockDevice` sets the size of the file before `newfs` starts, also of a device that is
  then refused; the model starts from the device as created.
- MetadataIO.WriteINodeMap: where the block size does not divide the size of the inode table, the C code
  writes the memory behind the array into the last block, where the model has zeros. Sessions are about
  tables that end with a block.
- MetadataIO.ReadINodeMap: on such a table the C code reads the last block over the end of the array; the
  model reads through a buffer that is long enough.
- INodes.INodeRoundTrip: `link_count` and `level`, 16 bits wide in C, are words.
- FileSystems.FileSystem.GetDiskAddressOfBlock: levels above 0 are refused, as in the code.
- FileSystems.FileSystem.INodeWrite: numbers are unbounded integers where they do not reach the disk; a sum
  that overflows an `int` is excluded by `VolumeRuns.Allowed`.
- DirectoryLoader.ReadWords: on a text with more words than the pointer array holds the C code overruns it;
  such a text is excluded, and undefined for the shell.
- DirectoryEntries.AddChild: a name is a string with an address that stands for its identity; the heap
  (copying names, freeing strings and entries, the missing byte for the NUL of a new name) is left out.
- DirectoryCache.PrintChildren: a line is built as a value where the C code prints it into a buffer first.
- Shells.MayMake: asks for two blocks for each directory that exists. A directory that is never entered is
  never written and needs none, so the condition is sufficient for a defined session, not necessary.
- MainShell: reading and splitting command lines, usage messages, history and output formatting; a command is
  a value and `ls` returns its names.
- BlockCacheProgram.BlockCache.constructor: builds the entries that `allocateBlockCache` never allocates, and
  marks them empty with block number -1. Were they left zeroed they would claim block 0, which
  `BlockCaches.ZeroedCacheClaimsBlockZero` shows to be wrong on most devices.
- BlockCaches.CacheRefinesDevice: a request for a block outside the device is excluded; `flushBlockCache` is
  declared but not implemented.
- PackedMaps.BlockMap.WriteBlockMap: a map with more bits than a block holds overruns the C++ buffer and is excluded.
- INodeWindows.TableComesBack: the memory is a row of bytes with room for the last window; the C++ array ends
  with its last inode.
- The C++ inode allocation, block lookup, `addrToInode`, `readMasterBlock`, directory stubs and shell: they do
  not keep their results, or repeat the C code.
- The `fs_*` calls of `filesystem.h`, which are declared only, and the second shell `new_shell.c`.
