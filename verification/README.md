# Chimera's EKA2L1 adapter: what it keeps, proved in Dafny

The adapter runs a Symbian emulator inside a sandbox. It gives the emulator a
filesystem held in memory, a clock that only instructions and idle jumps move, a
memory bus for tools, a start date, sound, answers to dialogs, a savestate buffer
for its native driver, and a script that patches the emulator's source. This
project models those pieces and proves what they promise. `dafny verify
dfyconfig.toml` checks all of it.

## How the model is built

The source works by changing things in place, and so does the model. Its classes
keep their fields and its loops stay loops: the nodes of the tree with their
children maps (`MemoryNode`, `FileSystem`), open files, directory listings, the
clock, the machine, the bus, the audio streams and the sink, the savestate buffer,
the dialog queue and the working tree that is patched. Each method is proved
against a function on plain values, and the laws are proved about those functions
for every input and every run.

* `Paths` - drive letters, components, the EKA2 rewrite, and which spellings of a
  path are one place. A character stands for one byte of the UTF-8 path. `PathLaws`
  says the same by character codes: which letters, which drives, which paths.
* `FlatTree` - what the tree means: one map from a place (a drive and lowercased
  names) to an entry, and every operation stated on that map without walking.
* `MemoryFileSystem` - the filesystem itself. `FileSystem.Valid` ties each node to
  its place; every method keeps it, answers what the operation on the map answers
  and leaves the map it leaves.
* `TreeLaws` - over every run of operations: the shape that is kept, what may be
  touched, what one call undoes, what a rename carries. `OperationLaws` - when each
  operation is done and what then stands at which place.
* `OpenHandles` - the filesystem with the files open on it: any run of opens, seeks,
  reads, writes, resizes, closes, mounts, unmounts and calls on paths is a run of the flat
  map with its handles, and each file through all its handles is one growable array.
  `CallLaws` - what each call on a path does, told by the path's letters and names;
  `HandleLaws` - what is read after a seek, where a write lands, what a protected drive keeps.
* `Package`, `PackageLaws`, `MountLaws`, `MountShape` - the package format, its round
  trip, cuts at any byte, what mounting leaves in the tree, and in which shape.
* `FileBytes` - an open file as one growable array with a position.
* `DirectoryOrder`, `DirectoryListing` - listings in name order with a look-ahead.
  `ListingLaws` - which children each choice of attribute bits and UIDs shows.
* `VirtualClock`, `StepLoop`, `EmptyMachine`, `PeriodicTimer` - time, the step loop
  for every behaviour of the emulator, the machine that has only timers, and one
  timer among others. `Endings` says which clocks must come to their target, whatever
  is reported, and `NeverEnding` has the machine that holds the others for ever.
  `ToldTimes` says what time loop and timers are told over any run, and `BusyMachine` when
  timers fire on a machine that runs instructions.
  `Division` has the arithmetic they share, `Words` the widths.
* `Saturation`, `Audio` - sums clamped at each step, and the streams that make them.
  `SoundLaws` - which of a stream's samples is heard where, when and how loud.
* `MemoryBus`, `BusRuns` - the address space with its kept translation, and runs of
  accesses between the game's own stores and mappings.
* `ClockStart`, `StateBuffer`, `PatchSeries`, `DialogQueue`.

Inputs the model takes as parameters: the UTF-16 conversion of a package's paths,
wildcard matching and path joining (`Platform`), what the emulator's loop and
timers do (`Behaviour`), what a sound callback gives, what a dialog's callback
raises, whether memory is left, and what each patch does. The timers' `advance` belongs
to the emulator; `EmptyMachine` takes it to fire in one call what is due when it is
called, so what those firings set waits for the next call, and to answer the time to the
earliest deadline, 0 when that has passed.

Integers are unbounded except where the source's width shows: the clock's counts
and seek positions wrap at 64 bits, addresses and instruction reports are 32 bits
wide, samples are 16 bits wide and clamped.

## What was found not to hold

* How a frame is cut into calls can matter once a thread runs. Timers fire after the
  emulator's loop, so a thread woken in an idle slice runs only after the next jump:
  `EmptyMachine.CutsMatterWithThreads` gives a machine and a cut. For every machine a
  cut is neutral unless an idle pass jumps over it, and then exactly when the machine
  goes on alike from the middle of the jump and from its end
  (`StepLoop.CutNeutralExactly`); it does when nothing is there to do in the middle
  (`StepLoop.QuietCutNeutral`). The empty machine is always quiet there, so for it
  every cut is neutral (`EmptyMachine.EmptyCutNeutral`, `EmptyMachine.CutsNeutral`).
* Files can come to hold entries, because no operation asks whether what it puts an
  entry into is a directory. `TreeLaws.StepKeepsTidy` says exactly which calls do it,
  `TreeLaws.FilesCanHoldEntries` gives one of each kind, and
  `MountShape.MountKeepsTidy` says exactly which packages do.
* The step loop need not end. When a sum wraps, time is lost, and a machine that chooses
  its reports so that a wrap comes whenever a microsecond is due holds the clock for ever
  (`NeverEnding.Stubborn`). It can exactly when the remainder can come to a place from
  which the longest report wraps before one instruction buys a microsecond
  (`NeverEnding.EndsExactly`, with `Endings.Ends`); every behaviour ends otherwise
  (`StepLoop.PassFalls`, `NeverEnding.NoneEndless`). From the start no behaviour is
  endless, whatever the target, if and only if the rate plus 4294967295000000 is at most
  2^64 + 1000000 - 64 (`NeverEnding.StartEndsExactly`); at the rate 2^64 - 1 a full
  report on each pass already stands still (`NeverEnding.FullReportsStandStill`).
* A firing that sets an event with no delay at all does not have it fire at its deadline:
  the loop jumps at least one microsecond, so it fires one later
  (`EmptyMachine.AtOnceIsLate`). Every other event fires at its deadline exactly
  (`EmptyMachine.NeverLate`, `EmptyMachine.CallsNeverLate`).
* On a machine that runs instructions a deadline inside a slice is met late, because the
  timers are looked at when the slice is paid for: late by no more than what the longest
  slice bought (`BusyMachine.BusyOnTime`).
* A write-protected drive is not proof against a resize, which asks neither the drive nor the
  mode a file was opened with: a file opened for reading alone can be cut
  (`HandleLaws.ProtectedIsResized`). A call on files changes something on such a drive if and
  only if it gives a file on it another size (`HandleLaws.ProtectedExactly`), so no run without
  such a call does (`HandleLaws.ProtectedStays`).
* A file of a mounted package need not be found at its own path. Packages are mounted on
  EKA2 phones, which rewrite the paths of libraries and programs, and mounting does not:
  the path leads to the file if and only if it is not rewritten (`MountLaws.FilePath`),
  and `MountLaws.LibraryElsewhere` gives a library. For the same reason a path that
  `create_directories` has just made need not resolve (`TreeLaws.CreatedResolves` says
  exactly when, `TreeLaws.CreatedElsewhere` gives one), nor a name that was listed
  (`DirectoryListing.LookedUpExactly`, `DirectoryListing.LibsListedElsewhere`).
* Deleting a file that holds entries takes them along (`TreeLaws.DeleteTakesOneExactly`).
* Writing a separator twice can change where a path points: it breaks the two
  prefixes EKA2 rewrites. `Paths.DoubledSamePlace` says exactly when, and
  `Paths.DoubledPlaceDiffers` gives a path.
* The saturating mix can depend on the order of the streams
  (`Saturation.LoudMixDependsOnOrder`). It does not if and only if all contributions
  push one way, or the rises total at most 32767 and the falls at most 32768
  (`Saturation.OrderFreeExactly`).
* The clock's owed sum can leave 64 bits: at the rate 2^64 - 1 the 4295th full report
  does it, and the microsecond bought so far is lost (`VirtualClock.TopRateWraps`).
  From the start no run of reports ever does if and only if the rate, less its
  greatest common divisor with a million, plus 4294967295000000 stays below 2^64
  (`VirtualClock.StartFits`; from any clock, `VirtualClock.OwedFits`). The comment
  beside the sum in the source claims the room without a bound on the rate.

## Model

| member | source | states |
|---|---|---|
| Paths.SplitPath | waterbox/memfs.cpp:25-56 | The byte loop yields the lowercased drive letter and exactly the maximal separator-free runs, in order; it succeeds exactly when a letter was found |
| Paths.ComponentsAreNames | waterbox/memfs.cpp:38-53 | No component is empty or holds a separator |
| Paths.Rewrite | waterbox/memfs.cpp:61-96 | The prefix loop rewrites exactly the two EKA2 prefixes, whatever their case and separators, and nothing else |
| Paths.RewriteIdempotent | waterbox/memfs.cpp:61-96 | Rewriting a rewritten path changes nothing |
| Paths.RespelledSamePlace | waterbox/memfs.cpp:389-420 | Two spellings of a path that differ in case and kind of separator point at one place, before EKA2 and after it |
| Paths.DoubledSamePlace | waterbox/memfs.cpp:38-96 | A separator written twice leaves the place the same if and only if it does not stand inside a rewritten prefix |
| Paths.DoubledPlaceDiffers | waterbox/memfs.cpp:87-89 | A path below the rewritten libraries' directory, and the same with its first separator twice, that point at different places |
| PathLaws.DriveExactly | waterbox/memfs.cpp:30-33 | A path leads to drive d exactly when it begins with a colon after character code 65 + d or 97 + d, for each d below 26, before EKA2 and after it |
| PathLaws.LoweredAlike | waterbox/memfs.cpp:15-21 | Two names are one key exactly when at each index the characters are equal or the codes of one letter, 65 to 90 against 97 to 122 |
| PathLaws.OnePlaceExactly | waterbox/memfs.cpp:15-21 | Two locations are one place exactly when the drives are equal and the names pairwise one in that sense |
| PathLaws.JoinedSplits | waterbox/memfs.cpp:38-53 | Names with separators of either code between them, any number of them, are split into exactly those names |
| PathLaws.JoinedLeads | waterbox/memfs.cpp:25-56 | A path put together from a letter, capital or small, and names leads to that drive and those names |
| PathLaws.RewriteLeads | waterbox/memfs.cpp:61-96 | On EKA2 a path below \system\libs or \system\programs, told by codes, leads where the same path below \sys\bin leads, and any other where it says |
| FlatTree.SamePlaceSameKey | waterbox/memfs.cpp:407-419 | Two locations are one key of the tree exactly when drive and lowercased names agree |
| FlatTree.RebaseInverse | waterbox/memfs.cpp:707-711 | Carrying a place from one subtree to another and back gives the place again |
| FlatTree.CarriedAt | waterbox/memfs.cpp:707-711 | What stands at each place after a move, and where it stood before |
| FlatTree.AllDirectoriesStep | waterbox/memfs.cpp:920-929 | One more name on the way down makes or converts exactly one more entry |
| OperationLaws.CreatesDirectory | waterbox/memfs.cpp:885-900 | Done exactly when there is a last name and something for it to lie in; a directory stands there then, under the name as spelled, a new one empty, one that was there with its bytes and slice; nothing else changes |
| OperationLaws.CreatesTheWay | waterbox/memfs.cpp:902-932 | Done exactly on a mounted drive; every place on the way is a directory then, a new one empty and as spelled, one that was there otherwise as it was |
| OperationLaws.CreatesOnlyTheWay | waterbox/memfs.cpp:920-929 | No place off the way changes |
| OperationLaws.DeletesExactly | waterbox/memfs.cpp:856-883 | Done exactly on what has a name and is there, unless it is a directory with something in it; the entry and all below it go, and nothing else |
| OperationLaws.RenamesExactly | waterbox/memfs.cpp:683-714 | Done exactly when the old path has a name and is there and the new one has a name and something to lie in; the entry stands there then, under the new name as spelled |
| OperationLaws.OpensExactly | waterbox/memfs.cpp:741-795 | What is there is opened unless it is a directory or would be written and is fixed or protected; what is not is made exactly when the mode writes, the drive is not protected and it can lie in something |
| OperationLaws.OpeningLeaves | waterbox/memfs.cpp:766-798 | Only opening for writing alone empties a file; a new one is empty, under its name as spelled; nothing else changes |
| OperationLaws.MountsExactly | waterbox/memfs.cpp:466-489 | A drive is mounted once, and only its bare root is new |
| OperationLaws.UnmountsExactly | waterbox/memfs.cpp:728-739 | Exactly what lies on the drive goes |
| MemoryFileSystem.FileSystem.constructor | waterbox/memfs.cpp:377-385 | Twenty-six empty roots, nothing mounted, an empty tree |
| MemoryFileSystem.FileSystem.TreeIsRooted | waterbox/memfs.h:28-34 | In every state the methods reach, each entry lies in another, under the lowercased form of its non-empty separator-free name |
| MemoryFileSystem.FileSystem.Walk | waterbox/memfs.cpp:407-419 | Walking the children maps finds exactly the node the flat map has at that place, or nothing |
| MemoryFileSystem.FileSystem.Resolve | waterbox/memfs.cpp:389-420 | A path resolves to exactly what the flat map keyed by drive and lowercased names has |
| MemoryFileSystem.FileSystem.ResolveParent | waterbox/memfs.cpp:422-456 | Gives what the path's last name would lie in and that name as spelled, exactly when there is one |
| MemoryFileSystem.FileSystem.CreateDirectory | waterbox/memfs.cpp:885-900 | Answer and tree are those of the flat map, an existing entry renamed and made a directory; a refusal changes nothing |
| MemoryFileSystem.FileSystem.CreateDirectories | waterbox/memfs.cpp:902-932 | Every name on the unrewritten path is made or becomes a directory and keeps its spelling, bytes and children; a refusal changes nothing |
| MemoryFileSystem.FileSystem.DeleteEntry | waterbox/memfs.cpp:856-883 | Deletes exactly what the flat map deletes and refuses the absent and directories that hold anything |
| MemoryFileSystem.FileSystem.Replace | waterbox/memfs.cpp:683-714 | Moves the whole subtree over whatever stood at the new path, with the new name; a refusal changes nothing |
| MemoryFileSystem.FileSystem.Relink | waterbox/memfs.cpp:707-711 | Erasing from one children map and storing in another changes, of all nodes, exactly the two maps, the moved name and the places below it |
| MemoryFileSystem.FileSystem.MountEmpty | waterbox/memfs.cpp:466-489 | A drive not mounted gets a bare root; a mounted one refuses |
| MemoryFileSystem.FileSystem.Unmount | waterbox/memfs.cpp:728-739 | A mounted drive loses everything on it, the other drives nothing |
| MemoryFileSystem.FileSystem.OpenFile | waterbox/memfs.cpp:741-799 | Which opens succeed, what they create or empty, write protection and package files included, and where the handle starts |
| MemoryFileSystem.FileSystem.ReadWhole | waterbox/memfs.cpp:606-618 | The content of exactly the paths that are files, from the package or from memory |
| MemoryFileSystem.FileSystem.GetEntryInfo | waterbox/memfs.cpp:824-847 | Kind, size and protection of exactly the paths that resolve |
| MemoryFileSystem.FileSystem.MountRpkg | waterbox/memfs.cpp:491-604 | Answer and tree are those of the package's complete records laid in order; -1 changes nothing at all |
| MemoryFileSystem.FileSystem.LayRecords | waterbox/memfs.cpp:545-603 | The cursor loop lays exactly the complete records and counts those that name a file |
| MemoryFileSystem.FileSystem.LayRecord | waterbox/memfs.cpp:581-598 | One record makes the directories on its way and leaves its slice at its place |
| MemoryFileSystem.TakeRecord | waterbox/memfs.cpp:545-573 | Reading one record field by field refuses exactly where the package is cut off |
| MemoryFileSystem.MemoryFile.constructor | waterbox/memfs.cpp:123-134 | A handle starts at the end of the file when appending, else at its start |
| MemoryFileSystem.MemoryFile.WriteFile | waterbox/memfs.cpp:140-158 | A write is one on a growable array at the position, seen in the tree; a handle that may not write, or a package file, changes nothing |
| MemoryFileSystem.MemoryFile.ReadFile | waterbox/memfs.cpp:160-179 | Exactly the bytes there are, and the rest of the buffer untouched |
| MemoryFileSystem.MemoryFile.Seek | waterbox/memfs.cpp:193-227 | The new 64-bit position for each kind of seek, and the refusal of all ones |
| MemoryFileSystem.MemoryFile.Resize | waterbox/memfs.cpp:250-257 | The file is cut or zero-filled; a package file refuses |
| MemoryFileSystem.MemoryFile.StaysAttached | waterbox/memfs.cpp:121-130 | A handle stays good over any call that leaves its file's place and node |
| FileBytes.ChunkedWrite | waterbox/memfs.cpp:145-157 | Writing in chunks is writing at once |
| FileBytes.ChunkedRead | waterbox/memfs.cpp:160-179 | Reading in chunks is reading at once |
| FileBytes.WriteThenRead | waterbox/memfs.cpp:140-179 | What chunks of one cut wrote, chunks of any other cut read back |
| TreeLaws.StepKeepsRooted | waterbox/memfs.cpp:389-456 | Each operation keeps every entry lying in another, under the lowercased form of its name |
| TreeLaws.RunKeepsRooted | waterbox/memfs.cpp:683-932 | So does every run of operations |
| TreeLaws.StepTouchesOnlyNamed | waterbox/memfs.cpp:683-932 | A call changes only the places it names, and one that answers false or null changes nothing |
| TreeLaws.RunTouchesOnlyNamed | waterbox/memfs.cpp:683-932 | What no call of a run names is as it was |
| TreeLaws.StepKeepsTidy | waterbox/memfs.cpp:443-455 | Only directories hold entries after a call if and only if it did not find a file as the parent of what it creates or renames, told from its arguments and the tree before it |
| TreeLaws.RunKeepsTidy | waterbox/memfs.cpp:773-775 | After any run in which no call does, still only directories hold entries |
| TreeLaws.FilesCanHoldEntries | waterbox/memfs.cpp:763-777 | A tree on which an open, a create and a rename each put an entry below a file |
| TreeLaws.DeleteTakesOne | waterbox/memfs.cpp:877-882 | Where only directories hold entries, deleting takes away exactly one entry |
| TreeLaws.DeleteTakesOneExactly | waterbox/memfs.cpp:877-882 | In any tree, deleting takes away exactly one entry if and only if nothing lay in it |
| TreeLaws.CreatedResolves | waterbox/memfs.cpp:902-932 | A path just created leads to a directory if and only if EKA2 does not rewrite it, or one was already there where it does |
| TreeLaws.CreatedElsewhere | waterbox/memfs.cpp:904-907 | A library path on a bare drive that is created and then not found |
| TreeLaws.RenameCarries | waterbox/memfs.cpp:683-714 | Every suffix that resolved below the old path resolves to the same below the new one, and nothing else does |
| TreeLaws.RenameLeavesNothing | waterbox/memfs.cpp:710-711 | Nothing is left below the old path when neither lies in the other |
| TreeLaws.RenameRespells | waterbox/memfs.cpp:707-711 | Renaming to another spelling of the same path changes the stored name alone |
| TreeLaws.CreateThenDelete | waterbox/memfs.cpp:763-777 | Deleting what was just created, a file in any writing mode or a directory, gives the tree back |
| TreeLaws.RenameThenBack | waterbox/memfs.cpp:683-714 | Renaming to a free place and back gives the tree back, but for the spelling of the one name |
| TreeLaws.OpenThenWrite | waterbox/memfs.cpp:783-796 | Opened for writing alone a file starts empty, for reading and writing it keeps what the write does not cover, appending it keeps all |
| TreeLaws.PackageFileStays | waterbox/memfs.cpp:790-792 | No run of opens, writes and resizes changes a package's file |
| OpenHandles.Session.Fetch | waterbox/memfs.cpp:741-799 | An open leaves every file that was open as it was and gives a handle where the flat map says it starts |
| OpenHandles.Session.Delete | waterbox/memfs.cpp:856-883 | Deleting leaves every open file it does not name open, on the same node and at its position; a refusal, above open files too, leaves all |
| OpenHandles.Session.Rename | waterbox/memfs.cpp:683-714 | So does renaming |
| OpenHandles.Session.Close | waterbox/memfs.cpp:233-235 | Closing leaves the tree and every other handle as it was |
| OpenHandles.Session.Write | waterbox/memfs.cpp:140-158 | A write through one handle stores in its file, moves that handle alone, and is seen by every other handle on the file |
| OpenHandles.Session.Read | waterbox/memfs.cpp:160-179 | A read gives what all the calls before it left in the file, from the handle's own position |
| OpenHandles.Session.Seek | waterbox/memfs.cpp:193-227 | A seek moves its own handle alone, to the 64-bit position counted from the file as all the calls before it left it |
| OpenHandles.Session.Mount | waterbox/memfs.cpp:466-489 | Mounting keeps every file open; a drive that was not mounted gets its root and its protection |
| OpenHandles.Session.Unmount | waterbox/memfs.cpp:728-739 | Unmounting a drive leaves the files open on the others on the same nodes and at their positions |
| OpenHandles.Session.Do | waterbox/memfs.cpp:121-932 | Every call does to the nodes and handles, and answers, what it does to the flat map with its handles |
| OpenHandles.Session.Play | waterbox/memfs.cpp:121-932 | Any run of opens, seeks, reads, writes, resizes, closes, mounts, unmounts and calls on paths leaves the tree and the handles, and gives the answers, that the flat map says |
| OpenHandles.CallsAreOperations | waterbox/memfs.cpp:683-932 | Such a run does to the tree what its operations do, so every law of their runs holds of it |
| OpenHandles.CallsKeepPackageFile | waterbox/memfs.cpp:790-792 | No run of opens, seeks, reads, writes, resizes and closes through any handles changes a package's file |
| OpenHandles.FileIsArray | waterbox/memfs.cpp:140-257 | Over any run of seeks, reads, writes, resizes and closes through any handles on any files, each file and the answers about it are those of one growable array with a position for each handle on it |
| OpenHandles.MadeAndGone | waterbox/memfs.cpp:763-777 | A new file opened in any writing mode, written, closed and deleted leaves tree and handles as they were |
| CallLaws.MakesOne | waterbox/memfs.cpp:885-900 | The call on a path spelled with a drive's letter and names makes the directory of its last name exactly when the names before it lead somewhere |
| CallLaws.MakesAll | waterbox/memfs.cpp:902-932 | On a mounted drive each name of the path, as it is spelled, leads to a directory then, also where EKA2 rewrites the path |
| CallLaws.Deletes | waterbox/memfs.cpp:856-883 | What the path's names lead to goes with all below it, exactly when it may |
| CallLaws.Renames | waterbox/memfs.cpp:683-714 | What stood at the old path's place stands at the new path's, under its last name, and no longer at the old one |
| CallLaws.OpensThere | waterbox/memfs.cpp:741-798 | Which opens of what is there succeed, and the handle stands at the end when it appends, else at the start |
| CallLaws.OpensNew | waterbox/memfs.cpp:762-798 | Which opens of what is not there make it, empty and under its last name |
| CallLaws.Mounts | waterbox/memfs.cpp:466-489 | A drive not mounted gets root and protection, no other drive anything; a mounted one keeps both |
| CallLaws.Unmounts | waterbox/memfs.cpp:728-739 | What is on the drive goes, and nothing else |
| CallLaws.Closes | waterbox/memfs.cpp:233-235 | The handles opened before and after the closed one stay, in order |
| HandleLaws.SeekFromBegin | waterbox/memfs.cpp:196-198 | After a seek to p from the beginning a read gives the bytes from p on |
| HandleLaws.SeekFromEnd | waterbox/memfs.cpp:204-206 | After a seek by -n from the end a read gives the last n bytes |
| HandleLaws.SeekFromHere | waterbox/memfs.cpp:200-202 | After a seek back by what a read gave, the same read gives it again |
| HandleLaws.SeekRefused | waterbox/memfs.cpp:208-223 | Asking for the file's address answers 64 ones |
| HandleLaws.WritesExactly | waterbox/memfs.cpp:145-157 | A write puts its bytes at the handle's position; before and after it the file stays, and a gap past the old end is zeros |
| HandleLaws.ResizesExactly | waterbox/memfs.cpp:250-257 | A resize keeps the bytes up to the new size and fills the rest with zeros |
| HandleLaws.AppendsAtEnd | waterbox/memfs.cpp:123-158 | Opened for appending, the first write lands at the end of the file |
| HandleLaws.ProtectedExactly | waterbox/memfs.cpp:757-760 | On a write-protected drive with no writing handle an open, read, write, seek, close or resize changes something exactly when it gives a file there another size |
| HandleLaws.ProtectedStays | waterbox/memfs.cpp:757-760 | So no run of them in which none does changes anything there |
| HandleLaws.ProtectedIsResized | waterbox/memfs.cpp:250-257 | A file opened for reading on a protected drive is cut by a resize |
| Package.WordOfEncoded | waterbox/memfs.cpp:550-552 | A little-endian word of any width reads back as the number encoded |
| PackageLaws.EncodeEncodes | waterbox/memfs.cpp:546-573 | Every path and content has a record that says so, whatever its attributes and time |
| PackageLaws.HeaderRead | waterbox/memfs.cpp:505-530 | A header of either format is accepted and the records start right after it |
| PackageLaws.HeaderExists | waterbox/memfs.cpp:514-530 | Both formats have such headers, for any version bytes |
| PackageLaws.HeaderExactly | waterbox/memfs.cpp:505-530 | A header is accepted exactly where one of the two formats stands |
| PackageLaws.RecordRead | waterbox/memfs.cpp:546-573 | A complete record is read for what it encodes |
| PackageLaws.CutRecordRefused | waterbox/memfs.cpp:545-573 | A record cut off at any byte before its end is not read |
| PackageLaws.CutRecords | waterbox/memfs.cpp:545-603 | Of a package cut off anywhere after the header, exactly the complete records are read |
| PackageLaws.SlicesHoldData | waterbox/memfs.cpp:597-598 | Each complete record's slice of the package is its file's bytes |
| PackageLaws.SlicesApart | waterbox/memfs.cpp:597-602 | Of any package whatever, the records' slices lie inside it, one after the other, never overlapping |
| MountLaws.LaidAt | waterbox/memfs.cpp:581-600 | At every place: the files and what leads to them are there, and nothing else is new |
| MountLaws.LaidSlices | waterbox/memfs.cpp:597-598 | Each file is the slice its record gave, whatever is laid after it |
| MountLaws.DriveIsDropped | waterbox/memfs.cpp:571-579 | The first three units of a path are dropped, whatever they are; a path that ends with them names nothing |
| MountLaws.NamesAreSmall | waterbox/memfs.cpp:573-575 | The names a record gives hold no capital letter |
| MountLaws.LaidName | waterbox/memfs.cpp:585-589 | A new file is laid under the last of those names; one that was there keeps its own |
| MountLaws.MountGivesFiles | waterbox/memfs.cpp:491-618 | Mounting undoes the encoding: of a package whole or cut, the answer is the number of complete records and each reads as its own bytes |
| MountLaws.FilePath | waterbox/memfs.cpp:575-582 | The file's own path on the drive it was mounted on, in any case, leads to its place if and only if EKA2 does not rewrite it |
| MountLaws.LibraryElsewhere | waterbox/memfs.cpp:87-89 | A library in a package whose own path leads elsewhere on EKA2 |
| MountLaws.MountGivesNothingElse | waterbox/memfs.cpp:533-603 | On the drive only those files and the directories that lead to them, off the drive everything as it was |
| MountLaws.LayKeepsTidy | waterbox/memfs.cpp:584-594 | Laying a file keeps files from holding entries if and only if nothing lay below its place |
| MountShape.ShapeAt | waterbox/memfs.cpp:584-594 | For any records: a place on the drive is there exactly when some record is at it or below it, and a file exactly when the last such record is at it |
| MountShape.BytesAt | waterbox/memfs.cpp:584-598 | For any records: a place that some are at holds the slice of the last of them, even where a later one makes it a directory |
| MountShape.MountKeepsTidy | waterbox/memfs.cpp:545-603 | Mounting any package keeps files from holding entries if and only if it fails or no record lays a file over another's for good |
| MountShape.FileOverDirectory | waterbox/memfs.cpp:584-594 | A file and then one in its directory's place bury it; in the other order they do not |
| DirectoryOrder.SortedUnique | waterbox/memfs.h:32-34 | There is one list of any keys in map order, whatever order they were made in |
| DirectoryOrder.InOrder | waterbox/memfs.cpp:289-291 | Walking the children map visits every key once, in the order of the lowercased names |
| DirectoryListing.OneListing | waterbox/memfs.cpp:289-291 | A directory's listed names depend on its children alone |
| DirectoryListing.OpenDirectory | waterbox/memfs.cpp:801-822 | Opens exactly existing directories, splits off the filter, and takes every child's name once, in order |
| DirectoryListing.MemoryDirectory.constructor | waterbox/memfs.cpp:280-292 | The names taken are those of all children, once each and in order, and none is looked up yet |
| DirectoryListing.MemoryDirectory.GetNextEntry | waterbox/memfs.cpp:294-351 | Answers the first entry still to come and takes it away, or nothing at the end |
| DirectoryListing.MemoryDirectory.TestOne | waterbox/memfs.cpp:303-347 | The wildcard, attribute and UID tests let exactly the passing entries through |
| DirectoryListing.MemoryDirectory.PeekNextEntry | waterbox/memfs.cpp:353-360 | Answers the first entry still to come and takes nothing |
| DirectoryListing.PeeksLeaveNoTrace | waterbox/memfs.cpp:294-360 | So the takes answer the entries in order and then nothing, wherever the peeks stand |
| DirectoryListing.Play | waterbox/memfs.cpp:294-360 | Played on a listing with its look-ahead, any run of peeks and takes answers its takes with what remained, in order |
| DirectoryListing.LookedUpExactly | waterbox/memfs.cpp:303-311 | The joined path of a listed name leads to the child of that name if and only if EKA2 does not rewrite it |
| DirectoryListing.ListingShowsChildren | waterbox/memfs.cpp:300-348 | On an unchanged tree, when no name's path is rewritten, each child that passes comes back once, with its own kind and size |
| ListingLaws.ListsDirectories | waterbox/memfs.cpp:313-321 | Asked for directories alone, exactly the matching directories are listed, with kind, size and joined path, in order |
| ListingLaws.ListsFiles | waterbox/memfs.cpp:313-321 | Asked for files alone, exactly the matching files |
| ListingLaws.ListsEverything | waterbox/memfs.cpp:313-321 | Asked for both, or with no bit at all, every matching child |
| ListingLaws.ListsNothing | waterbox/memfs.cpp:313-321 | With some other bit and neither of the two, nothing |
| ListingLaws.ListsUids | waterbox/memfs.cpp:329-344 | Asked for files by UID, exactly the matching files whose first three little-endian words are the non-zero UIDs, and the directories as without UIDs |
| ListingLaws.LessExactly | waterbox/memfs.h:32-34 | One name comes before another exactly when it begins it or has the lower code where they first differ |
| ListingLaws.LastNameFilters | waterbox/memfs.cpp:806-812 | What follows the last separator of a path is the filter, and what is before it, with the separator, the directory |
| ListingLaws.WholePathLists | waterbox/memfs.cpp:806-812 | A path that ends in a separator or has none is all directory, and the filter lets every name pass |
| DirectoryListing.LibsListedElsewhere | waterbox/memfs.cpp:87-89 | The libraries' directory, listed by its parent and not found there |
| VirtualClock.VirtualClock.constructor | waterbox/vclock.cpp:6-12 | The clock starts at its epoch, with a rate that is never 0 |
| VirtualClock.VirtualClock.AdvanceUs | waterbox/vclock.cpp:24-26 | Idle time moves only the clock's now |
| VirtualClock.VirtualClock.SpendInstructions | waterbox/vclock.cpp:28-37 | Instructions buy time at the rate, wrapping as 64 bits do, and keep the remainder below the rate |
| VirtualClock.VirtualClock.ElapsedUs | waterbox/vclock.h:39-41 | The elapsed time is what added to the epoch gives now |
| VirtualClock.OwedFits | waterbox/vclock.cpp:31-33 | From any clock, no run of reports makes the owed sum leave 64 bits if and only if the largest remainder it can reach leaves room for the longest report |
| VirtualClock.StartFits | waterbox/vclock.cpp:31-33 | From the start: if and only if the rate less its greatest common divisor with a million, plus 4294967295000000, is below 2^64 |
| VirtualClock.TopRateWraps | waterbox/vclock.cpp:31-36 | At the rate 2^64 - 1, 4294 full reports fit, the next wraps, and the microsecond they bought together is lost |
| VirtualClock.ClockLaw | waterbox/vclock.cpp:24-37 | Any interleaving of calls whose sums fit leaves what one report of all instructions and one jump would |
| VirtualClock.SplitsNeverMatter | waterbox/vclock.h:30-33 | Two runs whose sums fit, with equal totals, leave the same clock, whatever the rate |
| VirtualClock.ElapsedLaw | waterbox/vclock.cpp:6-37 | After any run whose sums fit, now is the epoch plus the advances plus floor(instructions * 1000000 / rate) |
| VirtualClock.ZeroRate | waterbox/vclock.cpp:6-12 | A rate of 0 is taken as 1: each instruction buys a second |
| StepLoop.PassMoves | waterbox/machine.cpp:1134-1166 | For every behaviour of loop and timers, a pass moves the clock by exactly what it was worth, or, when the sum wraps, not at all, and never past the target by idling |
| StepLoop.PassKeeps | waterbox/machine.cpp:1134-1166 | A clock bound to come to the target still is after any pass |
| StepLoop.PassFalls | waterbox/machine.cpp:1134-1166 | On each pass the time to go falls, or stays and the wraps still to come fall, or both stay and the remainder grows; so the loop ends even where sums wrap |
| StepLoop.PriceFalls | waterbox/machine.cpp:1134-1166 | While sums fit, one number falls: (target - now) * rate - remainder |
| Endings.LowRateEnds | waterbox/vclock.cpp:28-37 | Any clock of a rate up to 2^64 + 1000000 - 64 - 4294967295000000 must come to any target |
| Endings.RoomyEnds | waterbox/vclock.cpp:28-37 | So must a clock whose sums never wrap |
| NeverEnding.NoneEndless | waterbox/machine.cpp:1134-1166 | No behaviour whatever goes on for ever on a clock that must come to the target |
| NeverEnding.EndsExactly | waterbox/machine.cpp:1134-1166 | From any clock, some behaviour goes on for ever if and only if the clock need not come to the target |
| NeverEnding.StartEndsExactly | waterbox/vclock.cpp:6-37 | From the start a clock must come to every target if and only if the rate plus 4294967295000000 is at most 2^64 + 1000000 - 64 |
| NeverEnding.FullReportsStandStill | waterbox/vclock.cpp:28-37 | At the rate 2^64 - 1, from an even remainder, full reports never move the clock, however many |
| StepLoop.ExitLaw | waterbox/machine.cpp:1134-1168 | On exit the target is reached, exactly after an idle pass, else overshot by at most the last report's n * 1000000 / rate |
| StepLoop.LoopIsClockRun | waterbox/machine.cpp:1134-1166 | The loop's time is a run of the clock, so the clock's laws hold of it |
| ToldTimes.TimesTold | waterbox/machine.cpp:1134-1153 | Over any run of any machine, one time per pass: the loop is told the clock's when the pass begins, the timers the clock's once the report is paid for; keeping them changes nothing else |
| BusyMachine.PassFires | waterbox/machine.cpp:1151-1153 | Whatever the loop runs, on each pass exactly what is due by the time the slice has bought fires |
| BusyMachine.BusyOnTime | waterbox/machine.cpp:1134-1166 | Over any run of any such machine: each firing no earlier than due and no later than the longest slice bought, or one more for what was set at once; nothing overdue is left, and each event waits or has fired as often as it was asked for |
| BusyMachine.DueHasFired | waterbox/machine.cpp:1134-1166 | So every event whose time came before the end has fired as often as it was asked for |
| StepLoop.Machine.Ticks | waterbox/machine.cpp:176-179 | A report is counted for the slice and paid for in time |
| StepLoop.CutNeutralExactly | waterbox/machine.cpp:1134-1166 | For every machine: a cut that no idle pass jumps over is neutral, and one that is jumped over exactly when the machine goes on alike from the middle of the jump and from its end |
| StepLoop.QuietCutNeutral | waterbox/machine.cpp:1153-1165 | So a cut is neutral when nothing runs and nothing is due in the middle of the jump over it |
| StepLoop.Machine.PassOnce | waterbox/machine.cpp:1134-1166 | One turn of the loop is the pass that the laws are about, and the slice counts what it ran |
| StepLoop.Machine.RunForUs | waterbox/machine.cpp:1121-1169 | The loop ends in the state of the passes taken one by one and counts the calls of the emulator; a target past 64 bits wraps |
| EmptyMachine.LoopIsRun | waterbox/machine.cpp:1127-1166 | On a machine without a device the step loop is all firing and jumping, and ends exactly on the target |
| EmptyMachine.EmptyQuiet | waterbox/machine.cpp:1127-1165 | Wherever the empty machine idles over, nothing is there to do |
| EmptyMachine.EmptyCutNeutral | waterbox/machine.cpp:1159-1165 | So stopping anywhere on the way changes nothing: not what fired, when, or what waits |
| EmptyMachine.CutsNeutral | waterbox/machine.cpp:1121-1169 | Any sequence of calls leaves what one call for their sum leaves |
| EmptyMachine.SameCalls | waterbox/machine.cpp:1121-1169 | Two ways to cut the same time leave the same timers, log and clock |
| EmptyMachine.NeverLate | waterbox/machine.cpp:1151-1165 | Every firing is at its deadline, or a microsecond later exactly when a firing set it with no delay, and nothing that was to fire is left waiting |
| EmptyMachine.AtOnceIsLate | waterbox/machine.cpp:1159-1165 | An event due at a time that sets another at once: the other fires a microsecond later |
| EmptyMachine.CallsNeverLate | waterbox/machine.cpp:1121-1169 | So over any sequence of calls |
| EmptyMachine.EachFiresOnce | waterbox/machine.cpp:1151-1165 | Of each event, as often as it waited or was set by a firing: when its time comes before the end it has fired then, otherwise it waits, so often and no more |
| EmptyMachine.CallsFireOnce | waterbox/machine.cpp:1121-1169 | So over any sequence of calls, the log growing by exactly those firings |
| EmptyMachine.EachFires | waterbox/machine.cpp:1121-1169 | Every event that waits fires when its time comes, or still waits when the end comes first |
| PeriodicTimer.PeriodicRun | waterbox/wbx-entry.cpp:346-368 | Alone, a timer that sets itself again fires once at each of its deadlines before the target and nowhere else |
| PeriodicTimer.OnlyRun | waterbox/wbx-entry.cpp:346-368 | Among any timers that do not set it, it does what it does alone |
| PeriodicTimer.AloneSetsItself | waterbox/wbx-entry.cpp:353-364 | The timer check's own callback is such a timer |
| PeriodicTimer.PeriodicCount | waterbox/wbx-entry.cpp:346-373 | Among any others, a timer of period p has fired (T - 1) / p times after T microseconds, each at its deadline, however T is cut |
| PeriodicTimer.DocumentedCount | docs/PLAN.md:148-151 | Every millisecond over sixty frames of a sixtieth of a second: 999 firings |
| EmptyMachine.CutsMatterWithThreads | waterbox/machine.cpp:1135-1157 | With a thread that a timer wakes in an idle slice, cutting the same time differently changes when it ran |
| MemoryBus.Machine.ResolveUser | waterbox/machine.cpp:566-599 | With the kept translation the answer is what the page tables give, and a page mapped after a failed lookup is seen at once |
| MemoryBus.Machine.MapPage | waterbox/machine.cpp:585-596 | A newly mapped page leaves the kept translation right |
| MemoryBus.Machine.PeekUser | waterbox/machine.cpp:601-604 | The byte the page tables give, 0 for unmapped memory and the lowest page |
| MemoryBus.Machine.PokeUser | waterbox/machine.cpp:621-625 | Changes exactly the bytes that share that memory, and nothing when unmapped |
| MemoryBus.Machine.ReadUser | waterbox/machine.cpp:606-619 | A run is what peeking gives byte by byte, across pages, unmapped ones and the end of the address space |
| MemoryBus.Bus.PeekBus | waterbox/wbx-entry.cpp:471-477 | The machine's byte inside the bus, 0 outside it or before the machine is up |
| MemoryBus.Bus.ReadBus | waterbox/wbx-entry.cpp:479-502 | A run wholly inside the bus is what peeking gives up to 65536 bytes; another is zeros, the rest of the buffer untouched |
| MemoryBus.Bus.PokeBus | waterbox/wbx-entry.cpp:504-510 | Stores the low byte where peeking at the same address sees it, and nowhere else |
| BusRuns.PagesExactly | waterbox/machine.cpp:566-604 | A page is 4096 bytes, and an address reads the byte that far into its page |
| BusRuns.BusExactly | waterbox/wbx-entry.cpp:471-477 | The bus is bus 0's first 67108864 addresses, of which the lowest 4096 read as 0 |
| BusRuns.BusComesUp | waterbox/wbx-entry.cpp:471-477 | Until the machine is up the bus reads as 0 and takes nothing; then it reads as memory |
| BusRuns.SeenAtOnce | waterbox/machine.cpp:566-604 | A page mapped while running reads as what it holds, and the game's store as what was stored, from then on |
| BusRuns.RunExactly | waterbox/wbx-entry.cpp:479-502 | A run gives at most 65536 bytes, each what peeking gives when all of it lies inside, else zeros |
| BusRuns.PokedThenPeeked | waterbox/wbx-entry.cpp:504-510 | The value's low byte is peeked at every address that shows the byte poked, and nowhere else |
| BusRuns.Session.Do | waterbox/wbx-entry.cpp:471-510 | Every access, store and mapping gives and leaves what the memory without a kept translation says |
| BusRuns.Session.Play | waterbox/machine.cpp:566-625 | So over any run of peeks, pokes and block reads between the game's stores and new mappings, pages that share memory included: the kept translation never shows |
| ClockStart.ParseClockStart | waterbox/wbx-entry.cpp:132-154 | The fields are taken exactly when they are a date and a time of the years 1980 to 2099 |
| ClockStart.FormulaCountsDays | waterbox/wbx-entry.cpp:145-151 | The closed form is the count of days from 1970-01-01, for every date from the year 1 on (section 3.2.1 of ISO 8601:2004) |
| ClockStart.TomorrowIsOneMore | waterbox/wbx-entry.cpp:145-151 | The next civil day is one more, across the ends of months, years and leap years |
| ClockStart.FormulaOfDaysLater | waterbox/wbx-entry.cpp:145-151 | Counting any number of days on adds that number |
| ClockStart.FormulaMonotone | waterbox/wbx-entry.cpp:145-151 | Earlier dates get smaller numbers, different dates different ones |
| ClockStart.FormulaInvertible | waterbox/wbx-entry.cpp:145-151 | Every later date is found again by counting the difference |
| ClockStart.StartsInOrder | waterbox/wbx-entry.cpp:139-153 | Accepted starts give different seconds when they differ, later dates later ones, all between 1980 and 2100 |
| ClockStart.StartInvertible | waterbox/wbx-entry.cpp:145-153 | The seconds give back the count of days, the hour, the minute and the second |
| ClockStart.CenturyStarts | waterbox/wbx-entry.cpp:145-153 | The first second of 2000 is 946684800 |
| ClockStart.LeapDayEnds | waterbox/wbx-entry.cpp:145-153 | The last second of its leap day is 951868799 |
| ClockStart.LastStart | waterbox/wbx-entry.cpp:139-153 | The last second of 2099 is accepted and is 4102444799 |
| Audio.ScaledIsQuieter | waterbox/audio.cpp:95-96 | At a volume between 0 and 1 a sample only gets quieter and keeps its sign |
| Audio.SourceInBounds | waterbox/audio.cpp:82-90 | The held frame stays inside what was asked for and never goes back |
| Audio.UpsamplingSkipsNothing | waterbox/audio.cpp:82-85 | Upsampling starts at the first frame, ends at the last and never skips one |
| Audio.NothingMore | waterbox/audio.cpp:87-89 | Leaving the loop at the first missing frame misses nothing after it |
| Saturation.OrderFreeExactly | waterbox/audio.cpp:95-99 | All orders of the streams mix to the same sample if and only if all push one way, or the rises total at most 32767 and the falls at most 32768 |
| Saturation.SettledMix | waterbox/audio.cpp:95-99 | And then the sample is the sum, clamped once |
| Saturation.QuietMixIsOrderFree | waterbox/audio.cpp:146-151 | Contributions that total at most 32767 are added exactly, in whatever order |
| Saturation.LoudMixDependsOnOrder | waterbox/audio.cpp:98-99 | Three streams that give 1 in one order and 0 in another |
| SoundLaws.ScaledExactly | waterbox/audio.cpp:96-97 | A sample at a volume is the whole part of the product, toward silence |
| SoundLaws.ClampIsNearest | waterbox/audio.cpp:99-100 | A sum is held at the nearest sample there is |
| SoundLaws.WantedExactly | waterbox/audio.cpp:70-72 | Asked for are the fewest frames that last as long as ours, at the two rates |
| SoundLaws.NoRate | waterbox/audio.cpp:70-87 | A sink without a rate asks for as many frames as it needs, each heard as it is |
| SoundLaws.SourceExactly | waterbox/audio.cpp:84-87 | Held is the last of the stream's frames that begins no later than ours |
| SoundLaws.SilentSideStays | waterbox/audio.cpp:93-94 | A stream whose first samples are silent is silent on the left, one whose second are on the right, at any volume and rate |
| SoundLaws.RenderStereo | waterbox/audio.cpp:142-152 | A sink with one stereo stream at its own rate and full volume gives exactly the stream's samples out, left and right |
| SoundLaws.RenderMono | waterbox/audio.cpp:142-152 | One with a mono stream gives each sample twice |
| SoundLaws.NotHeard | waterbox/audio.cpp:66-68 | A stream that does not play or has no callback adds nothing and does not move |
| Audio.AudioStream.MixInto | waterbox/audio.cpp:64-102 | Each sample gains the stream's contribution, clamped; the callback is asked once and the position moves by what it gave; a stream that is not playing changes nothing |
| Audio.AudioStream.MixFrames | waterbox/audio.cpp:82-101 | The loop adds exactly the held frames, on both channels of a mono stream, all indices in bounds |
| Audio.AudioSink.Render | waterbox/audio.cpp:142-152 | Every sample is the saturating sum, in order, of what the streams give, and each stream goes on by one frame's worth |
| StateBuffer.StateBuf.StateWrite | waterbox/run-wbx.c:59-75 | Appends all of the bytes to what was saved or, when memory runs out, none, and never runs over its block |
| StateBuffer.StateBuf.Grow | waterbox/run-wbx.c:63-70 | Growing keeps the bytes, and over a buffer's life moves no more of them than it holds room for |
| StateBuffer.StateBuf.StateRead | waterbox/run-wbx.c:77-87 | Gives exactly the bytes that are left, the rest of the caller's buffer untouched |
| StateBuffer.SaveAndLoad | waterbox/run-wbx.c:56-87 | Played on a buffer through its growth: what was saved up to the first refusal of memory is loaded in any pieces, byte for byte |
| PatchSeries.SeriesIsLocal | waterbox/apply-patches.sh:59-67 | Patches that read and write only touched files do the same on any tree that agrees on those, and leave the others alone |
| PatchSeries.WorkingTree.ApplyPatches | waterbox/apply-patches.sh:35-94 | Succeeds exactly when the series applies to HEAD and the tree is HEAD's or the result; then the touched files are the result, otherwise nothing changed |
| PatchSeries.WorkingTree.ApplyAll | waterbox/apply-patches.sh:70-76 | Once the series went through on the scratch copy it does not stop half way |
| PatchSeries.WorkingTree.SameFiles | waterbox/apply-patches.sh:49-57 | The comparison loop says yes exactly when all touched files agree, absent ones included |
| PatchSeries.ScratchCopy | waterbox/apply-patches.sh:38-47 | The scratch copy holds exactly the touched files that HEAD has |
| PatchSeries.SeriesInOrder | waterbox/apply-patches.sh:62-67 | The patches are applied in order: those at the back to what those at the front leave |
| PatchSeries.FirstRunApplies | waterbox/apply-patches.sh:59-76 | On a tree as HEAD has it the script succeeds exactly when the series applies to that tree, and leaves what it makes of it |
| PatchSeries.SecondRunChangesNothing | waterbox/apply-patches.sh:78-94 | After a success a second run succeeds and changes nothing |
| DialogQueue.HostUi.ShowYesNoDialog | waterbox/host-ui.cpp:59-68 | Raising a dialog answers nothing; its callback waits, and one without a callback is dropped |
| DialogQueue.HostUi.PumpHostUi | waterbox/host-ui.cpp:25-42 | A pump answers what was pending and leaves what the callbacks raised |
| DialogQueue.AnswerAllExactly | waterbox/host-ui.cpp:32-41 | The pump's loop answers exactly the queue it took, in order, each with 1, and ends however many more each raises |
| DialogQueue.AnsweredThenPending | waterbox/host-ui.cpp:21-43 | Over every run, the dialogs answered followed by those pending are those raised, in order: none lost, none answered twice |
| DialogQueue.AlwaysDeclined | waterbox/host-ui.cpp:36-40 | Every answer is the second button |

## Left out

- MemoryFileSystem.FileSystem.Replace: a directory is not moved into itself; the source's own result for it is not meaningful.
- MemoryFileSystem.FileSystem.MountRpkg: the length check on a path is on unbounded numbers; the source's 64-bit product can wrap (`waterbox/memfs.cpp:555`).
- MemoryFileSystem.MemoryFile.WriteFile: the handle's file still stands in the tree (`Attached`); handles that outlive their file, and writes no vector can hold, are outside the model.
- MemoryFileSystem.MemoryFile.ReadFile: of a handle whose file still stands in the tree, as for a write.
- MemoryFileSystem.MemoryFile.Resize: of a handle whose file still stands in the tree, as for a write.
- OpenHandles.Session.Play: nothing is taken away or moved, and nothing moved over, while a file at its place or below it is open (its handle would be left on a node that is gone or that holds another file); no write ends past 2^64, and packages are mounted before the run.
- OpenHandles.Session.Delete: a deletion that is done takes no open file away; a refused one owes nothing.
- OpenHandles.Session.Rename: a rename that is done names no open file; a refused one owes nothing.
- OpenHandles.Session.Unmount: a drive that is mounted has no file open on it.
- MemoryFileSystem.FileSystem.GetEntryInfo: of the attributes only write protection; the file's name, which a library function cuts from the path, is not modelled.
- StepLoop.Machine.RunForUs: for a machine with a loop to call, the target leaves room for one report below 2^64, and the clock is one that must come to it, without which the loop need not end (`NeverEnding.EndsExactly`); the dialog and graphics pumps are part of what the timers may do to the world.
- MemoryBus.Machine.ResolveUser: one address space, and mappings are only added; launching another application with a page kept is outside the model.
- ClockStart.ParseClockStart: starts from the parsed fields; the text is read by `sscanf`.
- Audio.AudioStream.MixInto: volumes are real numbers, so the rounding of the product is not modelled, nor a product outside 32 bits at volumes beyond the range 0 to 1.
- Audio.AudioSink.Render: callbacks do not add or remove streams while they are mixed.
- PatchSeries.WorkingTree.ApplyPatches: file modes, the script's own messages and a missing checkout.
- A moved node keeps its object here; in the source its bytes and children move to a new address, which only a handle left open on it would see.
- The emulator itself: kernel, processor, window server, wildcard matching, path joining and UTF conversion.
- Graphics, screen reading, input, installers, device detection, build scripts and the equivalence comparison, which are calls into other code.
- Entry counts, written-byte counts and visits of all files: reports for the hosts' diagnostics that nothing in the adapter acts on.
