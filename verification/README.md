# OxideBSD in Dafny: module loading, dist sets, firmware calls

A model of four parts of OxideBSD, with proofs of what they promise.

- **The kernel module loader** (`sys/module.rs`). Memory is a map from address to byte, the page table a map from page to permissions. The loader is a class that parses an `ET_REL` object, lays it out, claims and maps a region, copies, relocates, protects and records it. Its result is proved to be a *linked image* described without reference to the loader: every section byte is the file's or under a relocation, every relocation site meets the System V ABI formula for its symbol. Around it: the region allocators, the lookup from address to module, serialization, and heap accounting.
- **The install tree, dist sets and images** (`build_install.rs`). The tree grown from the install list, the choice of a set for each path, the ustar archive of a set, and the compressed root image. The archive and the image are proved against the readers in the same repository: `tar` (`bin/tar`) and the memory disk (`sys/drivers/md.rs`).
- **The UEFI runtime call path** (`sys/efirt.rs`). The assembly between two calling conventions, the call protocol as a state machine over interleavings, and the page flags of the firmware's own page table.
- **The `\_S5` scanner** (`sys/acpi.rs`), proved to undo AML encoding.

Errors the source returns are values here; a panic (a failed assertion, an arithmetic overflow as checked in the development profile) and a page fault are values too, so that both can be proved absent.

## How it is laid out

| part | files |
|---|---|
| words and bytes | `Words.dfy` |
| module objects and their encoding | `ElfObject.dfy`, `ElfEncoding.dfy` |
| layout | `ModuleLayout.dfy`, `LayoutSoundness.dfy` |
| relocation and the linked image | `Relocation.dfy`, `Stores.dfy`, `Loops.dfy`, `LinkPlan.dfy`, `LinkedImage.dfy` |
| the loader and its theorem | `ModuleLoader.dfy`, `LoadTheorem.dfy`, `Overalignment.dfy` |
| module-wide state | `ModuleRegistry.dfy`, `HeapCharges.dfy` |
| install tree and sets | `Paths.dfy`, `InstallTree.dfy`, `SetPatterns.dfy`, `SetSelection.dfy` |
| archives | `Ustar.dfy`, `TarHeader.dfy`, `SetArchive.dfy`, `Extraction.dfy`, `ArchiveTheorem.dfy` |
| compressed image | `Uzip.dfy` |
| firmware | `EfiThunk.dfy`, `EfiCalls.dfy`, `EfiPages.dfy` |
| AML | `AmlS5.dfy` |

Where the code does less than its surroundings suggest, the model keeps the code and says exactly when it falls short:

- A ustar path of 101 bytes that starts with a slash is written with an empty prefix, and comes back without the slash (`LeadingSlashLost`); any other path without NULs comes back whole (`PathSurvives`, an if-and-only-if). The set archives are not touched by it: `write_set_archive` passes only names that start with `./`.
- The image writer truncates its chunk count to 32 bits, so the reader takes the file if and only if there are fewer than 2^32 chunks (`OpensIffCountFits`).
- `oxidebsd_module_serialize` marks the module loaded last, whoever calls. A call marks its caller if and only if the caller is the module loaded last (`SerializesCaller`): so it does from a module's own `module_init`, as documented, and still afterwards until another module loads, and after that it marks the other one (`LateCallMisses`). What is marked in every run is `SerializedRanges`, and where every caller is the last loaded, `CallersAreSerialized`.
- A section's offset has its `sh_addralign`, but the region starts on a page boundary only. So its address has the alignment if and only if the region's start does (`SectionAddressAligned`): always for a divisor of the page size, and for other alignments only where the start happens to have them. `OveralignedLoads` is a well-formed file of 356 bytes that loads in the second region with a section aligned to 8192 bytes at an address that is not a multiple of it.
- `ACTIVE` is set around the firmware call and not only in it, and the fault handler looks at nothing else. A kernel trap between the two stores is taken over in any case, and ends the call as faulted if and only if the firmware was running (`TrapsTakenOver`); `TrapAstray` is a run with such a trap before it, and `AstrayStays` says such a task never leaves the call.

## Model

| member | source | states |
|---|---|---|
| `ElfObject.ParseObject` | sys/module.rs:240-346 | the loops over section headers, symbols and RELA sections give the parsed object or the first error, and never panic |
| `ElfObject.Relocations` | sys/module.rs:358-381 | a RELA section reads if and only if it lies inside the file |
| `ElfObject.RelocationsRead` | sys/module.rs:358-381 | it then has one record for every whole 24 bytes, each the record at its place in the file |
| `ElfObject.FindDefinedSymbol` | sys/module.rs:391-395 | the first defined symbol of that name, and none if no defined symbol has it |
| `ElfEncoding.ParseInvertsEncoding` | sys/module.rs:240-346 | parsing any file that holds encoded section headers and symbols gives back exactly those headers and symbols, the string table's bytes, and the RELA sections of those headers |
| `ElfEncoding.RelaSectionsInOrder` | sys/module.rs:329-337 | every RELA header is kept with its place, size and target, after those of the headers before it |
| `ElfEncoding.RelocationsInvertEncoding` | sys/module.rs:358-381 | reading encoded RELA records gives back offset, symbol, type and signed addend of each |
| `ModuleLayout.AlignUpIsCeiling` | sys/module.rs:404-409 | the mask form of `align_up` is the least multiple at or above the value, for alignment 0 or any power of two, and panics exactly when the value plus an alignment above 1 overflows |
| `ModuleLayout.GotSlotsNeeded` | sys/module.rs:921-931 | one slot for every GOT relocation of every RELA section, or the first section out of bounds |
| `ModuleLayout.PlaceOneGroup` | sys/module.rs:449-456 | one pass over the sections places exactly the group's, in order, or stops where the cursor overflows |
| `ModuleLayout.ComputeLayout` | sys/module.rs:443-470 | the three passes with the GOT after the second, as the layout that the soundness lemmas are about |
| `LayoutSoundness.LayoutIsSound` | sys/module.rs:443-470 | for any number of sections: exactly the allocated non-empty ones are placed, aligned, pairwise disjoint, inside their group; groups are in order on page boundaries; the GOT ends the read-only group with a slot for every GOT relocation |
| `LayoutSoundness.GroupsShareNoPage` | sys/module.rs:440-468 | bytes of sections in different permission groups are never on one page |
| `LayoutSoundness.SectionAddressAligned` | sys/module.rs:453-472 | in every sound layout, a placed section's address has its alignment if and only if the region's start has it; so always when the alignment divides the page size |
| `Overalignment.OveralignedLoads` | sys/module.rs:453-472 | a file, given byte by byte: it parses, it is well-formed, loading it in the region after a one-page module has the outcome of success, and its section aligned to 8192 is at an address that is not |
| `ElfEncoding.EhdrHeld` | sys/module.rs:240-262 | a file that starts with an encoded `ET_REL` header has every field the parser checks where it looks |
| `RelocationArithmetic.RelocationMeetsAbi` | sys/module.rs:1015-1050 | for every supported type, symbol, addend and site, a field is stored if and only if, read back, it is the ABI formula's value; so overflow is reported exactly when no field can hold it |
| `RelocationArithmetic.PcRelativeReaches` | sys/module.rs:67-104 | between any site in the module window and any target from the kernel's base to the window's ceiling, with an addend up to 2^24, PC32 and PLT32 never overflow and reach symbol plus addend |
| `RelocationArithmetic.AbsoluteReach` | sys/module.rs:91-100 | for a target in the module window the signed 32-bit absolute form is always exact and the unsigned one always reports overflow |
| `LinkPlan.SitesBySection` | sys/module.rs:507-511 | once the GOT slots are counted every RELA section reads, and the relocations applied are those of each placed one, section after section, in order, none passed over |
| `LinkedImage.GotSlotsSuffice` | sys/module.rs:506-536 | the slots used while relocating placed sections never exceed those counted over all sections |
| `LinkedImage.RelocateFits` | sys/module.rs:506-536 | the relocation loop makes one patch a site, each at its own site and, through the GOT, in its own slot |
| `LinkedImage.CopiesPlaceBytes` | sys/module.rs:479-489 | after the copies each byte of a section with file contents is the file's byte, and any other byte is untouched |
| `LinkedImage.StoresMakeImage` | sys/module.rs:472-536 | the stores of a load leave the linked image: section bytes from the file or zero, sites and GOT slots by the ABI |
| `LinkedImage.StoresKeepTheRest` | sys/module.rs:472-536 | they change no byte outside the region |
| `ModuleLoader.Kernel.AllocateRegion` | sys/module.rs:882-892 | the next region, or exhausted at the ceiling, the bump pointer moved only on success |
| `ModuleLoader.Kernel.MapRegion` | sys/module.rs:963-1004 | pages mapped writable and not executable and zeroed in order, up to the first that cannot be had, with that page's error |
| `ModuleLoader.Kernel.ProtectRegion` | sys/module.rs:939-961 | pages given new permissions in order, up to the first that is not mapped |
| `ModuleLoader.Kernel.CopySections` | sys/module.rs:479-489 | memory is the planned copies applied, or the plan's error, or a fault only if some copy hits a page that is not writable |
| `ModuleLoader.Kernel.ApplyRelocation` | sys/module.rs:1015-1050 | the field stored at the site, or the error with nothing stored |
| `ModuleLoader.Kernel.RelocateSections` | sys/module.rs:506-536 | memory is the planned patches applied, or the plan's error, or a fault only if some site or slot is not writable |
| `ModuleLoader.Kernel.SymbolAddresses` | sys/module.rs:493-504 | the loop's map of symbol addresses, or overflow |
| `ModuleLoader.SymbolAddrsAt` | sys/module.rs:493-504 | exactly the defined symbols of placed sections have addresses, each its section's plus its value |
| `ModuleLoader.Kernel.ProtectGroups` | sys/module.rs:538-548 | the final page table; in no table on the way is a page both writable and executable that was not before |
| `ModuleLoader.Kernel.Record` | sys/module.rs:550-581 | a missing entry point records nothing; otherwise the module is listed and its charge id stamped |
| `ModuleLoader.Prepare` | sys/module.rs:436-470 | parsing and layout, with a region size in whole pages |
| `ModuleLoader.Kernel.Load` | sys/module.rs:419-598 | success leaves exactly the planned memory, permissions and record; failure records nothing; with NX, in no page table of any step is a page both writable and executable that was not before the load, nor, over all loads so far, one that was not at boot; for a well-formed object the result is decided by the first of: no room, a page that cannot be had, a relocation that fails, no entry point; and never a page fault |
| `ModuleLoader.MapsIffAllFree` | sys/module.rs:963-1004 | mapping a region succeeds if and only if every page is unmapped and gets a frame and a table |
| `ModuleLoader.LinkNeverFaults` | sys/module.rs:472-536 | every store of the link of a well-formed object falls on pages that are still writable |
| `ModuleLoader.StampNeverFaults` | sys/module.rs:575-582 | so does the charge id's, after the permissions are lowered |
| `LoadTheorem.SectionPermissions` | sys/module.rs:538-548 | every page of every section ends with its group's permissions: code read and execute, read-only data read, the rest write without execute |
| `LoadTheorem.GotPermissions` | sys/module.rs:538-548 | every page of the GOT ends read-only |
| `LoadTheorem.OtherPagesKept` | sys/module.rs:538-548 | no page outside the region changes |
| `LoadTheorem.LoadIsCorrect` | sys/module.rs:419-582 | from the file's bytes: a successful load of a well-formed object leaves the linked image at its base, all else unchanged up to the 4-byte stamp, symbols at their addresses, the entry returned that of `module_init`, every page of a section protected as its flags ask and of the GOT read-only, and every section's address aligned if and only if the base is |
| `LoadTheorem.LoadFile` | sys/module.rs:419-598 | the imperative loader refines the linked image: parse, layout and load of any bytes, with all of the above in one contract, the exact outcome for every well-formed file, and the change to the next region and the module list one step of the registry |
| `LoadTheorem.LoadModule` | sys/module.rs:565-593 | with the other statics: a load is the registry's step that starts the module if it succeeds, the one that fails if it does not, and none if the file cannot be parsed or laid out |
| `ModuleRegistry.RegionsNeverOverlap` | sys/module.rs:882-903 | over every run of loads and data allocations, failed ones too, all regions ever claimed are whole pages, inside their window and pairwise disjoint |
| `ModuleRegistry.FirstMatchIsOwner` | sys/module.rs:170-179 | in every such run the first module whose range holds an address is the module that owns it |
| `ModuleRegistry.OwnerIsUnique` | sys/module.rs:170-179 | and no other module's range holds it |
| `ModuleRegistry.NoOwnerIsFatal` | sys/module.rs:170-179 | an address in no module is fatal |
| `ModuleRegistry.SerializedRanges` | sys/module.rs:642-659 | in every run the serialized addresses are those of the modules that were last loaded at each call |
| `ModuleRegistry.SerializesCaller` | sys/module.rs:642-651 | in every reachable state, a call appends its caller's range if and only if the caller is the module loaded last |
| `ModuleRegistry.CallersAreSerialized` | sys/module.rs:639-659 | in every run where each call is made by the module then loaded last, exactly the callers' addresses are serialized |
| `ModuleRegistry.LateCallMisses` | sys/module.rs:642-651 | a call after another module has loaded serializes that one and not the caller |
| `ModuleRegistry.Statics.ModuleAllocZeroed` | sys/module.rs:614-628 | a data region only inside `module_init`, its pages mapped and zeroed, and its address; 0 if it cannot be claimed or some page cannot be had, the claim kept either way; with NX no page made both writable and executable in any table on the way |
| `ModuleRegistry.Statics.ModuleSerialize` | sys/module.rs:642-651 | the last module's range appended, or a panic past eight |
| `ModuleRegistry.Statics.Serialized` | sys/module.rs:654-659 | the loop finds exactly the addresses in a serialized range |
| `ModuleRegistry.Statics.MarkActiveModule` | sys/module.rs:170-179 | the loop sets the fatal flag of the first module that holds the address, fatal if none |
| `HeapCharges.Heap.Kmalloc` | sys/module.rs:749-766 | null and no charge for an invalid layout, size 0 or a full heap; otherwise charged to its id alone |
| `HeapCharges.Heap.Kfree` | sys/module.rs:769-786 | nothing for an invalid layout or null; otherwise released from its id alone, never below zero |
| `HeapCharges.PowerOfTwoMeaning` | sys/module.rs:751-753 | the alignments a layout accepts are exactly the powers of two |
| `HeapCharges.CountersExact` | sys/module.rs:749-786 | in every run where frees match live blocks, each id's counters are the sum and the number of its live blocks |
| `HeapCharges.OthersUntouched` | sys/module.rs:749-786 | in any run at all, over any stretch without its own events an id's counters do not move |
| `HeapCharges.FreesNeverRaise` | sys/module.rs:769-786 | and over any stretch without its own allocations they never rise, whatever is freed |
| `HeapCharges.Heap.AllocStats` | sys/module.rs:790-800 | the counters of the first module of that name by its id, none if there is no such module or it has no id |
| `HeapCharges.ChargedModules` | sys/module.rs:803-811 | the first 64 modules, in order, with ids from 1 |
| `HeapCharges.IdsAgree` | sys/module.rs:573-811 | with distinct names, the id stamped at load, the id listed and the counters reported by name are the same, and past the 64th there is none |
| `InstallTree.List.InstallInsert` | build_install.rs:124-142 | the tree with the directories above the path and the entry, or refused |
| `InstallTree.InsertedKeys` | build_install.rs:124-142 | an accepted insert adds exactly the path, the paths above it and the root |
| `InstallTree.InsertedEntries` | build_install.rs:124-142 | it keeps every explicit entry as it was, and what it makes unasked is an implicit directory |
| `InstallTree.InsertDecides` | build_install.rs:124-142 | an insert is refused if and only if the path is there and it is not a directory over an implicit one or an implicit one over a directory; otherwise the entry at the path is the one asked for, unless an explicit one stood there |
| `InstallTree.List.Read` | build_install.rs:145-230 | reading a list is the run of its entries, refused at the first that is |
| `InstallTree.EveryTreeGood` | build_install.rs:124-230 | over every accepted list: closed under parents up to the root, implicit entries are directories, and a second name of a file has its mode and owner |
| `InstallTree.ExplicitForever` | build_install.rs:124-142 | no later entry of a list changes or drops an explicit one |
| `SetPatterns.MatcherMeaning` | build_install.rs:234-249 | the matcher accepts a path if and only if it can be cut so that each `**` takes one or more components and each other pattern component exactly one |
| `SetPatterns.ComponentMeaning` | build_install.rs:235-241 | a component matches if and only if it can be cut so that each `*` takes any run of bytes and each other byte itself |
| `SetPatterns.StarFree` | build_install.rs:234-249 | a pattern without stars matches its own path and no other |
| `SetSelection.ChooseSet` | build_install.rs:268-291 | the loop finds the set of the highest-ranked matching lines, a tie if and only if two different sets have one, or none |
| `SetSelection.ChoiceIgnoresOrder` | build_install.rs:270-291 | the outcome is the same for every order of the lines and however often one is repeated |
| `SetSelection.AssignSets` | build_install.rs:264-297 | every path gets its set, or a panic if and only if some path is tied or in no set |
| `SetSelection.SetPaths` | build_install.rs:408-421 | in order, exactly the set's own paths, those above them and the root |
| `SetSelection.ParentsListedFirst` | build_install.rs:408-425 | every path listed is in the tree, and everything above it is listed before it |
| `Ustar.UstarHeader` | build_install.rs:730-771 | the 512-byte array filled field by field is the header, and it panics exactly when a field does not fit |
| `TarHeader.ParseInvertsHeader` | bin/tar/src/header.rs:233-285 | the reader takes back every field of a header the writer made: name, type, link, mode, owners, size, time, with the checksum agreeing |
| `TarHeader.PathSurvives` | bin/tar/src/header.rs:252-261 | a path comes back whole if and only if it has no NUL and is not 101 bytes starting with a slash |
| `TarHeader.HeaderRoundTrip` | build_install.rs:730-771 | every header that can be written reads back, with its path and link intact exactly under that condition |
| `TarHeader.LeadingSlashLost` | build_install.rs:742-749 | a path of 101 bytes that starts with a slash loses it (no set archive holds one) |
| `SetArchive.WriteSetArchive` | build_install.rs:802-839 | the loop over the paths writes the stream of their members and two zero blocks, or panics at the first that cannot be written |
| `SetArchive.ReadBack` | bin/tar/src/archive.rs:239-307 | reading a stream gives back its members with their data, in order, and nothing else |
| `SetArchive.LinksFollowData` | build_install.rs:822-834 | for any tree and list of paths, every hard-link member names an earlier member that holds data |
| `ArchiveTheorem.ArchiveRestoresSet` | bin/tar/src/extract.rs:316-426 | archiving a set, reading the archive and extracting it in order in an empty directory restores exactly its paths, with type, contents, mode, owner and link target; two names are one file if and only if they were |
| `ArchiveTheorem.ListedSetReady` | build_install.rs:408-425 | the paths a set carries out of any tree an accepted list makes satisfy what that theorem asks, given proper names, directories above every path, and links to files |
| `Uzip.CompressImage` | build_install.rs:664-706 | the chunk, offset and data loops write the container |
| `Uzip.OpensIffCountFits` | sys/drivers/md.rs:62-80 | the reader takes the container if and only if it has fewer than 2^32 chunks, and then reads its shape |
| `Uzip.OffsetRead` | build_install.rs:696-701 | every table entry is its chunk's offset, at most the file's length |
| `Uzip.PartSlice` | build_install.rs:696-704 | the bytes between one offset and the next are that chunk as stored |
| `Uzip.UnpackStored` | sys/drivers/md.rs:90-98 | the stored length alone tells a raw chunk from a compressed one, given a lossless compressor |
| `Uzip.ImageRoundTrip` | sys/drivers/md.rs:105-122 | for every image, empty or with a short last chunk, every block read is the image's, with zeros past its end |
| `Uzip.Compressed.Chunk` | sys/drivers/md.rs:83-102 | with its two-entry cache, always what decoding afresh gives, the chunk then first in the cache |
| `Uzip.Compressed.ReadBlock` | sys/drivers/md.rs:105-122 | the block that decoding afresh gives, or failure exactly when that fails |
| `EfiThunk.EnterFirmware` | sys/efirt.rs:123-142 | at the call: arguments in RCX, RDX, R8, R9 and at RSP+32 and RSP+40, RSP 16-byte aligned, the direction flag clear, six registers and the recovery point saved |
| `EfiThunk.RestoreAndReturn` | sys/efirt.rs:149-156 | from an intact frame, every System V callee-saved register and RSP come back |
| `EfiThunk.CallFirmware` | sys/efirt.rs:115-158 | whatever the firmware does, short of the caller's frame, returning or faulting with arbitrary registers: the caller is returned to with RSP and its callee-saved registers, and RAX the status or all ones |
| `EfiCalls.RunKeeps` | sys/efirt.rs:110-113 | over every interleaving: at most one task inside a call, it holds the lock, `ACTIVE` is set exactly while it is between the two stores, and once the firmware is off whoever is inside is past the fault or about to find out |
| `EfiCalls.NeverAgain` | sys/efirt.rs:171-185 | once a fault has set `DEAD`, no run ever loads the firmware's page table or enters it again |
| `EfiCalls.TrapsTakenOver` | sys/efirt.rs:171-185 | a trap is absorbed if and only if it is from the kernel while a task is between the two stores to `ACTIVE`; it switches the firmware off, and ends the call as faulted if and only if that task was in the firmware; any other changes nothing |
| `EfiCalls.TrapAstray` | sys/efirt.rs:415-416 | the run where a kernel trap comes right after `ACTIVE` is set: it is absorbed, `DEAD` is set, and its task resumes with no recovery point of its own |
| `EfiCalls.AstrayStays` | sys/efirt.rs:171-185 | in every run, a task sent there never leaves the call |
| `EfiCalls.BusyFails` | sys/efirt.rs:386-391 | a call while another is under way fails and changes nothing |
| `EfiCalls.CallRestores` | sys/efirt.rs:393-426 | however a call ends, the page table and FPU state are those it started with, `ACTIVE` is off and the lock free |
| `EfiCalls.Runtime.Call` | sys/efirt.rs:385-427 | the call as written: when the firmware runs, what is returned, when `DEAD` is set, everything else put back, and its steps a run of the protocol |
| `EfiPages.PageFlags` | sys/efirt.rs:282-325 | every page's flags are the last covering runtime descriptor's, narrowed by the attributes that cover it; `rwx` is the number of pages writable and executable; it fails exactly when an address overflows |
| `EfiPages.LastDescriptorDecides` | sys/efirt.rs:288-307 | of the runtime descriptors that cover a page, the last one's flags hold |
| `EfiPages.AttributeOrderIrrelevant` | sys/efirt.rs:309-320 | the flags do not depend on the order of the attributes entries |
| `EfiPages.AttributesOnlyNarrow` | sys/efirt.rs:309-320 | attributes add no page and no permission |
| `AmlS5.FindS5` | sys/acpi.rs:187-206 | on every input the scan ends in bounds, and its answer is decided by the first named `_S5_` followed by a package |
| `AmlS5.ScanInvertsEncoding` | sys/acpi.rs:170-206 | for every prefix with no such package, every PkgLength form, both name forms and every integer encoding, the scan gives back the two sleep types encoded, whatever follows |

## Left out

- `resolve_external_symbol`'s table of names: a partial map from names to addresses.
- `module_init` itself, page-table walking, TLB flushing, frame allocation and logging: a load ends at the entry's address, pages are flags in a map, and the frame allocator and mapper answer through a function.
- Wrap-around in the release profile: address arithmetic that overflows is a panic, as in the development profile.
- ModuleLoader.Kernel.RelocateSections: goes through the relocations of all placed RELA sections in one loop rather than two nested ones; `SitesBySection` says the sequence is the same.
- The mtree text of the install list, generated lists and source files: a list is its entries.
- Compression of archives, and stamps that skip rewriting one: archives are the tar stream.
- Extended headers (pax, GNU long names) in `SetArchive.ReadMembers`: the sets' writer makes none, and a stream with one is not read.
- Extraction over existing names, missing directories made on the way, devices and FIFOs, times, and running as other than root: the model extracts in an empty directory, and has no answer where a name is taken or a directory is missing. Directories get their owner and mode when they are made rather than at the end.
- ArchiveTheorem.ArchiveRestoresSet: the extraction directory itself is left as it is, as `tar` does, so the root's own mode and owner are not restored.
- EfiThunk.CallFirmware: memory is eight-byte words, and the return address the call instruction pushes below the stack pointer is not modelled.
- EfiCalls.RunKeeps: one processor, as the source has; switching interrupts back on and freeing the lock are one step. A task that resumes at `efirt_fault` without a recovery point of its own has no further step.
- The kernel half of the firmware's page table, the two tables mapped beside the runtime pages, variables and time services.
- ACPI table discovery and power-off itself.
