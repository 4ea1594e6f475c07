# Verified model of the loader's core

This project models the parts of vibeldr where a mistake costs a boot, a disk bay or a settings file, and proves what
each of them promises. It stands beside the Go sources: every file names the source it follows, and the table below says
which lines each member models.

- **Flattened device tree** (`FlatTree`, `RoundTrip`, `ReprintSize`, `NopTokens`, `TreeTexts`; chapter 5 of the
  Devicetree Specification). Writer and parser are loops over buffers, proved against value-level functions. Parsing undoes printing
  exactly on the trees the format can carry, an accepted file can be printed again within a bound read from its header,
  and a NOP token between tokens changes nothing. `TreeTexts` states header, reserve map, a small tree and everything the
  boot writes into a tree byte by byte.
- **Boot-time bay rewrite** (`Slots`, `NvmeSlots`, `DeviceTrees`, `BootRewrite`). The two edits of a tree commute, are
  idempotent, change only the addresses and the M.2 slots, and make the file rewrite a byte-level fixed point.
- **Port maps** (`PortMap`, `PortNames`, `PortMapMeaning`, `ChosenBays`). The three passes that turn chosen bays into `SataPortMap` and
  `DiskIdxMap`, with a decoding of the two strings: digit *i* with start *s* gives disk index *s + p* to port *p* of
  controller *i*. What the code is meant to guarantee is not always true; each guarantee is stated with the exact
  condition under which it holds, on the controllers and the chosen bays and not on what the passes make of them.
- **Bay plan** (`BayPlan`, `PortLines`, `BayEndToEnd`). From the editor over the plan file and the ports file to the bays
  that both device trees show, and when the command line gives a disk the same bay.
- **Boot menu file** (`GrubRewrite`, `RestoreEnds`) and **repair queue** (`RepairQueue`, `RepairEnds`). State machines over
  single file operations, with a power cut possible after each. The first is safe exactly in the environments it names;
  the second makes each repair at most once. What a call or a boot leaves when nothing disturbs it is stated beside them.
- **Module loader** (`ModuleLoader`). Dependencies first, with any pattern of failing loads.
- **Screen** (`Grid`, `Bits`, `Screen`, `PixelBits`, `ScreenBytes`, `ScreenSession`). Byte buffers, cursor and framebuffer;
  the cursor-only present refines the full one over every run of events. What a device pixel is, bit by bit, is decoded
  independently of the shifts that make it.
- **Log window** (`LogSplit`, `LogWindow`). Cutting a stream does not depend on the reads, and the window shows what a
  terminal would.
- **Settings** (`DsmConf`, `ConfTexts`, `Quoting`, `Unquoting`, `DsmPolicy`, `PolicyTexts`). The line editor, `%q` on UTF-8
  text and its inverse, the layered merge, the list file and the way between them.
- **DHCP** (`Dhcp`, `DhcpBytes`; section 2 of RFC 2131 and sections 2, 3 and 9 of RFC 2132). Options, parser and request,
  as functions and with the option numbers written out.
- **Kernel command line** (`CommandLine`, `LineText`, `BuildLine`, `BuildChecks`, `BuildValues`, `BuildTexts`, `BuildLists`,
  `LineProblems`). The builder's index, the order of the build, what the built line says for every key by its name, and
  which lines validation reports.

`GoStrings` holds byte strings and the few functions of Go's library that the others need. White space is Go's: the six
ASCII characters and the other Unicode ones in UTF-8. Which characters from 128 on can be printed is a table left open
(`Quoting.PRINTABLE`): every statement holds whatever it contains. `dafny verify dfyconfig.toml` verifies everything.

Panics of the Go code (an index or slice out of range) are outcomes here, not preconditions, wherever malformed input can
cause one: `FlatTree.Deserialise`, `FlatTree.Serialise` and `Dhcp.Parsed` say for which inputs. Integers are unbounded
except where a width matters: uint32 offsets and sums wrap, `Atoi` has the range of a 64-bit int, the number in a port
name wraps around as one, `uint32(n)` of a parsed port number is taken modulo 2^32, and shift counts of a pixel component
are uint32.

Some promises turn out to need a condition, and some fail:

- Two controllers can be given the same chosen start, and the throwaway port of a leading controller without ports can land
  on an index in use. `PortMapMeaning.NoIndexTwiceExactly` says when this happens.
- A port chosen for a bay is not always in it: the first listed port of a controller fixes where the controller starts, no
  start lies before the first bay, and a start chosen for another controller cuts the ports short.
  `ChosenBays.BayIsHonouredExactly` says when a port is in its bay, `ChosenBays.AgreementIsHonoured` what holds when the
  listed ports of a controller agree.
- Blanking one bay can take a disk of another controller out of its bay (`ChosenBays.BlankingCanHideADisk`), although no
  other bay number changes. `ChosenBays.BlankingIsSafeExactly` says when it does not.
- The comment at `cmd/vibeldr-boot/wizard_linux.go:1204-1208` says that later bays keep their numbers on both paths when a
  bay in the middle is emptied. On the device-tree path they do not: `cmd/vibeldr-init/main.go:994-999` closes the gap, as
  its own comment says. On the command line the entry keeps its place in the list, and the disk its bay where the start
  allows it. `BayEndToEnd.PathsAgreeExactly` says when both paths give a disk its chosen bay.
- `grub.cfg` can be left without any copy of the original when it cannot be read at the first rewrite, or when directory
  operations may reach the disk out of order and the directory sync fails (`GrubRewrite.SafeExactlyWhenCareful`).
- A settings value with a quote, a backslash, a character that does not print or a byte that is no UTF-8 does not read back
  as it was given, because it is written with Go's escapes and read without undoing them (`DsmConf.ReadsBackExactly`).
- A settings key with a space in front sets another key (`DsmConf.SpacedKeySetsAnother`).
- The ports file reads back as written only when every path is one word (`PortLines.SavedReadsBackExactly`).

## Model

| member | source | states |
|---|---|---|
| FlatTree.StrTab.Add | internal/dtb/dtb.go:416-430 | interning a name gives the offset it already has, or its place at the end of the grown strings block |
| FlatTree.PadsChunk | internal/dtb/dtb.go:440-445 | padding the whole buffer to four bytes is padding the last chunk alone, as long as the buffer was aligned before it |
| FlatTree.WriteNodeTo | internal/dtb/dtb.go:390-407 | the recursive writer appends to any aligned buffer exactly the value-level structure block of the node and leaves exactly its grown strings table |
| FlatTree.BytesOf | internal/dtb/dtb.go:335-388 | printing a tree is the function `Serialise`: header, reserve map, structure block and strings block end to end with uint32 offsets, an error without a root, a panic when the total wraps below the header |
| FlatTree.Parser.U32 | internal/dtb/dtb.go:218-225 | a token read moves the position by four, or fails without moving it |
| FlatTree.Parser.CStr | internal/dtb/dtb.go:227-238 | a name ends at the first NUL and the position goes to the next multiple of four behind it |
| FlatTree.Parser.Prop | internal/dtb/dtb.go:289-311 | a property is its length, name offset and value; each way it can be cut short is its own error |
| FlatTree.Parser.Parse | internal/dtb/dtb.go:253-326 | the token loop with its node stack is `Run`, one `Step` for each token; it terminates because a step uses up at least four bytes |
| FlatTree.ReserveMapOf | internal/dtb/dtb.go:195-201 | the reserve map ends at the first all-zero entry or at the end of the data |
| FlatTree.Parse | internal/dtb/dtb.go:159-210 | reading a file is `Deserialise`: every check in the order of the code, with the header reads and slices that run past the data as panics |
| RoundTrip.InternOk | internal/dtb/dtb.go:416-430 | every offset issued so far keeps naming its string when the table grows |
| RoundTrip.ReadProps | internal/dtb/dtb.go:289-311 | the stack parser reads back all properties of a node from the writer's bytes, at any depth |
| RoundTrip.ReadNode | internal/dtb/dtb.go:253-407 | from any parser state, running over the bytes of a written node closes exactly that node on the stack |
| RoundTrip.ReadNodes | internal/dtb/dtb.go:253-407 | running over the written children appends exactly those children to the node on top of the stack |
| RoundTrip.StructBlockReadsBack | internal/dtb/dtb.go:253-407 | the parser undoes the writer on every tree with NUL-free names |
| RoundTrip.ReserveReadsBack | internal/dtb/dtb.go:195-201 | a reserve map without an all-zero entry reads back entry by entry |
| RoundTrip.AcceptedIsPrintable | internal/dtb/dtb.go:159-210 | every tree that the parser accepts meets the conditions for printing |
| RoundTrip.FileReadsBack | internal/dtb/dtb.go:159-388 | a printable tree below 2^32 bytes reads back with its versions defaulted |
| RoundTrip.RoundTrip | internal/dtb/dtb.go:159-388 | for a tree with a root whose file stays below 2^32 bytes, reading back what was written gives the tree with defaulted versions if and only if names are NUL-free, the version is 0 or at least 16 and no reserve entry is all zero |
| RoundTrip.AcceptedReprints | internal/dtb/dtb.go:159-388 | every accepted tree whose printed size is below 2^32 bytes can be printed and reads back with only the compatible version filled in |
| ReprintSize.BlocksAreBounded | internal/dtb/dtb.go:253-430 | what the parser builds prints to a structure block no longer than the one it read, and to strings of at most one strings block for every twelve bytes read |
| ReprintSize.ReprintIsBounded | internal/dtb/dtb.go:159-388 | the printed size of an accepted tree is bounded by the file's length and the block sizes in its header |
| ReprintSize.SmallFileReprints | internal/dtb/dtb.go:159-388 | so does every accepted file of up to 220 KiB, whatever it holds |
| NopTokens.StepShifts | internal/dtb/dtb.go:253-326 | one token's effect does not depend on four bytes inserted before it |
| NopTokens.NopChangesNothing | internal/dtb/dtb.go:263-264 | a NOP put wherever the parser stands between tokens leaves the result, tree or error, as it was |
| TreeTexts.HeaderIsSaid | internal/dtb/dtb.go:335-388 | a written file begins with the bytes d0 0d fe ed, and the nine words behind them are its size, the three block offsets, both versions with their defaults 17 and 16, the boot CPU and the two block sizes, each where the specification has it |
| TreeTexts.ReserveIsSaid | internal/dtb/dtb.go:335-388 | from byte 40 on the reserve map holds address before size, high word first, and ends with a pair of zeros |
| TreeTexts.SmallTreeIsSaid | internal/dtb/dtb.go:390-445 | the structure block of a root with one property and one child, byte by byte: the tokens are 1, 3, 2 and 9, the property has its length before its name offset |
| Slots.BaysAreSplit | internal/dtb/slots.go:206-233 | SATA bays and skipped bays together are all bays |
| Slots.AddressedAt | internal/dtb/slots.go:206-233 | after k bays have been pointed at ports, each of them holds its own port and every other child is untouched |
| DeviceTrees.InsertSlot | internal/dtb/slots.go:107-121 | inserting one more bay keeps the list sorted by number and complete |
| DeviceTrees.DeviceTree.InternalSlots | internal/dtb/slots.go:107-121 | the bays found are exactly the root's children with a bay number, sorted by it |
| DeviceTrees.DeviceTree.ApplySATAPorts | internal/dtb/slots.go:206-233 | the k-th port goes into the k-th SATA bay; the report names the bays without a port, the ports without a bay and the bays that are not SATA, and the counts add up to all bays and all ports; without bays nothing changes |
| DeviceTrees.DeviceTree.SetNVMeSlots | internal/dtb/nvme.go:48-69 | the board's M.2 slots are replaced by one per controller and the power limits set; without controllers nothing changes; what the new nodes say is `TreeTexts.SlotsAreSaid` |
| TreeTexts.SlotsAreSaid | internal/dtb/nvme.go:48-69 | unless there are no controllers, the tree has exactly one nvme_slot@i+1 for the i-th of them, with pcie_root its path and port_type ssdcache, each ended by a NUL, and power_limit is one 14.85 for each, comma-separated and ended by a NUL |
| TreeTexts.AddressIsSaid | internal/dtb/slots.go:125-151 | a bay pointed at a port has, in its ahci child, pcie_root the path with a NUL and ata_port the number as a big-endian word |
| TreeTexts.BayIsNamed | internal/dtb/slots.go:107-121 | internal_slot@n is bay n |
| TreeTexts.OtherIsNoBay | internal/dtb/slots.go:107-121 | a child whose name does not begin with internal_slot@ is no bay |
| TreeTexts.SataBayHasAhci | internal/dtb/slots.go:206-233 | a bay is a SATA bay if and only if it has a child called ahci |
| DeviceTrees.Rewrite | cmd/vibeldr-init/main.go:665-693 | one rewrite of a file: the parser's error or panic, no bays, or the printed tree after both edits, which is one of the results `Rewrites` allows |
| BootRewrite.PropAfterSet | internal/dtb/dtb.go:123-129 | a property reads back as set and every other property keeps its value |
| BootRewrite.PointAtReadsBack | internal/dtb/slots.go:143-151 | an address reads back as written, cut at trailing NULs, and writing it again changes nothing |
| BootRewrite.AddressOnly | internal/dtb/slots.go:125-151 | writing an address changes only the ahci child, and in it only the two address properties |
| BootRewrite.SlotOrderExists | internal/dtb/slots.go:107-121 | every tree has an order of its bays that sorting may give |
| BootRewrite.PortsByRank | internal/dtb/slots.go:206-233 | with distinct bay numbers the result does not depend on the sort: the bay with k smaller numbers gets the k-th port |
| BootRewrite.ReaddressAllKeeps | internal/dtb/slots.go:206-233 | rewriting addresses keeps the set of bays and their numbers, and doing it again changes nothing |
| BootRewrite.WithoutNvmeKeeps | internal/dtb/nvme.go:48-69 | dropping the M.2 slots keeps every other child and all bay numbers |
| BootRewrite.NvmeKeepsBays | internal/dtb/nvme.go:48-69 | replacing the M.2 slots keeps the bays and their numbers |
| BootRewrite.NvmeTwice | internal/dtb/nvme.go:48-69 | replacing the M.2 slots twice is replacing them once |
| BootRewrite.EditsCommute | cmd/vibeldr-init/main.go:681-686 | with distinct bay numbers, address rewriting and slot replacement may be done in either order, however the bays are listed before and after |
| BootRewrite.EditsTwice | cmd/vibeldr-init/main.go:681-686 | with distinct bay numbers, both edits done again change nothing, however the bays are listed the second time |
| BootRewrite.EditsNulFree | cmd/vibeldr-init/main.go:681-686 | the edits keep the names of a tree NUL-free, so it stays printable |
| BootRewrite.RewritesOnce | cmd/vibeldr-init/main.go:665-693 | the written file reads back as the edited tree and that tree prints as the file |
| BootRewrite.RewriteReadsBack | cmd/vibeldr-init/main.go:665-693 | every file below 2^32 bytes that a rewrite writes is the print of the tree after both edits and reads back as that tree, whatever the bay numbers |
| TreeTexts.WrittenSlotsAreSaid | cmd/vibeldr-init/main.go:665-693 | the tree read back from the written file says the same of its M.2 slots and power limits |
| BootRewrite.RewriteIsAFixedPoint | cmd/vibeldr-init/main.go:665-693 | with the same ports and controllers and distinct bay numbers, rewriting the rewritten file gives its own bytes and nothing else |
| BootRewrite.PortsReadBack | cmd/vibeldr-init/main.go:665-693 | in the rewritten file the number of SATA bays is unchanged and the k-th of them, by number, reads back the k-th port |
| PortMap.AtaNumOf | internal/cmdline/autorender.go:52-73 | the two loops over a port name are `AtaNumber`, which `PortNames.NumberIsRead` and `PortNames.NoNumberIsRead` say in full |
| PortNames.NumberIsRead | internal/cmdline/autorender.go:58-73 | a name that is text without digits, any number of zeros, a number below 2^63 and a rest that does not go on with a digit has that number |
| PortNames.NoNumberIsRead | internal/cmdline/autorender.go:52-73 | a name without digits has the number 0x40000000 |
| PortNames.ByNumber | internal/cmdline/autorender.go:149-153 | of two controllers with a port ata<m> and a port ata<n> the one with the smaller number comes first, so ata7 before ata10 |
| PortNames.SataOnlyAt | internal/cmdline/autorender.go:113-139 | the SATA controllers and no others are laid out, each behind those before it |
| PortNames.FirstListedDecides | internal/cmdline/autorender.go:159-184 | the start of a controller is the bay of its first listed port minus the index of that port, at least 0 |
| PortNames.LastEntryWins | internal/cmdline/autorender.go:140-145 | the bay of a key is the place, from 1, of its last entry |
| PortMap.OrderByAta | internal/cmdline/autorender.go:149-153 | the sort of the controllers is `SortByAta`, whose stability is proved beside it |
| PortMap.ReadBays | internal/cmdline/autorender.go:140-145 | the chosen bay of each port key, the last one winning, blank entries skipped but counted |
| PortMap.StartsFromBays | internal/cmdline/autorender.go:159-184 | pass 1: each controller with a listed port starts at its bay minus its port index, at least 0; the indices in use are exactly those windows |
| PortMap.FirstFree | internal/cmdline/autorender.go:188-210 | the open-ended search ends, at the least start whose window is free |
| PortMap.PlaceControllers | internal/cmdline/autorender.go:159-210 | passes 1 and 2 give a placement: chosen starts kept, every other controller at the least start clear of all chosen windows and of those placed before; every start is at most the bay bound plus the number of ports |
| PortMap.ExposedPorts | internal/cmdline/autorender.go:225-260 | pass 3: the number of ports exposed for one controller |
| PortMap.WriteMaps | internal/cmdline/autorender.go:225-296 | both strings, trimmed of trailing zeros together and with the leading zero mended |
| PortMap.PortMapFor | internal/cmdline/autorender.go:113-297 | the whole function: nothing without SATA controllers, else the maps of a placement for the controllers in ata order |
| PortMapMeaning.MinAtaIsLeast | internal/cmdline/autorender.go:301-309 | the number of a controller is at most that of each port and is one of them |
| PortMapMeaning.SortIsStable | internal/cmdline/autorender.go:149-153 | the order is sorted, a permutation, and keeps controllers with the same number in their given order |
| PortMapMeaning.StartsAreBounded | internal/cmdline/autorender.go:159-210 | every start is at most the length of the bay list plus the total number of ports |
| PortMapMeaning.SmallMachineInByte | internal/cmdline/autorender.go:225-296 | below 256 bays and ports together every start fits two hex digits |
| PortMapMeaning.PlacementIsUnique | internal/cmdline/autorender.go:159-210 | a layout has only one placement, so the specification of the passes fixes their result |
| PortMapMeaning.ExposedIsLargest | internal/cmdline/autorender.go:225-260 | m ports are exposed if and only if there are m, m is a digit, they end below the bay count and no later chosen start lies inside them |
| PortMapMeaning.ExposedOverlap | internal/cmdline/autorender.go:159-260 | two exposed windows meet if and only if both starts were chosen and are the same start below the bay count |
| PortMapMeaning.MapsMeaning | internal/cmdline/autorender.go:225-296 | after trimming, position i is still controller i with its count, and with its start as long as no start up to it needs more than two hex digits; the strings are aligned if and only if no start does or no port is exposed |
| PortMapMeaning.AlignedExactly | internal/cmdline/autorender.go:225-296 | the strings are aligned - not empty, two hex digits for each digit, no zero at either end - if and only if every start is below 256 or the chosen bays leave no controller an exposed port |
| PortMapMeaning.LeadingZero | internal/cmdline/autorender.go:287-295 | a leading controller that exposes nothing either starts at or past the bay count or has no ports and starts at 0 |
| PortMapMeaning.ExposedBelowBays | internal/cmdline/autorender.go:225-296 | every decoded disk index is below the bay count, but for the one throwaway port of a leading zero |
| PortMapMeaning.LowestStart | internal/cmdline/autorender.go:159-210 | some controller with ports starts below b if and only if one is chosen to, or the chosen windows leave one room from 0: first fit need not be followed to know |
| PortMapMeaning.NoIndexTwiceExactly | internal/cmdline/autorender.go:113-297 | the decoded map gives no disk index to two controllers if and only if chosen starts below the bay count differ and a leading controller without ports has no other beside it that is chosen for index 0 or whose window the chosen ones leave free from 0 |
| ChosenBays.BayIsHonouredExactly | internal/cmdline/autorender.go:140-260 | a port listed for a bay decodes to that bay's index if and only if the chosen start of its controller agrees with it, it is among the ports and below 9, and no other chosen start lies behind that start and up to the bay; on a machine without an exposed port, if and only if it is the fallback's port |
| ChosenBays.AgreementIsHonoured | internal/cmdline/autorender.go:159-260 | if the listed ports of a controller agree on a start s, that is its chosen start, and each of them listed inside the bays is in its bay if and only if it is among the ports, below 9, and no other chosen start lies in (s, bay - 1] |
| ChosenBays.HonouredAgree | internal/cmdline/autorender.go:159-184 | listed ports of one controller that are all in their bays agree on its start |
| ChosenBays.BlankingRemovesOneKey | internal/cmdline/autorender.go:140-145 | blanking a bay takes away that bay's key and no other key changes its number |
| ChosenBays.BlankingKeepsStarts | internal/cmdline/autorender.go:159-184 | blanking a bay that holds none of a controller's ports never moves that controller's chosen start |
| ChosenBays.BlankingIsSafeExactly | internal/cmdline/autorender.go:140-260 | a port in its bay stays there when another bay is blanked, one that holds none of its controller's ports or any if they agree, if and only if no start chosen from the bays that are left lies between its controller's start and its bay |
| ChosenBays.BlankingCanHideADisk | internal/cmdline/autorender.go:159-260 | a concrete machine with its starts before and after, on which blanking one controller's bay takes another controller's chosen disk out of its bay |
| BayPlan.BayOrderSized | cmd/vibeldr-boot/wizard_linux.go:1080-1089 | the list cut or padded to the bay count, each entry trimmed |
| BayPlan.BayEditor.SetBayPort | cmd/vibeldr-boot/wizard_linux.go:1223-1241 | one edit of the list; a bay out of range changes nothing, not even the dirty flag |
| BayPlan.PlacedMeans | cmd/vibeldr-boot/wizard_linux.go:1223-1241 | after an edit the port is in its bay and in no other, every other bay below the count is as it was, and the list has no blank at its end |
| BayPlan.EditorKeepsTidy | cmd/vibeldr-boot/wizard_linux.go:1080-1241 | over any run of edits, with the bay count changing in between, no port is in two bays, and the list fits the bays of the last effective edit without trailing blanks |
| BayPlan.DefaultBayOrder | cmd/vibeldr-boot/wizard_linux.go:1191-1200 | the candidates in order, cut at the bay count |
| PortLines.ParsePortLines | cmd/vibeldr-init/main.go:1023-1037 | the ports named by the lines of a text, lines that are not two fields with a number skipped, the number taken modulo 2^32 |
| PortLines.KeyParses | cmd/vibeldr-boot/wizard_linux.go:1162-1175 | a settings key reads back as the path and index it was made of |
| PortLines.TrimmedTextReads | cmd/vibeldr-init/main.go:1023-1037 | white space around the text makes no difference to what is read |
| PortLines.SavePorts | cmd/vibeldr-init/main.go:1039-1045 | one line for each port, in order |
| PortLines.SavedReadsBackExactly | cmd/vibeldr-init/main.go:1023-1045 | the ports file reads back as written if and only if every path is one word |
| PortLines.RenderBayPlan | cmd/vibeldr-boot/wizard_linux.go:2144-2158 | the entries that are not blank, trimmed, one to a line |
| PortLines.PlanReadsBack | cmd/vibeldr-boot/wizard_linux.go:2144-2158 | the plan file says, in bay order, exactly the entries that name a port |
| BayPlan.BayOrder | cmd/vibeldr-init/main.go:641-663 | the ports of the SATA controllers, in controller and port order |
| BayPlan.DetectedAt | cmd/vibeldr-init/main.go:641-663 | port j of a SATA controller stands behind all ports of the SATA controllers before it, with its path and index, and no other ports are there |
| BayPlan.SlashKeyTellsPortsApart | cmd/vibeldr-init/main.go:1019 | two ports with the same key are the same port |
| BayPlan.ApplyBayPlan | cmd/vibeldr-init/main.go:1000-1015 | the planned ports that were detected, in plan order; all detected ones without a plan |
| BayPlan.MapDiskBays | cmd/vibeldr-init/main.go:578-606 | the ports one boot works with and the file that hands them on; an error when there are none |
| BayPlan.InstalledGetsTheSamePorts | cmd/vibeldr-init/main.go:1039-1100 | the installed system reads back exactly the ports the ramdisk worked out |
| BayPlan.EntryLands | cmd/vibeldr-init/main.go:1000-1015 | a chosen port that is there lands in the bay numbered by the entries before it that are there |
| BayPlan.BayMapIsPositional | internal/cmdline/autorender.go:140-145 | the number the command line starts from is the place of the entry, blank ones counted |
| BayEndToEnd.BootPortsAre | cmd/vibeldr-init/main.go:578-606 | from the edited list to the boot: the chosen ports that were detected, or all of them when none is chosen |
| BayEndToEnd.TreesShowTheChosenBays | cmd/vibeldr-init/main.go:553-693 | in both the ramdisk's and the installed system's rewritten tree the k-th SATA bay is the k-th chosen port that was detected |
| BayEndToEnd.PathsAgreeExactly | cmd/vibeldr-boot/wizard_linux.go:1204-1208 | the device tree gives a chosen disk the place of its port among the chosen ports that are there; the decoded map of the command line gives it the same index if and only if its controller's chosen start does, and both are the chosen bay if and only if that start puts it there and no entry before is blank or names a missing port |
| BayEndToEnd.GapIsClosed | cmd/vibeldr-init/main.go:994-999 | a disk that the command line puts in its chosen bay has another index in the device tree if and only if an entry before it is blank or names a missing port |
| BayEndToEnd.BlankBayIsClosed | cmd/vibeldr-init/main.go:994-999 | a machine with one disk chosen for bay 2 behind a blank bay: the command line's map gives it index 1, the device tree index 0 |
| GrubRewrite.OpenKeeps | cmd/vibeldr-boot/grub_rewrite_linux.go:326-331 | opening the temporary file keeps the invariant |
| GrubRewrite.RenameKeeps | cmd/vibeldr-boot/grub_rewrite_linux.go:337-349 | the rename puts only complete, synced contents in place, in every directory a power cut may leave |
| GrubRewrite.PowerCutKeeps | cmd/vibeldr-boot/grub_rewrite_linux.go:326-355 | the invariant survives a power cut at any step |
| GrubRewrite.StepKeeps | cmd/vibeldr-boot/grub_rewrite_linux.go:93-169 | every step of rewrite, restore and their failures keeps the invariant; what a call leaves at its end is in `RestoreEnds` |
| GrubRewrite.RunsAreSafe | cmd/vibeldr-boot/grub_rewrite_linux.go:93-169 | in every run, cut anywhere, grub.cfg is the complete original or a complete menu that was asked for, the backup is the original, and it is missing only while grub.cfg is still the original |
| GrubRewrite.BackupStays | cmd/vibeldr-boot/grub_rewrite_linux.go:93-169 | a backup that is in every possible directory is never lost again |
| RestoreEnds.RestoreWritesBackup | cmd/vibeldr-boot/grub_rewrite_linux.go:155-169 | in every environment a restore that runs to its end leaves in grub.cfg what the backup held when it began, and for good where a directory sync succeeds |
| RestoreEnds.RestoreBringsBack | cmd/vibeldr-boot/grub_rewrite_linux.go:155-169 | in a careful environment that is the original |
| RestoreEnds.RewriteLeavesMenu | cmd/vibeldr-boot/grub_rewrite_linux.go:93-136 | in a careful environment a rewrite that runs to its end leaves the menu in grub.cfg and the original in the backup, whether the backup was there or is made first |
| RestoreEnds.CallCanFinish | cmd/vibeldr-boot/grub_rewrite_linux.go:326-355 | from where a write begins there is always a way to its end |
| GrubRewrite.UnreadableIsUnsafe | cmd/vibeldr-boot/grub_rewrite_linux.go:93-129 | a run in which grub.cfg cannot be read at the first rewrite leaves the original nowhere |
| GrubRewrite.UnorderedIsUnsafe | cmd/vibeldr-boot/grub_rewrite_linux.go:326-355 | a run that loses the backup when directory operations are unordered and the directory sync fails |
| GrubRewrite.SafeExactlyWhenCareful | cmd/vibeldr-boot/grub_rewrite_linux.go:93-169 | the promise holds in all runs if and only if directory operations are ordered or the directory sync succeeds, and reading succeeds |
| RepairQueue.ParseDSMTasks | cmd/vibeldr-init/dsmtasks.go:58-73 | known and unknown names in file order, comments, blanks and repeats skipped |
| RepairQueue.ParsedKnownOnce | cmd/vibeldr-init/dsmtasks.go:58-73 | a known name is a repair's name and comes out once |
| RepairEnds.RepairsByName | internal/synoboot/synoboot.go:329-338 | the two repairs are unblock-ips and disable-triggered-tasks |
| RepairQueue.SavedReadsBack | cmd/vibeldr-boot/dsmfix_linux.go:77-87 | a saved queue reads back as exactly the chosen repairs in order |
| RepairQueue.RunKeeps | cmd/vibeldr-init/dsmtasks_linux.go:76-187 | the invariant of the queue over every run of saves, boots, write-backs and power cuts |
| RepairQueue.AtMostOnce | cmd/vibeldr-init/dsmtasks_linux.go:76-94 | in every run each repair of a save is made at most once, and only when no file a power cut may leave still holds that save |
| RepairQueue.BeginningsNameOnlyChosen | cmd/vibeldr-boot/dsmfix_linux.go:77-87 | a queue file cut short anywhere names only repairs that were chosen |
| RepairQueue.AppliedWereChosen | cmd/vibeldr-init/dsmtasks_linux.go:76-94 | in every run each repair that is made was chosen in the save it came from |
| RepairEnds.BootMakesAll | cmd/vibeldr-init/dsmtasks_linux.go:76-94 | a boot that ends without a power cut and without an error has made every repair the file asks for, in order and nothing else, and the file is gone |
| RepairEnds.BootMakesChosen | cmd/vibeldr-init/dsmtasks_linux.go:76-94 | when the save reached the file whole, those are the chosen repairs in the order of the choice |
| RepairEnds.BootCanFinish | cmd/vibeldr-init/dsmtasks_linux.go:76-94 | wherever a queue file is there, such a boot exists |
| ModuleLoader.Loader.LoadModuleByName | cmd/vibeldr-init/extradrivers_linux.go:520-552 | unless missing modules depend on each other in a circle, and with any pattern of failing loads, every archived dependency is loaded or has been tried before its dependant is, no module is loaded twice, and the loaded set only grows |
| ModuleLoader.NotYetLoaded | cmd/vibeldr-init/extradrivers_linux.go:520-552 | loading the dependencies of a module never loads the module itself |
| Grid.CellAfterPut | internal/fbui/canvas.go:151-173 | writing one pixel changes that cell and no other, whatever the stride |
| Grid.CellsDecide | internal/fbui/canvas.go:106-118 | buffers of a canvas are equal when all their pixels are |
| Grid.IntersectIsOverlap | internal/fbui/canvas.go:137-147 | the intersection holds exactly the common points and is never of negative size |
| Screen.DrawnAt | internal/fbui/cursor.go:94-122 | drawing the cursor shows its mask over the picture inside the clip and changes nothing else, on and off the edges |
| Screen.RestoredAt | internal/fbui/cursor.go:126-140 | restoring writes the saved colours under the cursor and changes nothing else |
| Screen.RestoreUndoesDraw | internal/fbui/cursor.go:94-140 | drawing and restoring leave every byte of the canvas as it was |
| Screen.FlushedAt | internal/fbui/fb_linux.go:229-259 | a flush writes the packed canvas colours over its rectangle, where it meets both surfaces, and no other pixel |
| PixelBits.ChannelsReadBack | internal/fbui/fb_linux.go:212-256 | for channels of 1 to 8 bits that lie inside the pixel and do not overlap, at 16, 24 and 32 bits: the bits of the little-endian pixel from the offset of red are the top bits of red, the same for green and blue, and every other bit is 0 |
| PixelBits.UsualPixel | internal/fbui/fb_linux.go:212-256 | with red at 16, green at 8 and blue at 0 the bytes are blue, green, red, 0 |
| Screen.PresentShows | internal/fbui/session_linux.go:93-97 | after a full present the screen shows the canvas with the cursor, whatever it held |
| Screen.CursorMoveShows | internal/fbui/session_linux.go:103-108 | after a move, flushing the area left and the new one gives the same picture as a full present |
| Screen.HandledShows | internal/fbui/session_linux.go:121-167 | every event of the loop leaves the screen showing the picture last drawn |
| Screen.RunShows | internal/fbui/session_linux.go:121-167 | after any run of events every pixel is the packed last picture with the cursor at the mouse's last place |
| ScreenBytes.PictureBytes | internal/fbui/session_linux.go:121-167 | away from the cursor, the four bytes of screen memory of a pixel are blue, green, red of the same pixel of the picture, and 0 |
| ScreenBytes.ArrowBytes | internal/fbui/cursor.go:23-122 | at the tip of a visible cursor they are black, inside it white |
| ScreenSession.Canvas.constructor | internal/fbui/canvas.go:106-118 | a new canvas is an opaque black picture whose clip is all of it |
| ScreenSession.Canvas.Clip | internal/fbui/canvas.go:125-129 | narrowing the clip keeps exactly the common points and gives back the old clip |
| ScreenSession.Canvas.Set | internal/fbui/canvas.go:151-160 | one pixel is written if the clip has it, else nothing |
| ScreenSession.MouseCursor.Draw | internal/fbui/cursor.go:94-122 | the loops draw the mask cell by cell and keep the colours that were under it |
| ScreenSession.MouseCursor.Restore | internal/fbui/cursor.go:126-140 | the loops write the kept colours back, once |
| ScreenSession.Framebuffer.FlushRect | internal/fbui/fb_linux.go:229-259 | the byte loops with running offsets write the device pixels of the area, for 16, 24 and 32 bits; what a device pixel is, is `PixelBits.ChannelsReadBack` |
| ScreenSession.Session.Present | internal/fbui/session_linux.go:93-97 | the present leaves canvas, clip and cursor place alone and the screen flushed |
| ScreenSession.Session.PresentCursorMove | internal/fbui/session_linux.go:103-108 | the cursor-only present flushes the clean area left behind and the new area with the cursor on |
| ScreenSession.Session.Run | internal/fbui/session_linux.go:121-167 | the event loop ends with the canvas holding the last picture and the screen showing it with the cursor at its last place |
| LogSplit.ScanLogLines | internal/fbui/logview.go:133-159 | the split function's answer for any data, at the end of the stream or before it |
| LogSplit.CutIsFinal | internal/fbui/logview.go:133-159 | a token cut before the end is known is the token any longer input gives |
| LogSplit.ChunksDoNotMatter | internal/fbui/logview.go:133-159 | however the stream is cut into reads, the tokens are those of the whole stream |
| LogSplit.TokensRebuildTheStream | internal/fbui/logview.go:118-159 | tokens and their endings rebuild the stream; no token holds a line break but the carriage return it may end in |
| LogWindow.CrOverwrites | internal/fbui/logview.go:85-116 | text before a carriage return shows only while nothing follows it on its line |
| LogWindow.ProgressLine | internal/fbui/logview.go:85-116 | with 13 and 10 written out: text behind a carriage return replaces its line, a carriage return right before the newline ends it |
| LogWindow.PrintedIsTerminal | internal/fbui/logview.go:85-159 | printing the tokens of a stream gives one line for each newline, holding what was written last on it, and perhaps an unfinished one |
| LogWindow.LogView.AppendLine | internal/fbui/logview.go:97-116 | one piece is printed on the kept lines as it would be on all lines ever shown |
| LogWindow.LogView.Append | internal/fbui/logview.go:70-83 | the window holds exactly the newest lines of everything printed, and the line at its top stays there while it is kept |
| LogWindow.LogView.Show | cmd/vibeldr-boot/wizard_linux.go:2013-2018 | reading a whole output in any chunks leaves the newest lines a terminal would show of it |
| LogWindow.LogView.Window | internal/fbui/logview.go:196-217 | the lines drawn are a stretch of those held, the last ones while following |
| LogWindow.LogView.Wheel | internal/fbui/logview.go:250-265 | after the wheel the view follows new lines exactly when the last line is in it |
| Quoting.EscapedIsSame | internal/dsmconf/dsmconf.go:48-58 | %q leaves a value as it is if and only if each of its characters is valid UTF-8 that prints, and none is a quote or a backslash |
| Unquoting.DecodedEncodes | internal/dsmconf/dsmconf.go:48-58 | the code point that is looked up encodes, as RFC 3629 has it, to the bytes it was read from |
| Unquoting.QuotingUndone | internal/dsmconf/dsmconf.go:48-58 | what %q writes of any bytes is read back, by the rules for interpreted string literals of the Go specification, as those bytes |
| DsmConf.AssignmentReadsBack | internal/dsmconf/dsmconf.go:86-109 | the editor reads its own assignments back |
| ConfTexts.AssignmentIsSaid | internal/dsmconf/dsmconf.go:48-58 | a written line is the key, an equals sign, and between double quotes a string literal of the value |
| ConfTexts.QuotedIsRead | internal/dsmconf/dsmconf.go:86-109 | a line of a key, an equals sign and any text between double quotes assigns that text |
| ConfTexts.CommentIsSkipped | internal/dsmconf/dsmconf.go:86-109 | a line that begins with a number sign assigns nothing |
| ConfTexts.TwoLines | internal/dsmconf/dsmconf.go:41-47 | a text falls into lines at byte 10 |
| DsmConf.SplitKeyOk | internal/dsmconf/dsmconf.go:86-109 | every key read from a line is one that an assignment can carry |
| DsmConf.Get | internal/dsmconf/dsmconf.go:72-79 | the value on the first line that assigns the key |
| DsmConf.Set | internal/dsmconf/dsmconf.go:41-59 | the edited text |
| DsmConf.SetAll | internal/dsmconf/dsmconf.go:63-68 | the edits one after another, in order |
| DsmConf.LinesAfterSet | internal/dsmconf/dsmconf.go:41-59 | an edit replaces one line where it stands, or puts the assignment on a last line of its own behind the trimmed text |
| DsmConf.SetThenGet | internal/dsmconf/dsmconf.go:41-79 | after an edit the key reads as the quoted form of the value, under exactly the keys a line can carry |
| DsmConf.ReadsBackExactly | internal/dsmconf/dsmconf.go:41-79 | an edit reads back to the letter if and only if the key can be carried and the value needs no escapes |
| DsmConf.SetKeepsOthers | internal/dsmconf/dsmconf.go:41-79 | an edit changes no other key |
| DsmConf.OthersKeptExactly | internal/dsmconf/dsmconf.go:41-79 | an edit leaves all other keys of all files alone if and only if its key can be carried by a line or the key with an equals sign behind it assigns nothing |
| DsmConf.SpacedKeySetsAnother | internal/dsmconf/dsmconf.go:41-79 | setting a key with a space in front sets the key without it |
| DsmConf.SetTwice | internal/dsmconf/dsmconf.go:41-59 | a second identical edit is a no-op |
| DsmPolicy.Settings | internal/dsmconf/policy.go:78-86 | every key has the user's value, else the platform's, else the policy's, in whatever order the layers are copied |
| PolicyTexts.PolicyReads | internal/dsmconf/policy.go:46-51 | unless platform or user say otherwise, support_disk_compatibility is yes, and rss_server, rss_server_ssl and rss_server_v2 are their addresses on 127.0.0.1, letter by letter |
| DsmPolicy.KeyOrderIsUnique | internal/dsmconf/policy.go:96-110 | a set of keys has only one sorted listing |
| DsmPolicy.RenderList | internal/dsmconf/policy.go:96-110 | the list is the same for every order in which the map gives its keys |
| DsmPolicy.ParseList | internal/dsmconf/policy.go:117-131 | the pairs of the lines that have a key, in file order |
| DsmPolicy.ListReadsBackExactly | internal/dsmconf/policy.go:96-131 | the list reads back as written if and only if each pair fits on a line of it |
| DsmPolicy.UntouchedLines | internal/dsmconf/dsmconf.go:41-68 | over a whole list of edits, every line up to the last non-blank one that assigns none of the keys keeps its text and place |
| DsmPolicy.SetAllTwice | internal/dsmconf/dsmconf.go:63-68 | applying a list twice is applying it once |
| DsmPolicy.PolicyFits | internal/dsmconf/policy.go:46-51 | the loader's own entries always survive list and file |
| DsmPolicy.SettingsArrive | internal/dsmconf/policy.go:78-131 | merged, listed, parsed and written, each setting reads back quoted, every other key keeps its value and a second run changes nothing |
| DsmPolicy.SettingsArriveExactly | internal/dsmconf/policy.go:78-131 | the file says what was asked for to the letter if and only if the value needs no escapes |
| Dhcp.OptionsReadBack | cmd/vibeldr-boot/net_linux.go:434-478 | options read back as laid out, whatever pads stand between them and whatever follows the End option |
| Dhcp.TakenMeans | cmd/vibeldr-boot/net_linux.go:451-476 | taking options in one by one keeps the last good value of each kind and all name servers in order |
| Dhcp.ParseReply | cmd/vibeldr-boot/net_linux.go:423-478 | the index loop over the message, as a function of the list of options; an empty message type is a panic |
| Dhcp.ReplyMeans | cmd/vibeldr-boot/net_linux.go:423-478 | a well laid-out message is accepted if and only if operation, transaction, magic and last message type match; then it says the last mask, the last router list's first address, the last server and every name server; it panics if and only if it matches and holds an empty message type |
| DhcpBytes.ReplyIsRead | cmd/vibeldr-boot/net_linux.go:423-478 | a reply with the cookie 99.130.83.99 and options 53, 1, 3, 6 and 54 is accepted with mask, router, both name servers and server each in its place |
| Dhcp.BuildMessage | cmd/vibeldr-boot/net_linux.go:394-416 | a request has its fixed fields in place, and its options are `RequestBytes`; they read back as kind, address asked for, server and parameters wanted if and only if To4 knows the addresses given |
| DhcpBytes.RequestIsSaid | cmd/vibeldr-boot/net_linux.go:394-416 | byte by byte: 53 with the kind, 50 with the address, 54 with the server, 55 asking for 1, 3 and 6, and 255 |
| DhcpBytes.RequestCookie | cmd/vibeldr-boot/net_linux.go:394-416 | the options begin behind the cookie 99.130.83.99 |
| CommandLine.SetMeans | internal/cmdline/cmdline.go:42-50 | setting a key changes its value, no other value and no first place |
| CommandLine.OthersAppearOnce | internal/cmdline/cmdline.go:42-118 | after any sequence of calls only a key given to Add stands on the line twice |
| CommandLine.LastPutWins | internal/cmdline/cmdline.go:42-50 | the last Set of a key decides what Get returns |
| CommandLine.EntryAdded | internal/cmdline/cmdline.go:107-118 | a list parameter gains the entry at its end if it was not there and nothing otherwise |
| CommandLine.Builder.Set | internal/cmdline/cmdline.go:42-50 | after the call the parameters are those of all calls so far in order, and the index names the first copy of every key |
| CommandLine.Builder.Add | internal/cmdline/cmdline.go:67-73 | the same for one more copy of a key: the index still names the first |
| CommandLine.Builder.AppendCSV | internal/cmdline/cmdline.go:107-118 | the same for a list entry: the value grows by it, and an entry already in the list leaves the parameters as they are |
| CommandLine.Builder.Get | internal/cmdline/cmdline.go:93-99 | the value of the first copy |
| CommandLine.Builder.String | internal/cmdline/cmdline.go:130-140 | the parameters in order with a space between them, a parameter without a value as its bare key |
| CommandLine.OneWordEach | internal/cmdline/cmdline.go:130-140 | the rendered line falls apart into its parameters again if and only if there are some and none holds a space |
| LineText.LineReadsBackExactly | internal/cmdline/cmdline.go:130-140 | the line, split at spaces and each word at its first equals sign, gives the parameters again if and only if there are some, none holds a space and no key holds an equals sign |
| CommandLine.Validate | internal/cmdline/cmdline.go:154-226 | exactly the problems the line has are reported, a parameter's own problems once for each parameter that has them and every other once, sorted by key |
| LineProblems.ProblemsAre | internal/cmdline/cmdline.go:154-226 | which lines are reported, in full: an empty key, a space or tab, a second copy of any key but console, a missing syno_hw_version, sn or netif_num, a card count that is no number or not the number of mac1 to mac8 that are there, and a serial that is not 13 long |
| LineProblems.CountIsRead | internal/cmdline/cmdline.go:154-226 | a written count reads back as itself if and only if it fits a 64-bit int |
| BuildLine.Build | internal/cmdline/build.go:71-322 | the calls made for a configuration, in order; nothing for a platform without that kernel; what they make the line say is in `BuildTexts` and `BuildLists` |
| BuildChecks.OnlyConsoleIsRepeated | internal/cmdline/build.go:71-322 | whatever the configuration, no key but console stands on the line twice |
| BuildChecks.UserWins | internal/cmdline/build.go:310-319 | every entry of the user is what Get returns, and every other key keeps its value from before |
| BuildValues.SectionSays | internal/cmdline/build.go:71-322 | a key gets its value from the one section of the build that names it, or from the user |
| BuildTexts.IdentityReads | internal/cmdline/build.go:80-121 | for any configuration: syno_hw_version is the model, sn the serial, mac<n> the n-th address and nothing beyond the last, netif_num their count, skip_vender_mac_interfaces the list of their numbers or nothing, vender_format_version 2 |
| BuildTexts.SkipListIs | internal/cmdline/build.go:114-120 | that list is 0 to n - 1 |
| BuildTexts.EarlyprintkReads | internal/cmdline/build.go:124 | earlyprintk stands without a value |
| BuildTexts.EarlyconReads | internal/cmdline/build.go:125 | earlycon is uart8250,io,0x3f8,115200n8 |
| BuildLists.ConsolesRead | internal/cmdline/build.go:126-156 | the copies of console are, in order, tty0 and ttyS0,115200n8; a console of the user takes the place of the first |
| BuildTexts.LogReads | internal/cmdline/build.go:188-190 | loglevel is 15, log_buf_len 32M and panic the configured number |
| BuildTexts.RootReads | internal/cmdline/build.go:191-195 | root is /dev/md0; nowatchdog and rootwait stand without a value |
| BuildTexts.KernelReads | internal/cmdline/build.go:206-241 | split_lock_detect is off if and only if the kernel is 5.x or later, HddHotplug is 1 if and only if it is older; module.sig_enforce is 0 |
| BuildTexts.DiskReads | internal/cmdline/build.go:242-269 | libata.force is noncq unless NCQ is on; with a device tree syno_ttyS0 and syno_ttyS1 name their ports; without one syno_hdd_detect and syno_hdd_powerup_seq are 0, and SMBusHddDynamicPower is 1 on broadwellnk alone |
| BuildTexts.PolicyReads | internal/cmdline/build.go:282-289 | SataPortMap is the port map and DiskIdxMap the index map if there is a port map; sata_remap is the remap if and only if there is none and a remap is wanted |
| BuildTexts.PowerReads | internal/cmdline/build.go:291-293 | pcie_aspm is off; intel_iommu is igfx_off on apollolake alone, initcall_blacklist is i2c_i801_init on broadwellnk alone |
| BuildLists.BlacklistReads | internal/cmdline/build.go:296-308 | modprobe.blacklist holds pgdrv and every module named in the configuration that is one entry of a list, and nothing else; without commas in the names none is there twice |
| BuildTexts.NeverReads | internal/cmdline/build.go:157-204 | keep_bootcon, noefi and withefi are never set by the build |
| BuildChecks.IdentityReadsBack | internal/cmdline/build.go:80-86 | serial, card count and cards come out as given |
| BuildChecks.CleanBuildValidates | internal/cmdline/cmdline.go:154-226 | with at most eight cards, a serial of thirteen characters, no blanks in any value and user entries that leave the identity alone, the validation finds nothing |

## Left out

- FlatTree.Parser.Parse: nodes are values, so a node joins its parent when it is closed and not, as in the Go code, when it is opened; a reference to a node kept across an edit is not modelled.
- FlatTree.BytesOf: the error of a tree without a root and the panic of a wrapped total are modelled, the text of error messages is not.
- DeviceTrees.DeviceTree.InternalSlots: sort.Slice fixes no order between equal bay numbers, so any order it may give is allowed; the fixed point and the read-back are stated for distinct numbers.
- BootRewrite.RewriteIsAFixedPoint: reading and writing the file itself is not modelled, only its bytes.
- ChosenBays.BayIsHonouredExactly: stated, like the other members on decoded indices, for starts below 256, where two hex digits hold them; a machine below 256 bays and ports together always is (`PortMapMeaning.SmallMachineInByte`).
- Quoting.EscapedIsSame: which characters from 128 on print is Go's table, left open here.
- CommandLine.Validate: sort.Slice fixes no order between problems with one key, so any order among them is allowed.
- PortMap.PortMapFor: the kinds and ports of controllers are inputs; scanning for them is not part of this model.
- ModuleLoader.Loader.LoadModuleByName: stated for modules whose missing dependencies form no circle; on such a circle the Go code calls itself without end.
- GrubRewrite.SafeExactlyWhenCareful: whether directory operations reach the disk in order, whether a directory sync succeeds and whether files can be read are parameters of the environment; rendering the menu text and resetting the next-boot variable are left out.
- RepairQueue.AtMostOnce: what a repair does is left out, it is only made once or not at all; finding and mounting the partition is left out.
- Screen.RunShows: what the wizard draws is any opaque picture; the framebuffer's memory is written by nobody else.
- ScreenSession.Session.Run: input arrives as a list of events, a tick being an event without a mouse move; filling, borders, text and the other drawing helpers of the canvas are left out.
- LogSplit.ChunksDoNotMatter: the size limit of bufio.Scanner's buffer is not modelled.
- LogWindow.LogView.Show: escape sequences are taken out of the text before it is appended, and the lock around the list is left out.
- DsmPolicy.SettingsArrive: the filter that keeps some keys out of the ramdisk's own file and the reading of the files are left out.
- Dhcp.BuildMessage: sending, waiting, retries and the random transaction number are left out.
- BuildChecks.CleanBuildValidates: one direction only; an unclean configuration may still pass, as when an override replaces a value with a blank in it.
- BuildLine.Build: the storage policy is an input; choosing it is plain branching over settings and platform class.
- BayPlan.MapDiskBays: leaving out the loader's own port and ordering the controllers happen before, in code that is not part of this model.
- Loops inside one Go function are sometimes methods of their own here, so that each has its own contract.
- Wizard screens, widgets, fonts, text menus, downloads, notifications, the time exchange and the on-disk boot log have no part in the model.
- Kernel patching, ramdisk and image building, compression and hardware scanning are not part of this model.
