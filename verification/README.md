# hivex, modelled and proved in Dafny

hivex reads and edits Windows Registry hives: one file of bytes, tiled by `hbin` pages, each page tiled by blocks, a
bitmap that says which offsets start a used block, and on those blocks a linked structure of keys (`nk`), subkey lists
(`lf`/`lh`, and `ri` lists of lists), value lists, values (`vk`), data, and reference-counted security records (`sk`) in
a ring. This project models that library down to the bytes and proves that its operations keep the structure and do to
the registry what they say, together with four small algorithms of the shell and of gnulib.

## How the model is built

* **Bytes, bitmap, pages, blocks** (`Bytes`, `Bitmap`, `Layout`, `Heap`). `Heap.Tiled`: pages tile `[0x1000, endpages)`,
  blocks tile every page, a bit is set exactly at the start of each used block, and the free rest of the last page
  starts where the next allocation goes.
* **The handle** (`Hives.Hive`): `addr`, `bitmap`, `rootoffs`, `endpages`, `endblocks`, updated in place. Two ghost
  fields say what the bytes stand for: `cells`, the record each tracked block holds, and `t`, the registry: nodes, the
  role every block plays, and the ring of security records. `HeapOk()` ties `cells` to the bytes; `Valid()` adds
  `Registry.TreeOk`, which ties the tree to the records. Every block has exactly one role, so blocks of different roles
  never overlap. Two more ghost fields, `base` and `license`, say since which image only which bytes have been written.
* **Operations** (`Readers`, `Values`, `Subkeys`, `Adding`, `AddChild`, `Security`, `Deleting`, `Unlinking`,
  `DeleteChild`, `OpenCommit`): the C functions, branch by branch, as methods on the handle.
* **Meaning** (`Subtrees`, `Trees`, `Edits`, `Plans`, `Runs`, `Sorted`, `RoundTrips`): the registry as a nested value
  `Node(name, values, kids)`, what each call does to it, which runs of calls succeed, and theorems about whole runs.
* **Around it**: `Visitor` and `VisitTree` (the depth-first walk on any image), `Allocator` (runs of allocations), `Paths`
  (printing and following paths in the shell), `Minimal` (a valid hive exists), `MultiStrings`, `Getopt`, `Memchr`,
  `Strtol`.

## Assumptions

* Little-endian host with 64-bit `size_t` and signed `char`. Names and keys are compared like `strcasecmp` in the C
  locale. Those that callers pass are C strings, so without zero bytes, shorter than 65536 (their length is stored in 16
  bits); those already in a hive may hold any bytes.
* The operations start from a valid hive. `hivex_open` does not check tiling, so an accepted image need not be one;
  `OpenCommit.Open` says exactly what it accepts; `hivex_commit` writes only images it accepts, and those tile.
* `realloc` gives out no image above 2 GiB (`Heap.MAX_IMAGE`), so offsets fit in 32 bits; other allocations succeed.
  `ENOMEM` stands for a refused `realloc`, `ERANGE` for a block that is too long, as in the code.
* A node handle is a live node, or an offset at which no used block has the id `nk`. A freed handle is of the second kind.
* Where the C code would read past the end of the image, the model returns `EFAULT`.
* Calls that fail part way are not atomic, as in the C code: `HeapOk()` always holds afterwards, the tree only where a
  contract says so.

## Model

| member | source | states |
|---|---|---|
| `Bitmap.SetMarks` | lib/hivex-internal.h:45-47 | setting the bit of an offset marks that offset and no other |
| `Bitmap.ClrUnmarks` | lib/hivex-internal.h:45-47 | clearing it unmarks that offset and no other |
| `Bitmap.SameMarks` | lib/hivex-internal.h:37-47 | two bitmaps of one length that mark the same offsets are equal |
| `Bytes.LittleEndian` | lib/byte_conversions.h:36-48 | numbers are read from their bytes lowest first |
| `Hives.Hive.ValidIn` | lib/hivex-internal.h:48-52 | an offset that passes IS_VALID_BLOCK starts a block that lies inside the image |
| `Layout.Apart` | lib/hivex.c:96-128 | of two blocks anywhere in the tiled pages the lower ends before the higher starts |
| `Heap.WriteCell` | lib/hivex.c:96-128 | rewriting one block behind its length keeps tiling, bitmap, and every other block's record |
| `Heap.FreeCell` | lib/hivex.c:2037-2052 | making one length positive and clearing its bit keeps tiling, bitmap and all other records |
| `Heap.AddPage` | lib/hivex.c:1857-1926 | a page appended at endpages keeps tiling and bitmap, and moves no record |
| `Hives.Hive.AllocatePage` | lib/hivex.c:1857-1926 | fails exactly when the image would pass its limit, else appends a page: magic, own offset, size, zeros to the end of the header; the image and its zero bitmap bytes grow no more than that takes |
| `Hives.Hive.AllocateBlock` | lib/hivex.c:1948-2027 | refused exactly for a read-only handle, a bad length or no room (then nothing changes); else a zeroed used block where Place says, free rest after it, all earlier bytes and records kept, its bit and no other set |
| `Hives.Hive.MarkBlockUnused` | lib/hivex.c:2037-2052 | for any valid block, as asserted: exactly this block is freed, its length turns positive, its bit is cleared, no other byte or bit changes |
| `Allocator.OffsetsRise` | lib/hivex.c:1976-2024 | over any run of allocations offsets are 8-aligned and every block ends before the next begins |
| `Allocator.AboveAll` | lib/hivex.c:1982-2024 | every block that exists, used or freed, lies below the next allocation, except the free rest it is cut from |
| `Allocator.PageSmallest` | lib/hivex.c:1859-1863 | the page added is the smallest multiple of 4096 that holds header and block |
| `Allocator.Compact` | lib/hivex.c:1976-2027 | over any run each block starts where the one before ends, unless it does not fit in the page; then it starts a new page, the smallest that holds it |
| `Hives.RestFacts` | lib/hivex.c:2008-2024 | what is left of a page after a block is nothing or at least 8 bytes |
| `Allocator.RunCalls` | lib/hivex.c:1948-2052 | a run of allocations and frees in any order returns those offsets: 8-aligned, each block above all allocated before it, freed since or not, and above every block, used or freed, that the image held before the run; marked afterwards are the old and the new blocks less the freed ones; without frees it succeeds exactly when no length is refused; HeapOk is kept |
| `Readers.GetChildren` | lib/hivex.c:753-968 | on any tiled image it succeeds exactly when its checks on bytes and bitmap hold, and with the check every child is a valid block; when it fails, the error of the first check that does; for a node of the registry exactly its children in reading order and its list blocks, ri first, over a direct list and over an ri of many |
| `Readers.ChildrenHold` | lib/hivex.c:753-968 | for a node whose records list children, what the checks and loops find in the bytes is that list |
| `Readers.NodeName` | lib/hivex.c:570-604 | on any tiled image: succeeds exactly when the name lies in its block, and gives those bytes; EINVAL for a bad handle, else EFAULT; for a node of the registry its name |
| `Readers.NodeParent` | lib/hivex.c:1014-1034 | on any tiled image: succeeds exactly when the field leads to a valid block, and gives that; EINVAL for a bad handle, else EFAULT |
| `Readers.GetChild` | lib/hivex.c:987-1011 | on any tiled image a child that get_children reports with a name that can be read, or 0; for a node of the registry the first child whose name matches; not 0 if and only if, among children few enough to read, one bears the name with letters in any case |
| `Readers.GetValues` | lib/hivex.c:1037-1128 | on any tiled image: succeeds exactly when its checks hold; then the vk records in order and the value list; EINVAL for a bad handle, ERANGE above 10000, else EFAULT |
| `Readers.ValueKey` | lib/hivex.c:1188-1237 | on any tiled image: succeeds exactly when the key lies in its block, and gives those bytes; EINVAL, EFAULT as coded |
| `Readers.ValueValue` | lib/hivex.c:1240-1349 | on any tiled image: succeeds exactly when its checks hold, with the bytes of the record or of the data block, cut to that block; EINVAL, ENOTSUP, ERANGE, EFAULT exactly as coded; for a value of the registry its type and bytes |
| `Readers.ToleratedKinds` | lib/hivex.c:1727-1745 | unreadable data is tolerated exactly for the type words 4, 5 and 11 |
| `Names.CmpZero` | lib/hivex.c:987-1011 | two strings compare equal exactly when up to their zero bytes they have the same length and letters that differ in case at most |
| `Names.CmpLess` | lib/hivex.c:2245-2263 | one comes before the other exactly when at the first place where the lower-case letters differ it has the smaller one or ends |
| `Values.DeleteValues` | lib/hivex.c:2056-2098 | frees exactly value list, vk records and out-of-line data of the node, and resets count and pointer; writes only their lengths and those two fields |
| `Values.Dropped` | lib/hivex.c:2055-2098 | the tree without those values is a good tree in which nothing else changed |
| `Values.SetValues` | lib/hivex.c:2659-2749 | the node gets exactly these values and every node keeps everything else, whatever pages are added on the way; vk flags, inline lengths and the two maxima in the nk record are as the code keeps them; below the first new block the only bytes written are lengths of the freed value blocks and four fields of the nk record; EROFS and EINVAL as coded, ERANGE for too many old values or an overlong block, ENOMEM only without room, else success |
| `Values.SetValue` | lib/hivex.c:2752-2828 | the node's values become SetTo of the old ones; every node keeps everything else; same bytes and same errors as set_values |
| `Values.SetExactly` | lib/hivex.c:2769-2812 | with unique keys, SetTo changes the matching value in place or appends exactly one; the others keep order, type, bytes and key, except that a stored key with a zero byte is cut there, since keys go on as C strings |
| `RoundTrips.SetThenRead` | lib/hivex.c:2658-2749 | set_values, then get_values and the value readers: the same keys, types and bytes in the same order, inline and out of line; ERANGE exactly above 10000 values |
| `Subkeys.CalcHash` | lib/hivex.c:2149-2167 | the hash stored with a key: the first four bytes, padded with zeros, for lf; for lh the sum of its upper-case signed characters times powers of 37, modulo 2^32 |
| `Subkeys.LhHashIs` | lib/hivex.c:2149-2167 | the loop computes that sum |
| `Subkeys.LhHashRecased` | lib/hivex.c:2149-2167 | names that differ only in the case of letters have the same lh hash |
| `Subkeys.InsertLfRecord` | lib/hivex.c:2191-2241 | a new list equal to the old one with the node at posn; the old list is freed |
| `Subkeys.FindPlace` | lib/hivex.c:2382-2400 | list and entry found are the place of the new name in the whole sequence of children, also at a list boundary and at the very end |
| `Subkeys.RelinkRi` | lib/hivex.c:2433-2455 | the first ri entry naming the old list now names the new one, and no other changes |
| `AddChild.LinkInsert` | lib/hivex.c:2377-2456 | exactly one list is replaced, by itself with the new node at the right place, and parent or ri points to it |
| `Adding.AddedTree` | lib/hivex.c:2288-2467 | records with one more child in that place form a good tree: nodes, roles, ring, reference counts, links |
| `AddChild.AddChild` | lib/hivex.c:2266-2470 | EROFS, EINVAL as coded; EEXIST for a name that a child bears in any case; where memory lasts EFAULT exactly without a security record, ERANGE exactly for too many children, else success: one new leaf in its place, its nk record field by field, an entry with the hash of its name, the parent's count one more and its longest name kept, one more reference on the security record, every other node unchanged; below the first new block the only bytes written are that count, three fields of the parent, lengths of its lists and entries of its ri |
| `Sorted.AddKeepsSorted` | lib/hivex.c:2331-2345 | children of every node stay strictly increasing whatever the case, hence without duplicates |
| `Sorted.IncreasingMeans` | lib/hivex.c:2331-2345 | sorted children differ pairwise in more than the case of letters, and an earlier child comes before a later one when both are written in lower case |
| `Sorted.DeleteKeepsSorted` | lib/hivex.c:2621-2649 | deleting keeps the order of what stays |
| `Security.RingShrinks` | lib/hivex.c:2495-2519 | taking a member out leaves one closed doubly linked ring of the others |
| `Security.DeleteSk` | lib/hivex.c:2476-2522 | EFAULT for no sk block, EINVAL at count zero; one reference less; at zero, and only then, the record leaves the ring and is freed; only its count, its length and the links of its two neighbours are written |
| `Deleting.DeleteNode` | lib/hivex.c:2530-2578 | succeeds exactly within the readers' limits; frees exactly what the node owns, and its security record if it was the last user; counts and ring stay right |
| `Unlinking.FlatShrinks` | lib/hivex.c:2621-2641 | one list shorter by one entry is the whole child sequence without that child |
| `Unlinking.UnlinkChild` | lib/hivex.c:2606-2649 | the parent lists every other child in order, and its record counts one less and is otherwise the same |
| `DeleteChild.VisitDelete` | lib/hivex.c:1619-1657 | the deleting visitor removes exactly the subtree, leaves first, clearing exactly its nodes in unvisited; it succeeds exactly when no node of the subtree is beyond the limits of the readers |
| `DeleteChild.DeleteChild` | lib/hivex.c:2581-2656 | EROFS and EINVAL as coded; else it succeeds exactly when the subtree and the list of the parent are within the limits of the readers, and reports ERANGE otherwise; on success the registry loses exactly the subtree; the bits cleared are exactly its blocks plus security records left without users; and the only bytes that change are lengths of those blocks, four fields of the deleted nk records, counts of security records they used, links to security records that go, the parent's subkey count, and the key count and moved entries of the list that named the node; no page or block boundary moves |
| `DeleteChild.FreedExactly` | lib/hivex.c:2529-2578 | blocks no longer tracked are exactly those owned by the subtree and the orphaned security records |
| `Deleting.RelinkStays` | lib/hivex.c:2495-2519 | however many security records go, only links that pointed to one of them are ever rewritten |
| `Heap.BlocksStay` | lib/hivex.c:96-128 | a write inside one block that keeps its length moves no page and no block |
| `Sorted.AddThenDelete` | lib/hivex.c:2353-2462 | the registry after adding and deleting a child is the registry before |
| `RoundTrips.AddThenDelete` | lib/hivex.c:2581-2656 | on the hive too, with every child count and every security reference count as before |
| `Trees.ReadTree` | lib/hivex.c:752-1349 | what the readers return from a node down is the nested tree the registry stands for; ERANGE exactly when a node of it is beyond their limits |
| `Trees.AddAtParent` | lib/hivex.c:2266-2470 | add_child gives the parent's nested tree one more leaf at its place |
| `Trees.DeleteUntouched` | lib/hivex.c:2581-2656 | delete_child leaves every nested tree that holds neither parent nor node as it was |
| `Edits.EditsAbove` | lib/hivex.c:2265-2828 | a call that edits the tree of its node edits every tree above it in that place and nowhere else |
| `Edits.DropEdits` | lib/hivex.c:2581-2656 | delete_child of child i is removal of child i from the nested tree |
| `Runs.DoneEdits` | lib/hivex.c:2265-2828 | every successful add, delete, set_values, set_value is the edit of the nested tree of the same name |
| `Plans.LimitsAre` | lib/hivex.c:752-1349 | the nested tree is within the limits exactly when every node of the subtree is |
| `Plans.AtNode` | lib/hivex.c:2265-2828 | whether a call makes sense and what it needs are the same on the nested tree and at the node its positions lead to |
| `Runs.Step` | lib/hivex.c:2265-2828 | one call at a place given by child positions: on success that edit, and the call made sense there; it succeeds where it makes sense, within the limits and with room |
| `Runs.Run` | lib/hivex.c:2265-2828 | a run of calls of any length keeps the hive valid and sorted, and its tree is the first tree after the same edits; with security records, trees within the limits and room, all told from the first tree and the end of pages, it succeeds exactly when every call makes sense in its turn |
| `Runs.RunThenRead` | lib/hivex.c:752-1349 | and that tree is what the readers then find, or ERANGE exactly when it is beyond their limits |
| `OpenCommit.HeaderChecksum` | lib/hivex.c:212-224 | each bit of the sum is set exactly when an odd number of the 127 words before 0x1fc have it set |
| `OpenCommit.Parity` | lib/hivex.c:212-224 | the exclusive or of words counts bits modulo two |
| `OpenCommit.OpenChanged` | lib/hivex.c:315-330 | opening an image that differs from an accepted one in any way inside one summed word fails: ENOTSUP for magic or version, else EINVAL |
| `OpenCommit.ScanPages` | lib/hivex.c:413-460 | in any image the scan goes through exactly when page sizes and block lengths lead to the end of pages; it then marks exactly the used blocks met and knows whether the root was met and is a used nk block |
| `OpenCommit.Open` | lib/hivex.c:240-473 | accepts an image exactly when header and checksum are right, page sizes and block lengths lead to the end of pages, and the root is a used nk block met on the way; then root, end of pages and the used blocks met; EINVAL exactly for the checksum, ENOTSUP for magic, version, a bad page or block, no root |
| `OpenCommit.GoodOpens` | lib/hivex.c:363-473 | a tiled image is accepted exactly when it is good, and what the scan meets is all its blocks |
| `OpenCommit.CommittedHeader` | lib/hivex.c:2118-2133 | the stamped header passes the checks and no byte after it changes |
| `OpenCommit.Commit` | lib/hivex.c:2101-2144 | EINVAL for flags, EROFS; else the hive stays valid and what is written is a good image with its root and end of pages, both sequence numbers the old first one plus one, no header byte changed but these, end of pages and checksum |
| `OpenCommit.CommitThenOpen` | lib/hivex.c:315-473 | opening what commit wrote gives the same bitmap, root, end of pages and registry |
| `RoundTrips.RunCommitReopen` | lib/hivex.c:2101-2144 | a run of calls, a commit and a reopen: the readers find the first tree after the same edits, or ERANGE exactly when that is beyond their limits; so provided it succeeds exactly when every call makes sense |
| `Visitor.FitsUnique` | lib/hivex.c:1618-1657 | an image has at most one depth-first forest over given roots |
| `Visitor.Walk.VisitNode` | lib/hivex.c:1619-1835 | through the readers of a hive or on given answers: terminates, cycles and shared children included; starts a node at most once; without SKIP_BAD a result of 0 means the calls were those of one tree in depth-first order; with SKIP_BAD the calls are those of the pruned walk up to the first refusal, and the result is 0 exactly without one |
| `Visitor.ImageInRange` | lib/hivex.c:753-968 | whatever an image holds, the children its readers report have their bits inside the bitmap |
| `Visitor.VisitHive` | lib/hivex.c:1594-1616 | on any tiled hive, whatever its blocks hold, without SKIP_BAD it returns 0 if and only if what it reaches is a readable tree of unvisited nodes that the callbacks accept; then the calls are that tree's nested trace; with SKIP_BAD it returns 0 if and only if no callback refuses, and the calls are those of the pruned walk: nothing for a visited or unnamed node, start and the values before the fault for a bad one, and its siblings all the same |
| `Visitor.VisitFrom` | lib/hivex.c:1594-1616 | the same for arbitrary answers of the readers that stay inside the bitmap |
| `Visitor.TraceOnce` | lib/hivex.c:1639-1825 | that trace starts and ends every node of the tree, and starts it once |
| `Visitor.TraceNested` | lib/hivex.c:1619-1835 | a machine with a stack of open nodes accepts that trace: it takes only the next value, the next child, or the end of the innermost node once it has no value and no child left |
| `Visitor.PrunedWhole` | lib/hivex.c:1619-1835 | on a good tree the pruned walk is the whole trace |
| `Visitor.PrunedReaches` | lib/hivex.c:1619-1835 | the pruned walk reaches every root and every child of a node it ends; of the nodes it reaches it starts exactly those with a name and ends exactly those whose values and children can be read |
| `VisitTree.HiveReads` | lib/hivex.c:752-1349 | the readers of a valid hive find every node that is within their limits, with its children and readable values |
| `VisitTree.VisitSubtree` | lib/hivex.c:1594-1616 | on a valid hive the visit returns 0 and starts and ends exactly the nodes of the subtree, each once, in depth-first order |
| `MultiStrings.StringLen` | lib/hivex.c:1461-1473 | bytes before the first zero unit or the end |
| `MultiStrings.SplitStrings` | lib/hivex.c:1500-1523 | the loop terminates and returns StringsFrom |
| `MultiStrings.SplitJoined` | lib/hivex.c:1477-1527 | strings joined with zero units, ended by one, with anything after, split into exactly those strings |
| `MultiStrings.JoinSplit` | lib/hivex.c:1477-1527 | on whole units, joining what was split gives how the data begins, a missing final terminator added |
| `Paths.PrintNodePath` | sh/hivexsh.c:258-286 | prints the names from below the root, each after one backslash and up to a zero byte |
| `Paths.PathIs` | sh/hivexsh.c:258-286 | the path of the root is a backslash, any other its names from below the root with one backslash before each |
| `Paths.Shell.CmdCd` | sh/hivexsh.c:540-588 | cwd becomes where the path leads, or stays when it leads nowhere, through a node with too many children, or starts with two backslashes; `.` stays; `..` leads to the node that lists this one, and stays at the root |
| `Paths.CdUp` | sh/hivexsh.c:540-588 | `..` leads from any node but the root to the one whose children hold it, and from the root to itself |
| `Paths.CdDots` | sh/hivexsh.c:540-588 | a path followed by `.` leads to the same node, followed by `..` to the node that lists it |
| `Paths.CdThereAndBack` | sh/hivexsh.c:540-588 | the name of a child, then `..`, comes back |
| `Paths.CdOfPath` | sh/hivexsh.c:540-588 | cd to the path of a node leads to that node from any directory, for good names and nodes above it that can be read |
| `Paths.PrintThenCd` | sh/hivexsh.c:258-286 | printing a path and following it on a hive comes back to the node |
| `Getopt.Data.Exchange` | gnulib/lib/getopt.c:143-220 | exactly rotates the skipped arguments past the options after them, in place, and moves the window |
| `Getopt.Data.Next` | gnulib/lib/getopt.c:382-441 | the window is cut at optind first; then one call keeps the scan invariant and advances, or ends with argv permuted and optind at the first other argument, where the window begins |
| `Getopt.Scan` | gnulib/lib/getopt.c:382-441 | a whole scan leaves options (with arguments, and `--`) then other arguments, each in their own order, a permutation of argv |
| `Getopt.SplitMeans` | gnulib/lib/getopt.c:382-441 | an argument goes with the options exactly when it starts with a dash and has more than one character, follows an option that wants an argument, or is the first `--`; everything else, and everything after `--`, goes with the others |
| `Getopt.SplitPermutes` | gnulib/lib/getopt.c:382-441 | options and other arguments together are the arguments, none lost or added |
| `Memchr.JoinTest` | gnulib/lib/memchr.c:78-142 | the subtract and mask test on a word xor the repeated byte is nonzero if and only if one of its eight bytes is that byte |
| `Memchr.Find` | gnulib/lib/memchr.c:58-168 | for every alignment, length and byte: the least matching index, or none, as the byte-by-byte search |
| `Strtol.CutoffExact` | gnulib/lib/strtol.c:345-370 | the cutoff test holds if and only if the next value exceeds the unsigned range |
| `Strtol.Accumulate` | gnulib/lib/strtol.c:345-370 | the exact value of the longest digit run, or the sticky flag, set if and only if it exceeds the range |
| `Strtol.Limit` | gnulib/lib/strtol.c:378-402 | the range check in wrapping arithmetic gives the exact signed value or the nearest limit; ERANGE exactly then |
| `Strtol.Convert` | gnulib/lib/strtol.c:237-420 | EINVAL for a bad base; else value, end and errno are Meaning of the string, signed and unsigned |
| `Strtol.ReadsBack` | gnulib/lib/strtol.c:237-402 | every long written in any base from 2 to 36 is read back as itself, to the end |
| `Strtol.ReadsNumber` | gnulib/lib/strtol.c:237-402 | white space, sign, an explicit base or a prefix for hex or octal, digits in either case and any tail: exactly the number written, signed or unsigned, or the limit it passes with ERANGE; the end is that of the digits |
| `Strtol.ReadsNothing` | gnulib/lib/strtol.c:404-420 | without digits the value is zero and the end is the start |
| `Strtol.ReadsHexMark` | gnulib/lib/strtol.c:404-418 | `0x` without a hex digit after it reads as zero, and the end is at the x |
| `Minimal.MinimalHive` | lib/hivex.c:60-209 | there is a valid, writable hive: a root key with its security record |

## Left out

- Visitor.VisitHive: callbacks are a parameter saying after which calls one returns -1, and the fourteen value callbacks are one event. Images that hivex_open accepts but that are not tiled are covered only by VisitFrom, where the answers of the readers are given.
- AddChild.AddChild: when memory runs out half way (ENOMEM) nothing is said of the tree, and the new nk record stays allocated, as in the code.
- Paths.CdOfPath: the names must be non-empty, backslash-free, not `.` or `..`, and different among siblings whatever the case; with other names cd can lead elsewhere.
- Getopt.Scan: ordering PERMUTE only; option matching is a predicate saying which options want an argument.
- Blocks of a parent's list emptied by delete_child stay used and unreferenced, as in the code; no theorem says every used block is reachable.
- Reading, writing, mapping and closing files, and debug output.
- Conversion between UTF-16 and UTF-8, and the string, dword and qword readers built on it: they depend on iconv or only add easy members.
- Time stamps, struct lengths, class names and security descriptors as readable values; volatile subkeys.
- hivexml, the language bindings, the other commands of the shell, and the rest of gnulib.
