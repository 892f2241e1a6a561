# Verified models of the QEMU guest firmware drivers

Dafny models of the three parts of the QEMU platform package whose correctness depends on several
functions agreeing with each other, and proofs of what they promise.

**AML decoder, namespace and table editing** (`QemuPkg/AcpiSdtDxe`; modules `Aml*`, `Asl*`, `SdtEdit`).
Memory is a byte sequence with total reads. A recursive specification says what option lookup and
object size are; the looping code is proved to compute it, and locality, stability, child
enumeration, the namespace tree, path search, name conversion and checksum repair are proved over
it. `AmlEncode` writes objects by the rules of ACPI 6.5 and proves that the parser reads them back. The traversals hold for any encoding table with well-formed rows; `AmlTable` writes out the
driver's table and proves that it is one.

**Linker/loader interpreter** (`QemuPkg/AcpiPlatformDxe/QemuFwCfgAcpi.c`; modules `Loader*`).
The packed script is decoded and run on a class that holds the fw_cfg files, page allocations,
installed tables and the tracker. Every answer of a service (pages, pool, table protocol) is a
parameter, so the theorems hold for every environment. `LoaderScript` says what one command does,
`LoaderFirstPass` and `LoaderSecondPass` what each pass establishes, `Loader` holds the handlers
with their rollback, and `LoaderRuns` the theorems about whole runs.

**virtio-net driver** (`QemuPkg/VirtioNetDxe`; modules `Wrap`, `SplitRing`, `Virtio*`).
Driver and device share rings with 16-bit indices. The device may take the next available entry
and complete any head it holds, in any order. `SplitRing` relates a ring to unbounded counters and
to a log of publications and completions; the transmit and receive queues add descriptors,
free-head stack, reverse map and packet memory; the `Device` modules are the same queues on arrays,
updated in place, and refine them. `VirtioLifecycle` covers start, initialization with its rollback
ladder, shutdown and stop, under arbitrary failures.

## What the code does that its comments do not say

- A search for the empty path from a handle other than the root trips the assertion of the
  namespace walk (`AmlWalk.SearchAsserts`, `AmlFound.EmptyPathAsserts`).
- An object cut off exactly at its bound is accepted with its truncated size; `AmlLocality.SizeStableIff`
  says which objects these are, and `AmlFound.FoundSize` when a path search returns one with
  another size than the walk gave it, which `AmlTruncated.FoundLarger` shows to happen.
- Setting option 0 may write two bytes over a one-byte object (`SdtEdit.OpcodeEscapes`,
  `SdtEdit.ZeroOpEscape`).
- Transmit reports a failed notification as an error although the packet is queued
  (`VirtioTx.TransmitErrorQueues`).
- The index arithmetic of the rings relies on the queue size dividing 2^16 (`Wrap.WrapSlotIff`).
- The second pass of the linker/loader can stop in an ASSERT that its comment calls ensured, when a
  later command writes over a relocated pointer field (`LoaderRuns.OverlapAsserts`). It does so
  exactly if the first pass left a field that is reached pointing outside its pointee
  (`LoaderRuns.HaltsIff`), which no script without such writes does (`LoaderRuns.ClearNeverHalts`).
  On AArch64 the FADT patch can spoil a field too; whether it can is a test between the passes
  (`LoaderSecondPass.FadtsSpareUndisturbed`).
- The comments on the rows for the dual and the multi name prefix give both as 0x2F; the table here
  has 0x2E and 0x2F, as section 20.2.2 of ACPI 6.5.

## Model

| member | source | states |
|---|---|---|
| `AmlName.GetNameStringSize` | QemuPkg/AcpiSdtDxe/AmlString.c:109-178 | The loops compute `NameSize`, the size of a NameString in the grammar of section 20.2.2 of ACPI 6.5, or reject it; a MultiName count of zero still checks one segment. |
| `AmlName.SegmentsAreCounted` | QemuPkg/AcpiSdtDxe/AmlString.c:109-178 | Without a prefix a name has one segment, two behind 0x2E, or as many as the byte behind 0x2F says but at least one, and no more bytes than these; a null name is none. |
| `AmlName.NameSizeLocal` | QemuPkg/AcpiSdtDxe/AmlString.c:109-178 | An accepted name has the same size wherever its own bytes appear again: no byte past its end matters, although the code reads ahead before any bound is checked. |
| `AmlParse.SearchByOpByte` | QemuPkg/AcpiSdtDxe/Aml.c:180-208 | Returns the first row with this opcode and, after the extension prefix, this second byte; none only if no row matches. |
| `AmlParse.GetPkgLength` | QemuPkg/AcpiSdtDxe/Aml.c:239-296 | The successive assignments yield the width and the value of the PkgLength encoding of section 20.2.4 of ACPI 6.5. |
| `AmlEncode.PkgRoundTrip` | QemuPkg/AcpiSdtDxe/Aml.c:239-296 | Every length, written in any of the four widths that hold it by the rules of section 20.2.4 of ACPI 6.5, is read back with its width. |
| `AmlParse.ParseTerm` | QemuPkg/AcpiSdtDxe/AmlOption.c:27-126 | A term that parses is at least one byte long and fits the bound. |
| `AmlParse.ParseOption` | QemuPkg/AcpiSdtDxe/AmlOption.c:145-296 | The mutual recursion terminates; a size is between 1 and the bound, and every option but the opcode ends inside the bound. |
| `AmlParse.ParseOptionTerm` | QemuPkg/AcpiSdtDxe/AmlOption.c:27-126 | The switch over the encoding computes the term specification, including the rejection of anything longer than the bound. |
| `AmlParse.ParseOptionCommon` | QemuPkg/AcpiSdtDxe/AmlOption.c:145-296 | The loop that moves the buffer and the bound computes the recursive option specification, for every option index and for the size request. |
| `AmlParse.GetObjectSize` | QemuPkg/AcpiSdtDxe/AmlOption.c:308-331 | The object size, 0 for an object that does not parse. |
| `AmlEncode.ObjIs` | QemuPkg/AcpiSdtDxe/AmlOption.c:145-331 | An object written as opcode, PkgLength, terms and body, with objects, names, strings and integers nested as terms to any depth, is measured as exactly its bytes, under every bound that holds them and whatever follows. |
| `AmlEncode.OpensAs` | QemuPkg/AcpiSdtDxe/AcpiSdt.c:379-420 | Opening it returns the handle of exactly its bytes and its row. |
| `AmlEncode.OptionIs` | QemuPkg/AcpiSdtDxe/AmlOption.c:145-296 | Looking up option k of it returns the kind, the place and the length of its k-th term, and the bytes there are those of the term. |
| `AmlEncode.ListStartsAtBody` | QemuPkg/AcpiSdtDxe/AmlOption.c:398-432 | Its object list starts where its body was written. |
| `AmlTable.TableIsGood` | QemuPkg/AcpiSdtDxe/Aml.c:11-157 | All 143 rows: a row in the namespace has a name option and is no name character, only rows with a PkgLength have children, and the name characters are exactly the bytes that can start a name. |
| `AmlTable.DispatchesNames` | QemuPkg/AcpiSdtDxe/Aml.c:180-208 | For any memory, the table sends an object to the name parser if and only if its first byte can start a non-null name. |
| `AmlTable.NamesAreDispatched` | QemuPkg/AcpiSdtDxe/AmlOption.c:80-97 | No byte string that the name parser accepts is taken for another object. |
| `AmlTable.NamesAreNotOpened` | QemuPkg/AcpiSdtDxe/AcpiSdt.c:386-402 | And none is opened as an object. |
| `AmlLocality.OptionLocal` | QemuPkg/AcpiSdtDxe/AmlOption.c:145-296 | Locality: any two memories that agree on the first `max` bytes give the same option, the same size or the same failure, although opcode, name, string and PkgLength reads may look past the bound. |
| `AmlLocality.TermsLocal` | QemuPkg/AcpiSdtDxe/AmlOption.c:229-263 | The same for the term loop, from any of its positions. |
| `AmlLocality.CutPkgFails` | QemuPkg/AcpiSdtDxe/AmlOption.c:211-227 | A PkgLength field that the bound cuts off is rejected whatever it encodes. |
| `AmlLocality.SizeStable` | QemuPkg/AcpiSdtDxe/AmlOption.c:308-331 | Stability: a measured object has the same size wherever its bytes appear again, under every smaller bound that holds it and, unless it was cut off at its bound, under every larger one; names and objects with a PkgLength never are. |
| `AmlLocality.SizeGrows` | QemuPkg/AcpiSdtDxe/AmlOption.c:264-295 | An object that fills its bound and lacks terms, or whose last term does, grows or fails under every larger bound, whatever bytes follow. |
| `AmlLocality.SizeStableIff` | QemuPkg/AcpiSdtDxe/AmlOption.c:264-295 | Exactly when a measured object keeps its size: the bound is not raised, the object did not fill it, or the object is whole. |
| `AmlLocality.Remeasure` | QemuPkg/AcpiSdtDxe/AmlOption.c:214-295 | Re-measuring under any bound between the size and the original bound gives the size again. |
| `AmlLocality.CutObjectGrows` | QemuPkg/AcpiSdtDxe/AmlOption.c:264-295 | The shortest object that is cut off: a BytePrefix without its byte is accepted with size 1, is not whole, and has size 2 under a larger bound. |
| `AmlChild.OptionsTile` | QemuPkg/AcpiSdtDxe/AmlOption.c:229-263 | Two options found by index lie side by side: the smaller index ends no later than the larger one begins. |
| `AmlChild.SizeMatchesOptions` | QemuPkg/AcpiSdtDxe/AmlOption.c:264-295 | Size and option lookup agree: without a PkgLength the last option ends exactly where the measured object ends. |
| `AmlChild.GetChildFromObjectBuffer` | QemuPkg/AcpiSdtDxe/AmlChild.c:23-67 | The next child in a byte range is the object measured at the current position; the enumeration ends exactly at the end of the range. |
| `AmlChild.GetChildFromOptionList` | QemuPkg/AcpiSdtDxe/AmlChild.c:113-168 | The loop over options returns the first child option behind the previous child, and hands over to the object list when none is left. |
| `AmlChild.GetChildAdvances` | QemuPkg/AcpiSdtDxe/AcpiSdt.c:662-714 | One call: the child is not empty, lies inside the parent and starts at or behind the end of the previous child, across the hand-over from option children to list children. |
| `AmlChild.EnumerationOrdered` | QemuPkg/AcpiSdtDxe/AcpiSdt.c:662-714 | Any two children of an enumeration are disjoint and in increasing order. |
| `AmlChild.EnumerationSound` | QemuPkg/AcpiSdtDxe/AmlChild.c:249-280 | An enumeration from NULL is finite, bounded by the parent size; its children are non-empty, pairwise disjoint, strictly increasing ranges inside the parent. |
| `AmlChildComplete.OptionsComplete` | QemuPkg/AcpiSdtDxe/AmlChild.c:113-168 | An enumeration that has ended has returned every option that is an object, with its size. |
| `AmlChildComplete.BytesComplete` | QemuPkg/AcpiSdtDxe/AmlChild.c:23-67 | And every byte of the table body or of the object list lies in a returned child or in a name that a call passed over, going on name by name from the start of the list or from the end of a child. |
| `AmlWalkComplete.RootEnumerates` | QemuPkg/AcpiSdtDxe/AmlChild.c:81-99 | The children of a table whose body consists of objects are exactly these, in order, and then the end is reported. |
| `AmlWalkComplete.ListEnumerates` | QemuPkg/AcpiSdtDxe/AmlChild.c:182-235 | The same for the object list of an object, from any of its members on. |
| `AmlNamespace.AcceptedNameWalks` | QemuPkg/AcpiSdtDxe/AmlNamespace.c:176-190 | The assertion of the walk holds, from any node, for every name accepted by the size function. |
| `AmlNamespace.NullNameIsRootIff` | QemuPkg/AcpiSdtDxe/AmlNamespace.c:150-190 | It fails exactly for names without segments that start below the root. |
| `AmlNamespace.Namespace.FindNodeInThis` | QemuPkg/AcpiSdtDxe/AmlNamespace.c:71-114 | Returns the child with this name, creating it only when asked; the set of known paths grows by exactly that path. |
| `AmlNamespace.Namespace.FindNodeInTheTree` | QemuPkg/AcpiSdtDxe/AmlNamespace.c:127-202 | The walk (root prefix, parent prefixes saturating at the root, 1, 2 or n segments) reaches the node whose path is the resolved path, and finds one iff that path is known or may be created. |
| `AmlNamespace.Namespace.InsertNodeToTree` | QemuPkg/AcpiSdtDxe/AmlNamespace.c:216-275 | The tree refines a map from paths to objects: an insert records the buffer at the resolved path unless it is a Scope, and fails iff the path already has an object and the new one is no Scope. |
| `AmlNamespace.Namespace.SiblingsDistinct` | QemuPkg/AcpiSdtDxe/AmlNamespace.c:71-114 | In every reachable tree siblings have distinct NameSegs. |
| `AmlNamespace.Namespace.ParentLinksReachRoot` | QemuPkg/AcpiSdtDxe/AmlNamespace.c:150-166 | Parent links lead, one segment at a time, to the root, which is the only node without a parent. |
| `AmlWalk.GetObjectName` | QemuPkg/AcpiSdtDxe/AmlOption.c:341-386 | Counting down finds the last name option; for a table row in the namespace it exists. |
| `AmlWalk.ObjectNameAccepted` | QemuPkg/AcpiSdtDxe/AmlOption.c:341-386 | The name found in a parsed object is accepted by the name parser and starts and ends inside the object, so the assertions of the tree walk hold for it. |
| `AmlWalk.RecordFailsIff` | QemuPkg/AcpiSdtDxe/AmlNamespace.c:251-270 | Recording definitions in walk order fails exactly when two non-Scope definitions resolve to the same path. |
| `AmlWalk.RecordSound` | QemuPkg/AcpiSdtDxe/AmlNamespace.c:216-275 | When it does not fail, the map holds at each path the one non-Scope object defined there, and nothing else. |
| `AmlWalk.WalkInside` | QemuPkg/AcpiSdtDxe/AmlNamespace.c:379-417 | Every object that the walk visits lies inside the walked handle. |
| `AmlWalkComplete.ListIs` | QemuPkg/AcpiSdtDxe/AmlNamespace.c:325-366 | The walk of an object list is exactly the walks of its objects, in order, up to the first that fails or cannot be opened. |
| `AmlWalkComplete.WrittenChain` | QemuPkg/AcpiSdtDxe/AmlNamespace.c:325-366 | Objects written one after the other are the objects of the list, at the places and with the sizes they were written with. |
| `AmlWalkComplete.NestedIsDefined` | QemuPkg/AcpiSdtDxe/AmlNamespace.c:288-417 | The object at the end of any chain of nested scopes is visited, at the path that resolving each name in the scope around it gives. |
| `AmlWalkComplete.ScopesAreMarked` | QemuPkg/AcpiSdtDxe/AmlNamespace.c:240-262 | Only the objects that start with the scope opcode are left out of the map. |
| `AmlWalkComplete.WalkOkIff` | QemuPkg/AcpiSdtDxe/AmlNamespace.c:288-417 | The walk of an object fails exactly if it should have a name or an object list and that cannot be found. |
| `AmlWalk.ConstructNodeList` | QemuPkg/AcpiSdtDxe/AmlNamespace.c:379-417 | The mutually recursive tree build ends in the map that recording the walked definitions in order gives, with the same error, or in the assertion for a duplicate. |
| `AmlWalk.ConstructList` | QemuPkg/AcpiSdtDxe/AmlNamespace.c:325-366 | The loop over the child objects builds the same tree as the recursive walk of the list. |
| `AmlWalk.FindPath` | QemuPkg/AcpiSdtDxe/AmlNamespace.c:517-614 | Path search: when no path is defined twice, the answer is the unique walked non-Scope object whose resolved path is the requested one, or none; it lies inside the searched range. |
| `AmlWalkComplete.FindNested` | QemuPkg/AcpiSdtDxe/AmlNamespace.c:517-614 | Searching the path of the object at the end of a chain of nested scopes finds it, unless a path is defined twice or the walk fails. |
| `AmlWalk.FindPathFromRoot` | QemuPkg/AcpiSdtDxe/AcpiSdt.c:790-860 | The children of the table are searched in enumeration order and the first object found that can be opened is returned; if none is, every child was searched without a find. |
| `AmlWalk.SearchAsserts` | QemuPkg/AcpiSdtDxe/AmlNamespace.c:577-597 | A search from the root never trips the assertion of the walk; a search from a node does exactly for the empty path. |
| `AmlFound.EmptyPathAsserts` | QemuPkg/AcpiSdtDxe/AcpiSdt.c:728-755 | It happens: converting the empty text and searching the result from the handle of Name (AAAA, Zero) ends in the assertion. |
| `AmlFound.WalkMeasured` | QemuPkg/AcpiSdtDxe/AmlNamespace.c:288-417 | Every object that the walk visits lies inside the walked one and measures, in its own bytes, what it did in the walk. |
| `AmlFound.FoundSize` | QemuPkg/AcpiSdtDxe/AcpiSdt.c:728-860 | The object found is opened again up to the end of the searched one: the handle has the size that the walk saw iff the object is whole or ends there, and is larger otherwise. |
| `AmlFound.FoundSizeInTable` | QemuPkg/AcpiSdtDxe/AcpiSdt.c:790-860 | So for every child that the search of a whole table goes through. |
| `AmlTruncated.FoundLarger` | QemuPkg/AcpiSdtDxe/AcpiSdt.c:790-860 | It happens: in a 19-byte scope the walk sees a name object of 6 bytes, cut off by an inner scope, and the search returns it with 7. |
| `AslName.GetAslNameStringSize` | QemuPkg/AcpiSdtDxe/AmlString.c:283-349 | The first pass accepts exactly the paths that split into at most 255 segments of one to four characters, and its total is the size of the converted name. |
| `AslName.NameFromAslName` | QemuPkg/AcpiSdtDxe/AmlString.c:385-458 | The two passes agree: the second fills the buffer of the first exactly, with the specified conversion, or both reject the path. |
| `AslPath.SegLengthIs` | QemuPkg/AcpiSdtDxe/AmlString.c:228-270 | A segment is found exactly if letters, digits and underscores fill it up to the next dot or the end: at most four, or three if the first is a digit. |
| `AslPath.CaseDoesNotMatter` | QemuPkg/AcpiSdtDxe/AmlString.c:359-458 | Writing small letters of a path as capitals does not change the name that it converts to. |
| `AslName.CopySegs` | QemuPkg/AcpiSdtDxe/AmlString.c:430-452 | The copying loop appends every segment, in upper case and padded with underscores, and writes nothing past them. |
| `AslRoundTrip.PrintNameString` | QemuPkg/AcpiSdtDxe/AmlString.c:495-552 | Printing walks the same prefix and segments as the name parser and drops trailing underscores. |
| `AslPath.TrimShortest` | QemuPkg/AcpiSdtDxe/AmlString.c:466-487 | The printed segment is the shortest text that pads back to the segment. |
| `AslRoundTrip.CanonSize` | QemuPkg/AcpiSdtDxe/AmlString.c:109-178 | The size of an encoded canonical name is all its bytes but the final NUL (2 for the bare root). |
| `AslPath.NameInMemory` | QemuPkg/AcpiSdtDxe/AmlString.c:109-178 | Among any other bytes too, and the name denotes its segments behind the root or the parents of its prefix. |
| `AslPath.PathResolves` | QemuPkg/AcpiSdtDxe/AmlNamespace.c:127-202 | So a converted path denotes its padded segments behind the root or the parents that it starts with. |
| `AslRoundTrip.RoundTrip` | QemuPkg/AcpiSdtDxe/AmlString.c:385-552 | Converting the printed form of any canonical name (the root, or 1 to 255 segments behind a minimal prefix) gives the name back. |
| `AslRoundTrip.ConvertedSize` | QemuPkg/AcpiSdtDxe/AmlString.c:283-458 | For every accepted path, the parser accepts the converted name iff it is the bare root or has segments that each start with a letter or underscore, and then measures total length minus one. |
| `AslRoundTrip.ConvertPrintedConvert` | QemuPkg/AcpiSdtDxe/AmlString.c:385-552 | For such paths, printing the converted name and converting it again changes nothing. |
| `SdtEdit.Session.PlatformChecksum` | QemuPkg/AcpiSdtDxe/AcpiSdt.c:52-86 | The running sum leaves the checksum byte that complements the sum of the rest, and no other byte changed. |
| `SdtEdit.Session.FindTableByBuffer` | QemuPkg/AcpiSdtDxe/AcpiSdt.c:98-126 | Finds a table that contains the address, or none when no table does. |
| `SdtEdit.Session.UpdateAmlChecksum` | QemuPkg/AcpiSdtDxe/AcpiSdt.c:138-162 | The table around the address sums to 0 afterwards, tables that did still do, and at most its checksum byte has changed. |
| `SdtEdit.RepairBalances` | QemuPkg/AcpiSdtDxe/AcpiSdt.c:138-162 | Repairing one of several disjoint tables balances it and disturbs no other. |
| `SdtEdit.Session.Open` | QemuPkg/AcpiSdtDxe/AcpiSdt.c:379-458 | For an address anywhere in a table, succeeds iff the bytes up to the end of the table parse as an object, and returns exactly that object; fails outside all tables. |
| `SdtEdit.Session.SetOption` | QemuPkg/AcpiSdtDxe/AcpiSdt.c:587-647 | Writes exactly the data over the located option, inside the handle unless option 0 is overwritten with more than the object, marks the handle, and fails without effect exactly when the option does not parse or is too small. A write in the table body of the handle keeps the edit invariant. |
| `SdtEdit.OpcodeEscapes` | QemuPkg/AcpiSdtDxe/AcpiSdt.c:587-647 | Of all accepted writes exactly one kind leaves its object: two bytes over the opcode of a one-byte object whose opcode byte has become the extension prefix. |
| `SdtEdit.OpcodeEscape` | QemuPkg/AcpiSdtDxe/AcpiSdt.c:587-647 | It happens for every one-byte object: two calls on its handle change the byte behind it. |
| `SdtEdit.ZeroOpEscape` | QemuPkg/AcpiSdtDxe/AcpiSdt.c:379-647 | For instance any ZeroOp in a table: it can be opened, and two writes through its handle change the byte behind it. |
| `SdtEdit.Session.Close` | QemuPkg/AcpiSdtDxe/AcpiSdt.c:470-504 | Closing a marked handle leaves the table around it with sum 0 and changes at most its checksum byte; it fails, and keeps the handle, iff no table is around it. Closing an unmarked handle changes no memory. |
| `SdtEdit.MarkKeepsRepairable` | QemuPkg/AcpiSdtDxe/AcpiSdt.c:587-647 | A write keeps the invariant that a table with a non-zero sum has an open marked handle into it. |
| `SdtEdit.CloseKeepsRepairable` | QemuPkg/AcpiSdtDxe/AcpiSdt.c:470-504 | So does a close, for every other table and every other handle. |
| `SdtEdit.Run` | QemuPkg/AcpiSdtDxe/AcpiSdt.c:354-776 | Over every run of open, duplicate, write and close calls, whenever no handle is open every table sums to 0 modulo 256. The only writes excluded are opcodes written past the end of a table. |
| `Wrap.WrapSlotIff` | QemuPkg/VirtioNetDxe/SnpTransmit.c:170-174 | The slot of a wrapped 16-bit index is the slot of the unbounded counter for all counters iff the queue size divides 2^16. |
| `Wrap.WrapCompare` | QemuPkg/VirtioNetDxe/SnpGetStatus.c:99-135 | Wrapped indices differ exactly when the counters do, as long as these are less than 2^16 apart. |
| `SplitRing.SlotFree` | QemuPkg/VirtioNetDxe/SnpTransmit.c:170-174 | The next available or used slot to be written holds no entry that the other side has not consumed. |
| `SplitRing.IndicesExact` | QemuPkg/VirtioNetDxe/SnpGetStatus.c:99-135 | "LastUsed != Used.Idx" holds exactly when unread completions exist, and the comparison on the side of the device is as exact. |
| `SplitRing.NextUsedIs` | QemuPkg/VirtioNetDxe/SnpGetStatus.c:131-147 | The used entry read next is the oldest completion not yet read, and its head is in flight. |
| `SplitRing.PublishInv` | QemuPkg/VirtioNetDxe/SnpTransmit.c:162-177 | Publishing a head that is not in flight keeps the ring invariant. |
| `SplitRing.ConsumeInv` | QemuPkg/VirtioNetDxe/SnpGetStatus.c:131-150 | Consuming a used entry keeps it, and its head is no longer in flight. |
| `SplitRing.CompleteInv` | QemuPkg/VirtioNetDxe/SnpGetStatus.c:99-135 | The device may complete any head it holds, in any order, and keeps it. |
| `VirtioTx.InitialInv` | QemuPkg/VirtioNetDxe/SnpInitialize.c:164-243 | The state after initialization satisfies the transmit invariant. |
| `VirtioTx.PublishInv` | QemuPkg/VirtioNetDxe/SnpTransmit.c:107-177 | Transmit keeps the invariant. |
| `VirtioTx.ReapInv` | QemuPkg/VirtioNetDxe/SnpGetStatus.c:120-167 | The reverse lookup never fails in a reachable state; reaping hands back the buffer of the oldest unread completion and keeps the invariant. |
| `VirtioTx.Ownership` | QemuPkg/VirtioNetDxe/SnpTransmit.c:107-177 | In every interleaving of Transmit, GetStatus and device steps, free heads and heads in flight are disjoint, free heads do not repeat, together they are exactly {0, 2, .., 2*TxMaxPending-2}, and the keys of TxBufCollection are exactly the addresses in the second descriptors of the heads in flight. |
| `VirtioTx.HandedBackOnce` | QemuPkg/VirtioNetDxe/SnpGetStatus.c:120-167 | In every interleaving the i-th buffer that the reverse lookup returned is the one of the i-th completion and no publication completes twice; completed and reaped is handed back exactly once. |
| `VirtioTx.DeviceReadsPacket` | QemuPkg/VirtioNetDxe/SnpTransmit.c:159-177 | In every interleaving a device that follows a head in flight reads the shared request header and then exactly the packet of the queued request published there: its device address and its length. |
| `VirtioTx.QueuesIff` | QemuPkg/VirtioNetDxe/SnpTransmit.c:87-157 | A packet is queued exactly if its length is within the media header and the largest packet, a head is free, the requested header is complete and the buffer can be mapped; the other checks answer as stated. |
| `VirtioTx.UnmapsOnlyDone` | QemuPkg/VirtioNetDxe/SnpGetStatus.c:131-165 | In every interleaving the chain that GetStatus reclaims was taken by the device and is no longer held by it, and no other chain in flight lends its device address, so unmapping it takes nothing from the device. |
| `VirtioTx.WrapRefines` | QemuPkg/VirtioNetDxe/SnpTransmit.c:170-174 | Over runs of any length the wrapped indices refine unbounded counters. |
| `VirtioTx.RunLayout` | QemuPkg/VirtioNetDxe/SnpInitialize.c:183-209 | Over any run nothing but the address and length of second descriptors changes. |
| `VirtioTx.TransmitErrorQueues` | QemuPkg/VirtioNetDxe/SnpTransmit.c:176-182 | Transmit returns an error and yet keeps the buffer exactly when only the notification fails. |
| `VirtioTxDevice.Queue.constructor` | QemuPkg/VirtioNetDxe/SnpInitialize.c:154-284 | Over a zeroed ring the loop lays out the initial state: TxFreeStack, descriptor chains, empty collection. |
| `VirtioTxDevice.Queue.Transmit` | QemuPkg/VirtioNetDxe/SnpTransmit.c:87-177 | The in-place updates of stack, descriptors, ring and collection are the transmit step, with the status of each check in the order of the code; the media header is filled into the packet of the caller exactly when the checks pass and it was asked for. |
| `VirtioTx.FramedIsRead` | QemuPkg/VirtioNetDxe/SnpTransmit.c:112-143 | A packet with a filled-in header has the requested destination, source (or the address of the device) and protocol, and its payload is unchanged. |
| `VirtioNet.MediaRoundTrip` | QemuPkg/VirtioNetDxe/SnpReceive.c:145-160 | The header fields that Receive reads from a packet are those that Transmit put into it. |
| `VirtioNet.MediaOnWire` | QemuPkg/VirtioNetDxe/SnpTransmit.c:128-140 | On the wire the destination comes first, then the source, then the protocol, high byte first. |
| `VirtioNet.BytesRoundTrip` | QemuPkg/VirtioNetDxe/SnpReceive.c:145-160 | And they determine all 14 bytes of the header. |
| `VirtioNet.FillMedia` | QemuPkg/VirtioNetDxe/SnpTransmit.c:117-142 | Moving through the buffer writes both addresses and the protocol, high byte first, and nothing behind them. |
| `VirtioTxDevice.Queue.ReapOne` | QemuPkg/VirtioNetDxe/SnpGetStatus.c:120-167 | The in-place reclaim is the reap step and returns the right buffer; its assertions hold. |
| `VirtioTxDevice.Queue.GetStatus` | QemuPkg/VirtioNetDxe/SnpGetStatus.c:84-167 | Reports a transmit interrupt iff a completion is unread, updates the link state, reaps at most one buffer and only when asked, and changes nothing when the link status cannot be read. |
| `VirtioTxDevice.Queue.Run` | QemuPkg/VirtioNetDxe/SnpGetStatus.c:120-167 | Any interleaving executed on the arrays is the run of the snapshots, and the buffers that its calls return are the ones that run records, so the theorems above hold of the arrays. |
| `VirtioRx.DescriptorsTile` | QemuPkg/VirtioNetDxe/SnpInitialize.c:339-379 | The descriptor ranges built at initialization tile the buffer from RxBufDeviceBase over RxAlwaysPending slices, without gap or overlap. |
| `VirtioRx.SlicesApart` | QemuPkg/VirtioNetDxe/SnpInitialize.c:339-379 | The slices of two chains are disjoint. |
| `VirtioRx.ReceiveIs` | QemuPkg/VirtioNetDxe/SnpReceive.c:100-179 | Receive returns the oldest unread packet without its header, or its size when the buffer of the caller is too small, and then nothing changes; an empty ring gives NotReady. |
| `VirtioRx.DeliverInv` | QemuPkg/VirtioNetDxe/SnpReceive.c:104-140 | The device writing one packet disturbs no other unread packet. |
| `VirtioRx.Conservation` | QemuPkg/VirtioNetDxe/SnpReceive.c:104-176 | In every interleaving each chain is in exactly one of: available, held by the device, used and unread; the total is always RxAlwaysPending. |
| `VirtioRx.ReadInOrder` | QemuPkg/VirtioNetDxe/SnpReceive.c:104-176 | In every interleaving the packets read are exactly those delivered, once each, in the order of the device, without their headers. |
| `VirtioRxDevice.Queue.constructor` | QemuPkg/VirtioNetDxe/SnpInitialize.c:311-427 | The loop over descriptors and available ring builds the initial state. |
| `VirtioRxDevice.Queue.Receive` | QemuPkg/VirtioNetDxe/SnpReceive.c:100-184 | The in-place receive is the receive step: same result, same re-publication, and the media header fields of the packet. |
| `VirtioRxDevice.Queue.Run` | QemuPkg/VirtioNetDxe/SnpReceive.c:100-184 | Any interleaving executed on the arrays is the run of the snapshots, and the packets that its calls hand out are the ones that run records as read, without those too short for a header. |
| `VirtioLifecycle.Device.SetStatus` | QemuPkg/VirtioNetDxe/SnpInitialize.c:511-596 | A failed status write has no effect; DRIVER_OK is only set while nothing is reachable. |
| `VirtioLifecycle.Device.Release` | QemuPkg/VirtioNetDxe/SnpSharedHelpers.c:41-104 | Nothing is unmapped or freed that the device can still follow from a published, unused entry, and no ring while the driver is running. |
| `VirtioLifecycle.Device.Unwind` | QemuPkg/VirtioNetDxe/SnpInitialize.c:622-654 | From whichever rung a failure enters, the ladder releases exactly what is held and leaves the device reset. |
| `VirtioLifecycle.Device.Initialize` | QemuPkg/VirtioNetDxe/SnpInitialize.c:489-654 | Either everything is set up or nothing is left behind, for every combination of failing services; it succeeds when none fails. |
| `VirtioLifecycle.Device.Shutdown` | QemuPkg/VirtioNetDxe/SnpShutdown.c:31-72 | The device is reset before anything is released, and nothing remains held. |
| `VirtioLifecycle.Device.ShutdownTx` | QemuPkg/VirtioNetDxe/SnpSharedHelpers.c:55-84 | Unmaps every buffer still in the collection. |
| `VirtioLifecycle.Run` | QemuPkg/VirtioNetDxe/SnpShutdown.c:60-66 | Over every run of Start, Stop, Initialize, Shutdown and traffic, Stopped and Started imply device status 0 and nothing held; Initialized implies exactly the status bits of a device in use, the rings, the buffers and one mapping per pending packet. |
| `LoaderScript.KeyIsPrefix` | QemuPkg/AcpiPlatformDxe/QemuFwCfgAcpi.c:53-66 | File names compare as NUL-terminated strings: only the bytes before the first NUL matter. |
| `LoaderScript.LeToLe` | QemuPkg/AcpiPlatformDxe/QemuFwCfgAcpi.c:497-528 | A pointer value that fits its field is read back from it. |
| `LoaderScript.EntriesOfPacked` | QemuPkg/Include/IndustryStandard/QemuLoader.h:37-103 | Decoding a script packed in the documented 128-byte entries gives the script back. |
| `LoaderFirstPass.OwnedNext` | QemuPkg/AcpiPlatformDxe/QemuFwCfgAcpi.c:317-427 | Every command keeps: blobs own pairwise disjoint page ranges, disjoint from what was allocated before, and nothing else is allocated. |
| `LoaderFirstPass.RelocatedIs` | QemuPkg/AcpiPlatformDxe/QemuFwCfgAcpi.c:497-528 | ADD_POINTER makes the field read the base of the pointee plus the old offset, which lies inside the pointee; no other byte changes. |
| `LoaderFirstPass.ChecksumZeroes` | QemuPkg/AcpiPlatformDxe/QemuFwCfgAcpi.c:595-598 | ADD_CHECKSUM over a range holding a zero result byte makes the range sum to 0. |
| `LoaderDownload.ChecksumCompletes` | QemuPkg/AcpiPlatformDxe/QemuFwCfgAcpi.c:595-598 | Wherever its result byte lies, ADD_CHECKSUM makes it complete the old sum of the range to 0. |
| `LoaderDownload.BlobsAreFiles` | QemuPkg/AcpiPlatformDxe/QemuFwCfgAcpi.c:402-405 | After every prefix that succeeds each blob holds the file that its ALLOCATE downloaded, in every byte that no ADD_POINTER field or ADD_CHECKSUM result of the prefix covers. |
| `LoaderDownload.BlobsAreInitialFiles` | QemuPkg/AcpiPlatformDxe/QemuFwCfgAcpi.c:402-405 | That is the file as it was at the start, where no earlier WRITE_POINTER covers the byte. |
| `LoaderFirstPass.SentIs` | QemuPkg/AcpiPlatformDxe/QemuFwCfgAcpi.c:706-728 | WRITE_POINTER leaves the address of the pointee plus the offset in the file of the host. |
| `LoaderFirstPass.AimsNext` | QemuPkg/AcpiPlatformDxe/QemuFwCfgAcpi.c:482-529 | With no later write over a relocated field, every executed ADD_POINTER keeps pointing into its pointee. |
| `LoaderFirstPass.FirstPassEstablishes` | QemuPkg/AcpiPlatformDxe/QemuFwCfgAcpi.c:1161-1212 | For every script, every answer of the services and every prefix that succeeds: ownership, placement below 4 GiB, all lookups and bounds that the second pass does not repeat, the flags, the bytes of the host, and the aim of every field when no write overlaps. |
| `LoaderFirstPass.PrescanSuffices` | QemuPkg/AcpiPlatformDxe/QemuFwCfgAcpi.c:225-271 | The only ADD_POINTER that can be rejected as unrepresentable is a 1- or 2-byte one, whatever ran before it. |
| `LoaderAccept.RestrictedIff` | QemuPkg/AcpiPlatformDxe/QemuFwCfgAcpi.c:225-271 | A blob is restricted exactly if some ADD_POINTER narrower than 8 bytes points into it. |
| `LoaderAccept.AllocateIff` | QemuPkg/AcpiPlatformDxe/QemuFwCfgAcpi.c:334-401 | ALLOCATE succeeds exactly for a terminated name of a file not yet downloaded, an alignment of at most a page and whole pages apart from all others, below 4 GiB only if the blob is restricted. |
| `LoaderAccept.PointerIff` | QemuPkg/AcpiPlatformDxe/QemuFwCfgAcpi.c:461-527 | ADD_POINTER succeeds exactly for a field of 1, 2, 4 or 8 bytes inside a known blob whose offset lies in the other and whose sum fits. |
| `LoaderAccept.ChecksumIff` | QemuPkg/AcpiPlatformDxe/QemuFwCfgAcpi.c:572-594 | ADD_CHECKSUM succeeds exactly for a range and a result inside a known blob. |
| `LoaderAccept.WriteIff` | QemuPkg/AcpiPlatformDxe/QemuFwCfgAcpi.c:654-717 | WRITE_POINTER succeeds exactly for a field inside a file of the host and an offset inside a known blob, with a sum that fits. |
| `LoaderSecondPass.Recognise` | QemuPkg/AcpiPlatformDxe/QemuFwCfgAcpi.c:923-984 | What is recognised as a table fits its blob; a table other than a FACS sums to 0. |
| `LoaderTables.RecogniseIff` | QemuPkg/AcpiPlatformDxe/QemuFwCfgAcpi.c:923-984 | The kind recognised is exactly that of the bytes that the length field delimits: FACS by signature and length, any other table by length and sum. |
| `LoaderTables.RecogniseElse` | QemuPkg/AcpiPlatformDxe/QemuFwCfgAcpi.c:923-996 | RSDT or XSDT is recognised exactly where one starts, and a place is opaque exactly if no table starts there. |
| `LoaderTables.TableIsRecognised` | QemuPkg/AcpiPlatformDxe/QemuFwCfgAcpi.c:923-984 | Every table among any other bytes is recognised with its own length. |
| `LoaderAccept.VisitIff` | QemuPkg/AcpiPlatformDxe/QemuFwCfgAcpi.c:898-1068 | A visit succeeds exactly if its target was seen before, or room is found and, for a table to install, fewer than 128 are installed and the protocol takes it. |
| `LoaderSecondPass.PatchIs` | QemuPkg/AcpiPlatformDxe/QemuFwCfgAcpi.c:1027-1047 | The AArch64 FADT patch changes two bytes, sets the PSCI bit and leaves the table summing to 0. |
| `LoaderSecondPass.SecondPassValid` | QemuPkg/AcpiPlatformDxe/QemuFwCfgAcpi.c:872-896 | At every visit both blob lookups succeed and the field lies inside its blob; if the fields were aimed and no patch hit one, both ASSERTs hold. |
| `LoaderSecondPass.FadtsSpareUndisturbed` | QemuPkg/AcpiPlatformDxe/QemuFwCfgAcpi.c:1027-1047 | On AArch64 no FADT patch hits a field still to be followed if no FADT that the first pass left lies 9 or 129 bytes before such a field; that can be tested between the passes. |
| `LoaderSecondPass.SeenAreTargets` | QemuPkg/AcpiPlatformDxe/QemuFwCfgAcpi.c:898-921 | In every run the seen pointers are exactly what the visits so far have read. |
| `LoaderSecondPass.FreshIsFirst` | QemuPkg/AcpiPlatformDxe/QemuFwCfgAcpi.c:898-921 | While no patch disturbs the fields, a visit is the first of its target iff no earlier ADD_POINTER was left with the same address by the first pass. |
| `LoaderSecondPass.InstallOrder` | QemuPkg/AcpiPlatformDxe/QemuFwCfgAcpi.c:923-1068 | In every run the installed tables are, in first-visit order, exactly the targets recognised as tables other than RSDT and XSDT, with the bytes found there. |
| `LoaderSecondPass.TablesAreGood` | QemuPkg/AcpiPlatformDxe/QemuFwCfgAcpi.c:990-1068 | No address is installed twice, at most 128 are, each table fits a blob, every one that is no FACS sums to 0 when installed, and on AArch64 an FADT advertises PSCI. |
| `LoaderSecondPass.Retention` | QemuPkg/AcpiPlatformDxe/QemuFwCfgAcpi.c:990-994 | In every run a flag is cleared exactly by a WRITE_POINTER pointee or by a first visit that finds something other than a table. |
| `LoaderSecondPass.TablesAreRegistered` | QemuPkg/AcpiPlatformDxe/QemuFwCfgAcpi.c:1051-1068 | The tables of the firmware are the old ones and, under new keys, copies of the installed ones. |
| `Loader.Firmware.CollectAllocationsRestrictedTo32Bit` | QemuPkg/AcpiPlatformDxe/QemuFwCfgAcpi.c:209-276 | Collects exactly the pointees of narrow ADD_POINTER commands, and fails exactly on a malformed name or a failed insertion. |
| `Loader.Firmware.ProcessCmdAllocate` | QemuPkg/AcpiPlatformDxe/QemuFwCfgAcpi.c:317-427 | Downloads the file into pages that meet the contract of AllocatePages, or fails with the first failing check and leaves no page behind. |
| `Loader.Firmware.ProcessCmdAddPointer` | QemuPkg/AcpiPlatformDxe/QemuFwCfgAcpi.c:450-542 | Relocates the field or fails without effect, with the error of the first failing check; its ASSERT holds. |
| `Loader.Firmware.ProcessCmdAddChecksum` | QemuPkg/AcpiPlatformDxe/QemuFwCfgAcpi.c:562-615 | Stores the checksum of the range or fails without effect. |
| `Loader.Firmware.ProcessCmdWritePointer` | QemuPkg/AcpiPlatformDxe/QemuFwCfgAcpi.c:642-742 | Writes the address to the file of the host and marks the pointee, or fails without effect; its ASSERT holds. |
| `Loader.Firmware.FirstPass` | QemuPkg/AcpiPlatformDxe/QemuFwCfgAcpi.c:1161-1212 | Stops at the first command that fails; all WRITE_POINTER commands executed so far lie before the recorded subset end. |
| `Loader.Firmware.Process2ndPassCmdAddPointer` | QemuPkg/AcpiPlatformDxe/QemuFwCfgAcpi.c:855-1073 | One visit, with the seen pointer taken back on every error and no blob moved. |
| `Loader.Firmware.SecondPass` | QemuPkg/AcpiPlatformDxe/QemuFwCfgAcpi.c:1229-1246 | The loop is the specified sequence of visits, up to the first that fails. |
| `Loader.Firmware.UninstallAcpiTables` | QemuPkg/AcpiPlatformDxe/QemuFwCfgAcpi.c:1248-1258 | Uninstalling the keys backwards restores the table set from before. |
| `Loader.Firmware.UndoWritePointers` | QemuPkg/AcpiPlatformDxe/QemuFwCfgAcpi.c:1279-1287 | Zeroes exactly the bytes that the WRITE_POINTER commands before the subset end cover. |
| `Loader.Firmware.ReleaseBlobs` | QemuPkg/AcpiPlatformDxe/QemuFwCfgAcpi.c:1294-1315 | Frees all blobs after a failure, and otherwise exactly those that host only tables. |
| `Loader.RevokedAll` | QemuPkg/AcpiPlatformDxe/QemuFwCfgAcpi.c:1168-1200 | Undoing up to the subset end undoes every WRITE_POINTER that succeeded and nothing else. |
| `Loader.FreedIs` | QemuPkg/AcpiPlatformDxe/QemuFwCfgAcpi.c:1294-1315 | Freeing all blobs restores the allocations from before the run; freeing some leaves the others. |
| `Loader.Firmware.InstallQemuFwCfgTables` | QemuPkg/AcpiPlatformDxe/QemuFwCfgAcpi.c:1099-1326 | Failure atomicity for every script and every failing step: on an error no page and no table of the run remains, every fw_cfg byte covered by a successful WRITE_POINTER is zero, all others are unchanged. It succeeds if and only if the pre-scan accepts the script and every command succeeds in both passes, and stops in an ASSERT if and only if the second pass gets stuck. |
| `LoaderRuns.UndisturbedHaltsIff` | QemuPkg/AcpiPlatformDxe/QemuFwCfgAcpi.c:881-896 | When no patch disturbs the fields, an ASSERT of the second pass fails exactly if some field that it gets to was left by the first pass pointing outside its pointee. |
| `LoaderRuns.HaltsIff` | QemuPkg/AcpiPlatformDxe/QemuFwCfgAcpi.c:881-896 | The same under a condition that is void except on AArch64, and there a test on the tracker between the passes. |
| `LoaderRuns.NeverHalts` | QemuPkg/AcpiPlatformDxe/QemuFwCfgAcpi.c:881-896 | That never is so when no write overlaps a relocated pointer field. |
| `LoaderRuns.ClearNeverHalts` | QemuPkg/AcpiPlatformDxe/QemuFwCfgAcpi.c:881-896 | The condition is on the script alone, no command writes into the field of an earlier ADD_POINTER, and on AArch64 also the test between the passes. |
| `LoaderRuns.OverlapHalts` | QemuPkg/AcpiPlatformDxe/QemuFwCfgAcpi.c:881-896 | Without the condition an ASSERT can fail: a three-command script, stored in the files as the host packs it, passes the first pass and gets stuck in the second, because a checksum overwrites a relocated field. |
| `LoaderRuns.OverlapAsserts` | QemuPkg/AcpiPlatformDxe/QemuFwCfgAcpi.c:1099-1326 | The installation on these files, with services that never fail, ends in the ASSERT. |
| `LoaderRuns.Retained` | QemuPkg/AcpiPlatformDxe/QemuFwCfgAcpi.c:1294-1315 | After any success the pages of a blob survive iff it was a WRITE_POINTER pointee or some target in it was not a table when first visited. |
| `LoaderRuns.HostAddressesSurvive` | QemuPkg/AcpiPlatformDxe/QemuFwCfgAcpi.c:723-728 | After success every destination that no later WRITE_POINTER overwrites holds an address inside surviving memory. |
| `LoaderRuns.InstalledTables` | QemuPkg/AcpiPlatformDxe/QemuFwCfgAcpi.c:1231-1246 | After any success the firmware has the old tables and copies of the selected ones: at most 128, no address twice, in first-visit order, each holding the bytes at its address when it was visited (with the FADT patch), each in good order. |
| `LoaderTables.EveryTableIsInstalled` | QemuPkg/AcpiPlatformDxe/QemuFwCfgAcpi.c:923-1068 | After any success every table other than RSDT and XSDT that a first visit finds is installed, with its length and, but for an FADT on AArch64, byte for byte. |

## Left out

- Reads outside the modelled memory yield 0 instead of faulting, and strings without a terminator end with the memory; the length limit of AsciiStrSize is not modelled.
- The formats AML_NONE and AML_OPCODE: no row of the table uses the second, and the first only pads rows.
- Pool allocation failures, handle leaks on early exits, and GetOption's data type mapping in the AML driver.
- SdtEdit.Run: does not call GetChild or the path search, which only open further handles; objects are opened in table bodies, not in headers, and an opcode is not written past the end of a table (`SdtEdit.Session.Open` and `SdtEdit.Session.SetOption` themselves do not exclude either).
- SdtEdit.Session.SetOption: requires that the bytes written are part of the modelled memory.
- The dispatch in the protocol function FindPath, which converts the path and picks the search from the root or from the handle; both searches and the conversion are modelled.
- VirtioTx.HandedBackOnce: assumes, as the code does, that simultaneously mapped buffers have distinct device addresses; the collection refuses a second one.
- Packet statistics, receive filters, multicast hashing, station address, NVRAM access.
- Driver binding, ExitBootServices, TPL raising, memory fences (every driver call is atomic between device steps) and debug output.
- The virtio transports (Virtio10, PCI): a register access is a service call that may fail; a failed status write has no effect and a reset always succeeds.
- VirtioLifecycle.Device.Transmit: identifies a packet with its device address; which chain carries it is the subject of `VirtioTx`.
- LoaderRuns.HaltsIff: on AArch64 says nothing about trackers in which an FADT lies 9 or 129 bytes before a pointer field that is followed later; there the field is followed with the patched byte in it.
- The range check of NumInstalled, which its caller always meets, and the PCI decoding switched on around the download.
- ReleaseAllocationsRestrictedTo32Bit, and pool memory in general: only pages, tables and fw_cfg bytes are tracked.
- CloudHvAcpi, video, block, SCSI, RNG, SATA and hot-plug drivers, the initrd shell command, and the build scripts: little state, or hardware and shell plumbing.
