# Sneller: a model of its storage format and algorithms

Sneller stores rows as blocks of binary Ion. This project models the part of it that turns rows
into blocks and back, and several of the algorithms around it, and proves what they are for.

**The block writer** (`Ion*.dfy`, `SymtabHeap.dfy`). Values are trees (`IonTree`) with a byte
encoding, and have a *meaning* relative to a symbol table (`IonValue`): the same value with every
symbol replaced by its string. `IonBuffer` is the in-place encoder that sorts struct fields as they
are written; `IonSymtab` and `SymtabHeap` are the symbol table, on values and on shared arrays;
`IonMarshal` writes and reads tables; `IonResym` and `IonCompress` rewrite values for another table,
`IonStrtab` counts the strings worth a symbol, and `IonGrowth` and `IonSavings` say what that does to
the size of rows and blocks; `IonRanges` tracks timestamp ranges; `IonBlock` and `IonChunker` are the `Chunker` with its
bookkeeping of offsets and symbol numbers; `IonIngest` and `IonWrite` run whole streams through it,
and `IonLimits` holds the inputs at which a promise about blocks fails. The main
theorem is conservation: whatever the chunker does to symbols, offsets, padding and compression,
a reader of the blocks gets back exactly the rows that were written, in order
(`Chunker.Commit`, `Chunker.Flush`, `ReadFrom`, `Write`), and the reported ranges are exact.

The `Chunker` keeps its byte-level state in a record `Block` and, as ghost state, a record `Shadow`
of what those bytes stand for: the items already written, the table at the front of the block and
the rows in it. `BlockOk` relates the two. `Chunker.Rows()` is everything written so far, flushed
or not; `Chunker.Times()` the timestamps of its rows. `Live` is what holds at every point, `Valid`
what holds between calls.

**Dates** (`Calendar`, `DateTime`, `FastDate`, `PackedTime`, `Rfc3339`). The closed-form
conversion of days to dates agrees with the month-by-month walk for every day count; packing keeps
the order of time; printing and parsing are inverse.

**Directory walks** (`PathOrder`, `TreeWalk`). The walk that starts at a seek path and prunes by
pattern visits what the filtered full walk visits.

**Approximate matching** (`Fuzzy`). The greedy distance is the cost of a real edit script, and the
generated table decides as the code does.

**The queue runner** (`QueueRunner`). A state machine whose atomic steps are those of the main loop,
the batch goroutine, the table goroutines and background scans; its theorem is about all interleavings.

**Splitting NDJSON** (`Ndjson`) and **integer intervals** (`Intervals`).

Where the code does not do what one might expect of it, a lemma says exactly when it does:

- `Symtab.MarshalPart` with a start of 10 writes nothing, so a reader without symbols of its own
  cannot be brought up to date that way (`MarshalPartRecoversIff`, `ExtensionMissing`). This is why
  rows need a label of their own (`HasOwnLabel`). With nothing new to tell, it writes an empty table
  of nine bytes although its comment promises none (`MarshalPartAsPromisedIff`, `EmptyExtension`).
- Compression can lengthen a row (`EmptyStringsDouble`), exactly where the symbol is longer than
  its text (`TextGrows`). `Outgrows` is the exact condition under which a successful `Commit` leaves
  `lastoff` beyond the block, and exactly then the next `Commit` of a row no larger than a block
  panics; `PanickingRun` is a run from a new chunker that does. It does not happen to rows whose
  strings are no shorter than their symbols (`Roomy`).
- `Chunker.Flush` compresses the last block and may thereby overflow it, which panics: exactly under
  `Overflows`, for instance at `FullBlock`, and never while there is room for the symbols not yet
  sent and 44 bytes (`HasSlack`).
- `Symtab.CloneInto` from a table never used to another never used loses the system symbols
  (`CloneIntoSpec` says exactly when).
- `Chunker.Write` takes what follows a table for a value. An extension directly behind a table is
  skipped like padding, a fresh table there or the end of the input is an error. `Heard` is a stream
  as `Write` hears it, and the rows of it are what is added. They are the rows a reader finds exactly
  if none is misread (`HeardRowsIff`); `SecondTableLost` and `FieldRenamed` are inputs at which they
  differ. What a chunker has written is heard the way it is read, as the comment of `Write` promises,
  unless a block was filled by its table alone (`Relay`).
- `AddMonth` composes up to the 28th, `DateDiffMonth` is the largest fitting number of months up to
  the 29th; beyond, both laws fail for every timestamp.
- A walk with a seek of `"."` misses entries that sort before `"."` (`NothingLostIff`), and never
  visits the root itself.
- A leap second is recorded exactly if something acceptable follows it (`LeapSecond`); at the very
  end of the input it is read as second 0 (`LeapSecondAtEnd`).
- U+10FFFF compares equal to the end of a text, so that the distance is zero exactly for equal texts
  and for a text against itself with only U+10FFFF behind it (`WholeDistance`, `EndIsMistaken`).
- `Run` defers `stopScans` on the tables known when it starts, which are none: scans survive it
  (`ScansSurvive`). An item is finalised as OK exactly if no table that listed it failed
  (`ProcessedIff`); a filter that fails earlier is not noticed (`FilterErrorIsLost`).
- `Split` reads the whole first window even where `size` is smaller, and hands out the lines in it:
  `size` is respected exactly if it is at least a window or no newline lies behind it in the window.
- Two lists of intervals with the same integers have the same normal form exactly if their empty
  intervals reach the same points (`NormalIff`, `EmptyIntervalStays`).
- The comment of `Intervals.Compress` promises non-overlapping intervals; the code also joins
  intervals that touch, and that is what is proved.

## Model

| member | source | states |
|---|---|---|
| `IonCodec.UvsizeIsLength` | ion/writer.go:133-139 | the bit-length formula of Uvsize is the number of seven-bit digits, for every value |
| `IonCodec.PutUv` | ion/writer.go:267-284 | putuv fills exactly Uvsize bytes with the digits, most significant first, the last one marked |
| `IonCodec.ScanUv` | ion/unmarshal.go:606-621 | the loop of readuv computes the value and length of the varint, or fails after eight unmarked bytes |
| `IonCodec.UvRoundTrip` | ion/unmarshal.go:606-621 | every value below 2^56 is read back from its varint whatever follows, and the digits used are exactly those written |
| `IonCodec.UvAtMost8` | ion/writer.go:267-284 | values below 2^56 need at most the eight bytes readers look at |
| `IonCodec.ComputeSizeOf` | ion/unmarshal.go:112-147 | SizeOf as a loop agrees with its definition by cases, including -1 for an unterminated length |
| `IonCodec.ComputeContents` | ion/unmarshal.go:200-233 | Contents as a loop agrees with its definition by cases, including the cut-off message |
| `IonCodec.TlvFraming` | ion/unmarshal.go:200-233 | SizeOf and Contents agree on where every framed object below 2^56 bytes ends, whatever follows |
| `IonCodec.MagRoundTrip` | ion/unmarshal.go:404-413 | readmag undoes the big-endian magnitude |
| `IonCodec.ScanMag` | ion/unmarshal.go:404-413 | the accumulator loop of readmag computes the big-endian value |
| `IonScalars.WriteMag` | ion/writer.go:358-370 | the byte-reversed, shifted word of writeint is the shortest big-endian magnitude with its tag |
| `IonScalars.IntRoundTrip` | ion/unmarshal.go:415-441 | every int64 is read back by ReadInt with the rest untouched |
| `IonScalars.UintRoundTrip` | ion/unmarshal.go:444-456 | every uint64 is read back by ReadUint with the rest untouched |
| `IonScalars.SymbolRoundTrip` | ion/unmarshal.go:512-525 | every 32-bit symbol is read back by ReadSymbol with the rest untouched |
| `IonScalars.ReversedMagnitude` | ion/writer.go:358-370 | reversing the bytes of the word and shifting out the zeros gives the shortest magnitude, for every uint64 |
| `IonTime.TimeRoundTrip` | ion/unmarshal.go:706-762 | every packable time is read back from what WriteTime put out, truncated to microseconds, with the rest untouched |
| `IonTime.WriteTime` | ion/writer.go:443-475 | appends the timestamp as one value of the open container |
| `IonTime.TimeFraming` | ion/writer.go:443-475 | the timestamp bytes are one well-framed atom |
| `IonTree.DecEnc` | ion/unmarshal.go:200-233 | every well-formed value (sorted structs, sizes below 2^56) decodes to itself with the remainder untouched |
| `IonTree.EncFraming` | ion/unmarshal.go:112-147 | SizeOf of an encoded value is its length whatever follows, so values can be skipped |
| `IonValue.MeaningExtends` | ion/symtab.go:545-553 | a value means the same under every table that extends its own, and still resolves |
| `IonSymtab.SymbolizeSpec` | ion/symtab.go:120-130 | despite stale index entries a lookup succeeds exactly for strings in the table, with their own symbol |
| `IonSymtab.InternSpec` | ion/symtab.go:164-176 | Get(Intern(x)) = x; the table stays duplicate-free and grows by x only if x was not there |
| `IonSymtab.TruncateKeepsInv` | ion/symtab.go:66-76 | cutting the table leaves the index sound although its entries stay |
| `IonSymtab.ClearKeepsInv` | ion/symtab.go:349-361 | clearing keeps the index sound, with the entries above 1000 dropped |
| `IonSymtab.RunKeepsInv` | ion/symtab.go:41-76 | over any run of Intern, Truncate and Reset from a sound state the index stays sound and the table duplicate-free |
| `IonSymtab.InternsExtend` | ion/symtab.go:164-176 | interning only ever extends the table |
| `IonSymtab.TruncateRestores` | ion/symtab.go:66-76 | after any interning, Truncate to an earlier MaxID restores exactly that table, and every later lookup agrees with it |
| `IonSymtab.CloneIntoSpec` | ion/symtab.go:209-223 | the copy has the same strings; its index is sound if and only if the source had one or the target's own index was sound |
| `IonSymtab.CloneOfUninitialisedForgetsSystemSymbols` | ion/symtab.go:209-223 | copying a never-used table into a never-used table yields one that does not know the system symbols |
| `IonSymtab.LoadSpec` | ion/symtab.go:440-464 | loading strings that are not present yet appends them in order and keeps the index sound |
| `IonSymtab.InvIsDistinct` | ion/symtab.go:164-176 | a sound index implies a table without duplicates |
| `SymtabHeap.Store.Set` | ion/symtab.go:235-243 | an element is changed for this table only: other tables on the same array and all snapshots keep what they show |
| `SymtabHeap.Store.Append` | ion/symtab.go:225-233 | appends within or beyond the capacity, invisible to every other table and snapshot |
| `SymtabHeap.Store.Alias` | ion/symtab.go:558-564 | hands out the current strings as a snapshot that joins the protected ones |
| `SymtabHeap.Tab.Intern` | ion/symtab.go:164-176 | on the shared array does to the table exactly what Intern does to its value |
| `SymtabHeap.Tab.Truncate` | ion/symtab.go:66-76 | refines Truncate on values; the array is not touched |
| `SymtabHeap.Tab.Clear` | ion/symtab.go:349-361 | refines clear on values; the array is kept for reuse |
| `SymtabHeap.Tab.Load` | ion/symtab.go:440-464 | refines the symbol loop of Unmarshal on values |
| `SymtabHeap.Tab.CloneInto` | ion/symtab.go:209-223 | refines CloneInto on values although both tables then share one array |
| `SymtabHeap.Step` | ion/symtab.go:209-243 | any operation on any of several tables sharing arrays refines the operation on values; no snapshot changes |
| `SymtabHeap.Run` | ion/symtab.go:209-243 | after any sequence of operations every snapshot ever taken still shows what it showed, and the tables are what the value-level run gives |
| `SymtabHeap.Store.Reallocate` | ion/symtab.go:225-243 | moving to a new array keeps the strings and everything others see |
| `SymtabHeap.Store.Write` | ion/symtab.go:235-243 | a write above the aliased part is seen by nobody else |
| `SymtabHeap.Store.Share` | ion/symtab.go:209-223 | two tables on one array show the same strings, both protected |
| `SymtabHeap.Store.Attach` | ion/symtab.go:209-223 | a table can take over a snapshot without disturbing anyone |
| `SymtabHeap.Store.Reslice` | ion/symtab.go:66-76 | a table may be cut or regrown within its array unseen |
| `SymtabHeap.Tab.constructor` | ion/symtab.go:28-39 | a new table is the empty one |
| `SymtabHeap.Tab.Lookup` | ion/symtab.go:120-130 | refines the lookup on values |
| `SymtabHeap.Tab.EnsureIndex` | ion/symtab.go:41-47 | refines init on values |
| `SymtabHeap.Tab.LoadOne` | ion/symtab.go:450-463 | refines appending one symbol on values, unseen by other tables |
| `IonMarshal.Marshal` | ion/symtab.go:500-532 | marshal appends exactly the table bytes: marker if asked for, nothing at all for a part with nothing to skip |
| `IonMarshal.MarshalRecovers` | ion/symtab.go:382-477 | a table written with a version marker is recovered whatever the reader held before |
| `IonMarshal.MarshalPartRecovers` | ion/symtab.go:487-489 | a reader holding the first symbols recovers the whole table from MarshalPart |
| `IonMarshal.MarshalPartRecoversIff` | ion/symtab.go:500-514 | it does so exactly if the part starts above the system symbols or the table is empty: MarshalPart(10) writes nothing |
| `IonMarshal.WriteTable` | ion/symtab.go:515-531 | the annotation written is the encoding of the table tree |
| `IonMarshal.UnmarshalTree` | ion/symtab.go:382-477 | reading a table tree appends exactly its symbols and consumes exactly its bytes |
| `IonMarshal.MarshalPartSilentIff` | ion/symtab.go:504-514 | MarshalPart writes nothing exactly if it starts at or below 10 or the table is empty |
| `IonMarshal.MarshalPartAsPromisedIff` | ion/symtab.go:478-489 | it writes nothing exactly when there is nothing new, as its comment promises, exactly if the table is empty or the start lies strictly between 10 and MaxID |
| `IonBuffer.Buffer.Shift` | ion/writer.go:89-131 | the field just written moves to its place in label order; if the struct already has that label it is taken back, so the first one stays |
| `IonBuffer.PlaceField` | ion/writer.go:89-131 | the in-place byte move yields the encoding of the sorted field list |
| `IonBuffer.Buffer.BeginField` | ion/writer.go:290-303 | opens a field in the innermost struct or names the annotation; everything written before stays |
| `IonBuffer.Buffer.WriteInt` | ion/writer.go:347-356 | adds the integer as one value of the open container |
| `IonBuffer.Buffer.WriteUint` | ion/writer.go:378-381 | adds the unsigned integer as one value of the open container |
| `IonBuffer.Buffer.WriteSymbol` | ion/writer.go:372-375 | adds the symbol as one value of the open container |
| `IonBuffer.Buffer.WriteString` | ion/writer.go:333-344 | adds the string as one value of the open container, with short or long length |
| `IonBuffer.Buffer.UnsafeAppend` | ion/writer.go:592-598 | adds an already encoded value to the open container |
| `IonBuffer.Buffer.BeginStruct` | ion/writer.go:79-86 | opens a struct; nothing written before changes |
| `IonBuffer.Buffer.EndStruct` | ion/writer.go:184-192 | closes the innermost struct and adds it, with sorted fields and a right-sized header, to the container around it |
| `IonBuffer.Buffer.EndList` | ion/writer.go:213-221 | closes the innermost list and adds it to the container around it |
| `IonBuffer.Buffer.EndAnnotation` | ion/writer.go:240-251 | closes the annotation and adds it to the container around it |
| `IonBuffer.Term` | ion/writer.go:141-181 | the reserved length bytes are filled or squeezed out so that the header is the canonical one |
| `IonBuffer.Buffer.constructor` | ion/writer.go:49-57 | an empty buffer is valid |
| `IonBuffer.Buffer.Set` | ion/writer.go:63-66 | any bytes may be taken over as the content |
| `IonBuffer.Buffer.WriteNull` | ion/writer.go:316-320 | adds null as one value of the open container |
| `IonBuffer.Buffer.WriteBool` | ion/writer.go:306-314 | adds the boolean as one value of the open container |
| `IonBuffer.Buffer.BeginList` | ion/writer.go:198-206 | opens a list; nothing written before changes |
| `IonBuffer.Buffer.BeginAnnotation` | ion/writer.go:227-237 | opens an annotation; nothing written before changes |
| `IonBuffer.FindSlot` | ion/writer.go:89-131 | the scan over encoded siblings finds the byte offset of the first field not below the label, and whether it has that label |
| `IonBuffer.InsertKeepsOrder` | ion/writer.go:89-131 | inserting at that place keeps strictly increasing labels and the last field |
| `IonNormal.WriteTopLevel` | ion/writer.go:79-192 | any well-bracketed sequence of calls leaves the canonical encoding of the value with every struct sorted by label at every depth |
| `IonNormal.NormalIsWellFormed` | ion/writer.go:89-131 | what the buffer makes of any writable value is well-formed: strictly increasing labels in every struct, so it decodes to itself |
| `IonNormal.NormalKeepsFirst` | ion/writer.go:89-131 | sorting keeps, for every label, the value written first |
| `IonNormal.NormalNotLonger` | ion/writer.go:141-181 | sorting and dropping later duplicates never needs more bytes |
| `IonNormal.WriteValue` | ion/writer.go:79-192 | writing any value inside any open container adds its normal form |
| `IonRecode.RecodedGrows` | ion/datum.go:265-310 | a re-encoded value stays right when the destination table grows later |
| `IonRecode.RecodedStruct` | ion/datum.go:265-310 | a struct whose fields are re-encoded one by one, in another order, has the same meaning |
| `IonRecode.MeaningInsert` | ion/writer.go:89-131 | placing a field with a new name by its label adds exactly its entry to the meaning of the struct |
| `IonResym.Resymbolizer.GetSymbol` | ion/datum.go:220-235 | the symbol returned stands for the same string in the destination table; cached or not, the cache stays sound |
| `IonResym.Resymbolizer.Resym` | ion/datum.go:265-310 | the re-encoded value is sorted and well-formed, means the same under the destination table, and that table only grows, by strings of the source table |
| `IonResym.CacheFollows` | ion/chunker.go:579-588 | translations remembered stay right when the source table is extended |
| `IonResym.CacheForgets` | ion/datum.go:214-218 | after reset no translation is remembered, so none can be wrong |
| `IonResym.Resymbolizer.constructor` | ion/datum.go:206-212 | a new resymbolizer is sound |
| `IonResym.Resymbolizer.Reset` | ion/datum.go:214-218 | what is remembered afterwards is right for any two tables |
| `IonResym.CacheHit` | ion/datum.go:220-226 | a remembered translation is the symbol of the same string |
| `IonResym.CacheStored` | ion/datum.go:227-235 | remembering a right translation keeps the cache sound |
| `IonResym.CacheGrows` | ion/datum.go:220-235 | remembered translations stay right when the destination table grows |
| `IonStrtab.Strtab.Mark` | ion/compress.go:141-193 | the in-place update of the slots and of the symbols is exactly the counting rule Marked, whose consequences MarkedSpec and MarkedExact state |
| `IonStrtab.Strtab.constructor` | ion/compress.go:97-116 | an empty table: no slot is occupied and nothing counted |
| `IonStrtab.MarkedSpec` | ion/compress.go:141-193 | a string becomes a symbol only if it has three bytes or more and has been seen at least ten times; prepop counts exactly the hits; no slot counts more than there was |
| `IonStrtab.MarkedAllSpec` | ion/compress.go:198-219 | over a whole scan new symbols are frequent and distinct, prepop is positive whenever one was added, and the table grows by no more than the strings weigh |
| `IonStrtab.MarkedExact` | ion/compress.go:130-193 | where no two counted strings want the same slot, exactly the strings seen ten times become symbols, for every hash and every scan |
| `IonStrtab.MarkedKnown` | ion/compress.go:141-148 | strings that are short or symbols already change nothing but the count of hits |
| `IonStrtab.StringsWeighAll` | ion/compress.go:198-219 | the strings of rows are part of their bytes |
| `IonCompress.ScanItems` | ion/compress.go:198-219 | the byte-level scan of whole rows marks every string once, in order, at the position where its text starts |
| `IonCompress.CompressedMeans` | ion/compress.go:222-256 | for every value and every table that has since grown, the compressed value is well-formed and means the same |
| `IonCompress.CompressValue` | ion/compress.go:222-256 | writes exactly the compressed value of the datum at the front and returns what follows it |
| `IonCompress.ScanStrs` | ion/compress.go:198-219 | the same for the value at the front, and what follows it is returned |
| `IonCompress.CompressedIsWF` | ion/compress.go:222-256 | compressed values are well-formed, so the buffer accepts them |
| `IonCompress.CompressedNameIsNew` | ion/compress.go:222-256 | fields of a compressed struct keep pairwise different names |
| `IonCompress.ScanSpec` | ion/compress.go:38-49 | a scan of rows adds frequent strings only, no more bytes than the rows have, and finds nothing in no rows |
| `IonCompress.ScanExact` | ion/compress.go:38-49 | without collisions the symbols after a scan are exactly those before and the strings that occur ten times |
| `IonCompress.ScanKnown` | ion/compress.go:38-49 | where every string is known and one is a symbol, compression goes ahead with the table as it is |
| `IonGrowth.TextGrows` | ion/compress.go:243-250 | replacing a string by its symbol does not lengthen it if and only if the symbol's magnitude has no more bytes than the text |
| `IonGrowth.CompressedNotLonger` | ion/compress.go:222-256 | a value in which this holds for every string is not longer after compression |
| `IonGrowth.LongStringsAreRoomy` | ion/compress.go:141-144 | strings of three bytes or more and fewer than 2^24 symbols are enough |
| `IonGrowth.EmptyStringsDouble` | ion/compress.go:243-250 | where "" is a symbol, a list of n empty strings grows from n to 2n bytes: compression can lengthen a row |
| `IonGrowth.EmptyNameIsSymbol` | ion/symtab.go:164-176 | interning the empty string makes it a symbol: the condition of the growth example can arise |
| `IonGrowth.RoomyGrows` | ion/compress.go:141-144 | new symbols do not make a roomy value less so, as long as there are fewer than 2^24 |
| `IonSavings.TableGrowth` | ion/compress.go:141-193 | the symbols a scan adds take at most a tenth of what their strings took in the data |
| `IonSavings.Saves` | ion/compress.go:222-256 | a roomy value is shortened by at least what replacing its strings saves |
| `IonSavings.PaysForItself` | ion/compress.go:155-163 | with two-byte symbols, ten uses of a new symbol save at least its place in the table |
| `IonSavings.PaysForTable` | ion/compress.go:54-72 | compressed rows and the symbols added for them take no more room than the rows took before |
| `IonSavings.HeadLength` | ion/symtab.go:500-532 | a table takes at most 44 bytes beyond its strings |
| `IonSavings.SlackSuffices` | ion/compress.go:54-72 | if the rows, the symbols not yet sent and 44 bytes fit into a block, strings are no shorter than their symbols and symbols keep to two bytes, the compressed block fits, whatever the scan finds |
| `IonPad.WriteUVarint` | ion/write.go:22-36 | writes the varint digits in place and nothing else |
| `IonPad.NopPadding` | ion/write.go:70-95 | writes the header of one pad; header and payload stay within padsize |
| `IonPad.PadWithin` | ion/write.go:70-95 | for every size the chosen header and payload are not empty and do not exceed it |
| `IonPad.PadIsSkipped` | ion/write.go:70-95 | such a pad reads as padding that SizeOf steps over exactly, whatever its payload bytes are |
| `IonPad.Noppad` | ion/chunker.go:378-383 | fills any stretch below 2^56 bytes completely with pads that readers skip, in place |
| `IonRanges.Ranges.AddTime` | ion/ranges.go:36-50 | the value becomes the pending one of its path; other paths are untouched |
| `IonRanges.Ranges.Commit` | ion/ranges.go:54-61 | every pending value is folded into its range |
| `IonRanges.Ranges.Flush` | ion/ranges.go:63-74 | committed values are dropped and exactly the paths with a pending value survive |
| `IonRanges.CommitTracks` | ion/ranges.go:127-142 | folding keeps, for every path, exact and attained bounds and the number of rows that had it |
| `IonRanges.FlushTracks` | ion/ranges.go:63-74 | after a flush only the row still being written is tracked |
| `IonRanges.AddTracks` | ion/ranges.go:36-50 | the pending row is recorded under the path's names; a second timestamp on the same path replaces the first |
| `IonRanges.RenameTracks` | ion/resymbolize.go:28-38 | renaming every path to one with the same names under a new table changes nothing about what is tracked |
| `IonRanges.ReportAll` | ion/chunker.go:241-263 | exactly the paths present in at least a third of the rows are reported, each with bounds that are exact and attained |
| `IonRanges.Ranges.constructor` | ion/ranges.go:23-26 | no path is tracked at first |
| `IonRanges.Ranges.Rename` | ion/resymbolize.go:28-38 | every range is found under its new path and nothing else is there |
| `IonRanges.GrowTracks` | ion/ranges.go:36-50 | what is tracked stays right when the table grows |
| `IonRanges.CommitDescribes` | ion/ranges.go:127-142 | one range stays exact and attained when a row is folded in |
| `IonRanges.NewPathIsUnseen` | ion/ranges.go:36-50 | a path without an entry occurred in no row since the last flush |
| `IonRanges.NamesInjective` | ion/ranges.go:186-205 | in a duplicate-free table different paths have different names |
| `IonResymbolize.Resymbolize` | ion/resymbolize.go:20-39 | the last row and all ranges are carried over to a table of their own: same meaning, same ranges by name, no larger table |
| `IonResymbolize.SubtableSize` | ion/resymbolize.go:20-39 | distinct strings taken from a table need no more room than the table |
| `IonResymbolize.OwnLabelSurvives` | ion/resymbolize.go:20-39 | a row with a label that is not a system symbol still has one after re-encoding |
| `IonResymbolize.Transcode` | ion/ranges.go:186-195 | the translated path has the same names |
| `IonResymbolize.TranscodeAll` | ion/resymbolize.go:28-38 | every tracked path is translated once to one with the same names |
| `IonStream.ReadItems` | ion/unmarshal.go:940-981 | a reader of tables, rows and pads recovers every row in order and ends with the writer's table, whatever follows |
| `IonStream.BlockReads` | ion/chunker.go:298-332 | one block (table, rows, pads) brings the reader's table up to date and yields the meaning of its rows |
| `IonStream.ReadPads` | ion/unmarshal.go:940-981 | readers ignore padding wherever it stands |
| `IonStream.ReadRowBack` | ion/unmarshal.go:940-981 | a row read back has the meaning of the row written |
| `IonStream.ReadHead` | ion/symtab.go:382-477 | a reader passing a table continues with the table it describes |
| `IonStream.ReadAllItems` | ion/unmarshal.go:940-981 | a whole stream reads as the meaning of its rows and leaves the reader with its last table |
| `IonBlock.AdjustSyms` | ion/chunker.go:147-188 | succeeds exactly if the table is current or the block has room for a current one; rows, meaning and offsets stay right |
| `IonBlock.Compress` | ion/compress.go:28-95 | succeeds exactly if a string is worth a symbol and the last row still begins within the block, and then gives exactly the rewritten block, in which every row means what it meant; otherwise nothing has changed; panics exactly if lastoff exceeds the block |
| `IonBlock.CompressRows` | ion/compress.go:68-74 | all rows are rewritten in order and the start of the last one is reported |
| `IonBlock.NewHeadReads` | ion/chunker.go:162-172 | the table written for a reader at flushID brings exactly that reader to the whole table |
| `IonBlock.PadTo` | ion/chunker.go:190-201 | the block is exactly of the given size: the data, then pads |
| `IonBlock.WriteBlock` | ion/chunker.go:298-332 | the committed rows leave as one full block that reads as them; the rest stays behind; no row is lost or repeated |
| `IonBlock.BookkeepingOrder` | ion/chunker.go:147-156 | flushID <= tmpID <= MaxID and lastst <= lastcomp <= lastoff, so that the panics on symbol IDs and on lastcomp are unreachable; lastoff <= Align is not among them (TightOutgrows) |
| `IonBlock.MarshalHead` | ion/chunker.go:162-172 | the bytes put in front are the table for a reader at flushID |
| `IonBlock.RewriteBlock` | ion/compress.go:28-95 | the block written again is exactly a table for the grown symbols, the rows compressed before and the others compressed; new symbols are frequent |
| `IonBlock.TruncateBack` | ion/compress.go:73-84 | after a scan that was not worthwhile, Truncate restores exactly the table from before |
| `IonBlock.CarriedOver` | ion/chunker.go:344-363 | restarting a block with one re-encoded row stands for the same rows |
| `IonBlock.UncommittedRow` | ion/chunker.go:405-413 | what lies behind lastoff is exactly the row being committed |
| `IonBlock.RowAppended` | ion/chunker.go:35-51 | appending a row adds exactly its meaning and keeps the block invariant |
| `IonBlock.RewritingSpec` | ion/compress.go:28-72 | the rewritten block has rows, a sound table and frequent new symbols only |
| `IonBlock.BlockRelays` | ion/chunker.go:298-332 | a block with a row, padding or no table leaves no table directly in front of the next block |
| `IonBlock.WrittenRelays` | ion/chunker.go:298-332 | what can be read on stays so when a block is written, unless the block is nothing but a table |
| `IonChunker.Chunker.constructor` | ion/chunker.go:52-102 | an empty chunker satisfies the invariant and stands for no rows |
| `IonChunker.Chunker.FlushRanges` | ion/chunker.go:241-277 | the rows since the last range flush are reported exactly once; readers are made to start over; no row changes |
| `IonChunker.Chunker.ForceFlush` | ion/chunker.go:298-376 | exactly one block is written, all rows and timestamps are conserved, the row in progress starts the next block; ranges are reported exactly when RangeAlign is reached or at the end; panics, and leaves lastoff beyond the block, exactly under the stated conditions |
| `IonChunker.Chunker.CarryOver` | ion/chunker.go:344-354 | the row in progress continues under a table of its own with the same meaning and the same ranges |
| `IonChunker.Chunker.CompressOrFlush` | ion/chunker.go:279-290 | the row joins a compressed block or starts the next one; nothing is lost, reordered or changed in meaning; panics exactly if lastoff exceeds the block; leaves lastoff beyond the block exactly if Outgrows |
| `IonChunker.Chunker.Commit` | ion/chunker.go:405-426 | conserves all rows and timestamps and keeps the invariant; refuses exactly a row larger than a block; panics exactly if lastoff had outgrown the block and the row had not; lastoff outgrows the block exactly under Outgrows, a condition on the block before, never for a row that is roomy under the symbols before and fewer than 2^24 symbols; reports a block too small only for a lone row that does not fit with its table; a row that fits with its table changes nothing else; at most one block is written |
| `IonChunker.Chunker.Flush` | ion/chunker.go:437-454 | refuses exactly if uncommitted data exceed the block; panics exactly if the rows overflow the last block, a condition on the block before, and never with HasSlack; on success a reader of everything written recovers exactly the rows in order |
| `IonChunker.Chunker.Append` | ion/chunker.go:35-51 | a row written by the caller, with whatever names it interned, is the last one of the rows |
| `IonChunker.Chunker.AddTime` | ion/ranges.go:36-50 | a timestamp of the row being written is tracked under its path, the last one on a path counting |
| `IonChunker.Written` | ion/chunker.go:298-332 | once the buffer is empty the concatenated blocks read as exactly the rows |
| `IonChunker.Chunker.NextBlock` | ion/chunker.go:339-375 | the row in progress becomes the first of the next block, re-encoded under a table of its own where needed; otherwise it does not fit with any table |
| `IonChunker.Chunker.CountRow` | ion/chunker.go:423-424 | the timestamps of the row are committed |
| `IonChunker.Chunker.MarkCommitted` | ion/chunker.go:415-419 | everything written so far is committed and readable under the table in the block |
| `IonChunker.Chunker.TryCompress` | ion/chunker.go:279-290 | compressing changes no row in meaning, panics exactly if lastoff exceeds the block, succeeds exactly if Compresses and then gives exactly the rewritten block, and undoes its symbols otherwise |
| `IonChunker.Chunker.Join` | ion/chunker.go:415-419 | the row joins the block exactly if there is room for it and for the table it needs; nothing else changes; "bad bookkeeping" is unreachable |
| `IonChunker.Chunker.Emit` | ion/chunker.go:306-329 | one full block leaves with the committed rows, the rest stays; no row is lost; the output can be read on unless the block was filled by its table |
| `IonChunker.Chunker.LastBlock` | ion/chunker.go:450-453 | the last rows are written, compressed or not; panics exactly if they overflow |
| `IonChunker.StaysRoomy` | ion/compress.go:222-256 | a row that is roomy before compression is not lengthened by it, although symbols are added |
| `IonChunker.EnoughSlack` | ion/chunker.go:298-309 | a last block with slack never overflows |
| `IonLimits.TightOutgrows` | ion/chunker.go:279-290 | a block with a table, a short row and a row of empty strings as long as a block: committing it leaves lastoff beyond the block, for every hash |
| `IonLimits.AddFirst` | ion/chunker.go:405-426 | a new chunker reaches the block with the table and the short row |
| `IonLimits.AddSecond` | ion/chunker.go:405-426 | committing the long row succeeds and leaves lastoff beyond the block |
| `IonLimits.PanickingRun` | ion/compress.go:28-33 | a run from a new chunker, two successful commits and a third that panics |
| `IonLimits.FullBlock` | ion/chunker.go:303-309 | a block without a table filled by one row that holds a known symbol: Flush panics with compression and not without |
| `IonLimits.EmptyExtension` | ion/symtab.go:504-532 | extending a table by nothing takes nine bytes |
| `IonLimits.LongGrows` | ion/compress.go:243-250 | such a row is longer when compressed |
| `IonLimits.ExtensionMissing` | ion/symtab.go:504-514 | behind a row that uses system symbols only, the table readers need is not written and the next row cannot be read |
| `IonIngest.Encode` | ion/datum.go:247-262 | copied or translated, the row means the same under the destination table, which only grows |
| `IonIngest.PutRow` | ion/chunker.go:405-426 | one more row is committed: exactly its meaning is added to the rows |
| `IonIngest.ReadFrom` | ion/chunker.go:463-533 | for every well-formed stream: on success every write was exactly Align bytes and the output reads as the chunker's rows followed by the rows the input reads as |
| `IonIngest.Translate` | ion/datum.go:256-262 | a row translated through the resymbolizer means the same under the destination table |
| `IonIngest.ReadOne` | ion/chunker.go:463-533 | one round of the loop consumes input and moves rows from the input to the chunker: their concatenation stays the same |
| `IonWrite.Write` | ion/chunker.go:564-619 | for every stream whose rows make sense the way it is heard: exactly the rows heard are added, it succeeds only if the stream is fine and reports it malformed only if not, every write is Align bytes, the remembered translations stay right across tables and resets, and no panic is reachable |
| `IonWrite.WriteRow` | ion/chunker.go:601-616 | translating with remembered symbols adds exactly the meaning of the row; afterwards the remembered symbols are right again, also when the commit started a new table |
| `IonWrite.LearnTable` | ion/chunker.go:578-591 | a table in the input is learned without losing rows, remembered translations are kept or forgotten as they must be, and the rest of a torn table is refused |
| `IonWrite.WriteOne` | ion/chunker.go:564-619 | one round of the loop consumes input and conserves the rows still to come, cache soundness and the block size |
| `IonWrite.HeardRowsIff` | ion/chunker.go:578-617 | the rows Write delivers are those a reader finds exactly if none means something else under the table Write holds there and none is cut off |
| `IonWrite.SpacedIsHeard` | ion/chunker.go:578-617 | a stream in which every table is followed by a row or padding is heard the way it is read, without an error |
| `IonWrite.SecondTableLost` | ion/chunker.go:586-600 | table, extension, row: readers know the field of the row, for Write it has no name |
| `IonWrite.FieldRenamed` | ion/chunker.go:586-600 | table, two extensions, row: Write renames the field "b" to "c" |
| `IonWrite.FreshTableRejected` | ion/chunker.go:579-594 | a fresh table directly behind a table ends Write with an error |
| `IonWrite.ExtensionSkipped` | ion/chunker.go:592-600 | an extension directly behind a table is skipped as a whole |
| `IonWrite.TearOpen` | ion/chunker.go:592-600 | of a fresh table directly behind a table one byte is skipped |
| `IonWrite.TornMiddle` | ion/chunker.go:592-600 | the next two bytes pass for padding |
| `IonWrite.TornEnd` | ion/symtab.go:382-409 | and the rest cannot be a table, whatever it holds |
| `IonWrite.ValueInFront` | ion/chunker.go:592-600 | the value Write takes next by size and type, wherever in the stream it is |
| `IonWrite.Relay` | ion/chunker.go:560-564 | the output of a flushed chunker is compatible with Write, and the rows are the same, unless a block was filled by its table alone |
| `Calendar.FloorDivIsFloor` | fastdate/fastdate.go:72-84 | the truncating division with its correction is floor division, also for negative numbers |
| `Calendar.FromDaysValid` | fastdate/fastdate.go:86-103 | for every day count the closed form gives a valid date that counts back to it |
| `Calendar.FromDaysOf` | fastdate/fastdate.go:105-116 | for every valid date the conversion to days and back is the identity |
| `Calendar.UnixDaysMonotone` | fastdate/fastdate.go:105-116 | day counts are strictly monotone in the date |
| `Calendar.YearOfEraRight` | fastdate/fastdate.go:91 | the corrected quotient is the year within the 400-year cycle for every day of it |
| `Calendar.NextMonth` | date/time.go:282-288 | the closed form advances by daysin from one month to the next, leap years included |
| `Calendar.UnixDaysIs` | fastdate/fastdate.go:105-116 | the closed form is the start of the year plus the days before the month plus the day |
| `Calendar.MonthOfYear` | fastdate/fastdate.go:86-103 | the 153-day formula finds the month of every day of the year |
| `Calendar.Epoch` | fastdate/fastdate.go:105-116 | day 0 is 1 January 1970 |
| `Calendar.SameDays` | fastdate/fastdate.go:105-116 | valid dates with the same day count are equal |
| `Calendar.CivilUnique` | date/time.go:290-311 | civil dates with the same serial number are equal |
| `Calendar.DecomposeInverse` | fastdate/fastdate.go:133-168 | Year, Month and Day determine the decomposed date |
| `DateTime.NormDate` | date/time.go:290-311 | the month-by-month walk ends on the valid date of the same day, which is the one the closed form gives |
| `DateTime.FastIsSlow` | fastdate/fastdate.go:86-103 | the closed form gives exactly the civil date whose serial number is n, for every n: the result of the month-by-month walk |
| `DateTime.EpochSerial` | date/time.go:290-311 | walking from 1 January 1970 by n days means day n |
| `DateTime.Norm` | date/stdlib.go:38-50 | hi and lo keep their joint value and lo comes into range, for negative numbers too |
| `DateTime.Normalize` | date/time.go:58-65 | Date brings every component into range and keeps the instant |
| `DateTime.NormalInRange` | date/time.go:58-65 | components in range stay as they are |
| `DateTime.PackRoundTrip` | date/time.go:67-80 | the accessors read back what was packed, for years 0 to 16383 |
| `DateTime.PackedOrder` | date/time.go:173-186 | Before and After of packed times are the chronological order, and equal packed times are equal dates |
| `DateTime.Carry` | date/time.go:58-65 | the four norm steps keep the instant and bring the time of day into range |
| `DateTime.SoonerInstant` | date/time.go:173-186 | lexicographically sooner components mean an earlier instant |
| `DateTime.NormalInstant` | date/time.go:58-65 | for all components the normal form is in range and the same instant |
| `FastDate.SplitSpec` | fastdate/fastdate.go:118-131 | every timestamp is a valid date and a time of day that join to it again |
| `FastDate.AddMonthSpec` | fastdate/fastdate.go:194-206 | up to the 28th, adding months keeps day and time and moves the month by exactly that many |
| `FastDate.AddMonthAdds` | fastdate/fastdate.go:194-206 | up to the 28th, adding months composes additively and adding none changes nothing |
| `FastDate.AddMonthDoesNotAdd` | fastdate/fastdate.go:194-206 | from the 29th on, for every timestamp there is a number of months for which it does not |
| `FastDate.DateDiffMonthLargest` | fastdate/fastdate.go:239-274 | up to the 29th, and for an other timestamp not before it, DateDiffMonth is the largest number of months that can be added without passing the other one, both directions |
| `FastDate.DateDiffMonthTooLarge` | fastdate/fastdate.go:239-274 | from the 30th on, for every timestamp there is another one for which the result is too large |
| `FastDate.TruncMonthGreatest` | fastdate/fastdate.go:376-380 | the greatest month start not after the timestamp |
| `FastDate.TruncQuarterGreatest` | fastdate/fastdate.go:382-390 | the greatest quarter start not after the timestamp |
| `FastDate.TruncYearGreatest` | fastdate/fastdate.go:392-400 | the greatest start of a year not after the timestamp |
| `FastDate.DayOfYear` | fastdate/fastdate.go:321-328 | the table-driven day of the year is one plus the days since TruncYear |
| `FastDate.SplitJoin` | fastdate/fastdate.go:118-131 | joining a valid date and a time of day and splitting again is the identity |
| `FastDate.DateOrder` | fastdate/fastdate.go:105-116 | day counts order valid dates as year, month, day do, both directions |
| `FastDate.DateDiffMonthInverts` | fastdate/fastdate.go:239-274 | exchanging the timestamps changes the sign and nothing else, for all timestamps |
| `FastDate.AddMonthShort` | fastdate/fastdate.go:194-206 | from the 29th on: where February is too short the date spills into March, exactly so many days |
| `Rfc3339.AppendInt` | date/stdlib.go:92-121 | digits put down from the right give the padded, or trimmed, decimal, for every int64 |
| `Rfc3339.AppendRFC3339Nano` | date/time.go:198-231 | appends the RFC 3339 text of the time, fraction trimmed, to any buffer |
| `Rfc3339.ParseDate` | date/parse_date.go:11-1044 | the state machine loop computes the machine's run over the input, stopping at the first error |
| `Rfc3339.Parse` | date/time.go:45-51 | every text of a time with a four-digit year, with any white space around it, gives that time; any other input gives what the machine and Date make of it |
| `Rfc3339.ParseText` | date/parse_date.go:11-1044 | for every time with a year up to 9999, its text parses to it again whatever white space surrounds it |
| `Rfc3339.PrintParse` | date/time.go:198-231 | Parse undoes AppendRFC3339Nano for every packed time with a year up to 9999 |
| `Rfc3339.TrimmedValue` | date/stdlib.go:92-121 | a fraction without trailing zeros still stands for the whole number of nanoseconds |
| `Rfc3339.LeapSecondAtEnd` | date/parse_date.go:1013-1025 | whole texts, for every minute: "60" without a zone is read as second 0, with Z behind it as the first second of the next minute |
| `Rfc3339.Digits` | date/stdlib.go:92-121 | the digit loop with its countdown of the width yields the padded or trimmed decimal |
| `Rfc3339.AppendZeros` | date/stdlib.go:115-118 | appends exactly the zeros missing |
| `Rfc3339.DecValue` | date/stdlib.go:92-121 | the decimal stands for the number |
| `Rfc3339.FractionWorth` | date/parse_date.go:11-1044 | the fraction registers after a trimmed fraction stand for the nanoseconds written |
| `Rfc3339.LeapSecond` | date/parse_date.go:1013-1025 | "60" is recorded exactly if something acceptable follows it, for every state and every continuation |
| `Rfc3339.SecondsStay` | date/parse_date.go:11-1044 | nothing behind the seconds changes them |
| `PathOrder.PathCmp` | fsutil/dir.go:443-481 | comparing strings segment by segment is the lexicographic order of the segment lists, with "" and "." as the root |
| `PathOrder.TreeCmp` | fsutil/dir.go:492-522 | decides whether a path lies before, inside or after the tree at root |
| `PathOrder.Segments` | fsutil/dir.go:530-552 | counts the segments and rejects exactly the paths that are not UTF-8 or have an empty, "." or ".." segment |
| `PathOrder.Trim` | fsutil/dir.go:563-600 | returns the first n segments joined and the segment behind them, and fails exactly on paths that are not valid, UTF-8 included |
| `PathOrder.SplitJoin` | fsutil/dir.go:563-600 | splitting undoes joining |
| `PathOrder.CmpPathTransitive` | fsutil/dir.go:443-481 | the path order is transitive |
| `PathOrder.Cut` | fsutil/dir.go:577-600 | the first n segments and the one behind them, for any path |
| `PathOrder.CmpPathEqual` | fsutil/dir.go:443-481 | the path order is antisymmetric and zero exactly for equal paths |
| `PathOrder.CmpPathFront` | fsutil/dir.go:443-481 | a common front does not matter |
| `PathOrder.Utf8Slash` | fsutil/dir.go:530-536 | no character reaches across a slash |
| `PathOrder.Utf8Segments` | fsutil/dir.go:530-536 | a path is valid UTF-8 exactly if every segment is |
| `TreeWalk.WalkDir` | fsutil/dir.go:246-299 | for every finite tree, seek path and pattern: visits exactly the entries that match and come after seek, except those a seek of "." misses, each once and in strictly increasing path order |
| `TreeWalk.SeekTo` | fsutil/dir.go:312-347 | walking upwards from the seek path yields what the filtered full walk yields below name |
| `TreeWalk.After` | fsutil/dir.go:349-414 | pruning by pattern loses nothing in a tree behind the seek path |
| `TreeWalk.OnSeekPath` | fsutil/dir.go:349-414 | a directory on the seek path adds exactly what its entry on the path left out |
| `TreeWalk.WalkIncreasing` | fsutil/dir.go:349-414 | the full walk is strictly increasing in the path order |
| `TreeWalk.Resume` | fsutil/dir.go:214-238 | filtering an increasing list by a path that was kept keeps exactly the ones behind it (joined to the walk by ResumeWalk) |
| `TreeWalk.NothingLostIff` | fsutil/dir.go:571-577 | the walk visits everything wanted exactly if no wanted path of the tree goes through an entry of the root that a seek of "." misses |
| `TreeWalk.DotSeekLoses` | fsutil/dir.go:571-577 | a file called "-" in the root is lost by it |
| `TreeWalk.StepUp` | fsutil/dir.go:312-347 | one step up the seek path: what the entry on the path yields plus the walk of the directory is the filtered full walk |
| `TreeWalk.NoMatchInside` | fsutil/dir.go:349-414 | a directory whose path does not match the front of the pattern holds nothing wanted |
| `TreeWalk.NoMatchBelow` | fsutil/dir.go:349-414 | an entry that does not match its segment of the pattern holds nothing wanted |
| `TreeWalk.BeforeSeek` | fsutil/dir.go:349-414 | a tree before the seek path and not on it holds nothing wanted |
| `TreeWalk.VisitLate` | fsutil/dir.go:246-299 | listing the root with a seek of "." visits exactly the wanted entries that are not missed |
| `TreeWalk.RootItself` | fsutil/dir.go:246-299 | the root "." itself is never visited |
| `TreeWalk.VisitsIs` | fsutil/dir.go:246-299 | what the walk visits is one filter of the full walk, where a seek of "." at the root counts as the name of an entry |
| `TreeWalk.VisitsIncreasing` | fsutil/dir.go:349-414 | every walk visits in strictly increasing path order, and so nothing twice |
| `TreeWalk.ResumeWalk` | fsutil/dir.go:211-238 | stopping a walk at any path and walking again with that path as seek visits exactly the rest |
| `Fuzzy.KernelJustified` | fuzzy/edit_distance_approx.go:42-229 | every decision of every look-ahead is backed by equalities of the characters it speaks of |
| `Fuzzy.Progress` | fuzzy/edit_distance_approx.go:231-257 | every step gets closer to the end of at least one text, also at the ends, so the loop terminates |
| `Fuzzy.StepScript` | fuzzy/edit_distance_approx.go:42-229 | every move is paid for by as many edits (substitute, insert, delete, swap neighbours) as it costs |
| `Fuzzy.WholeDistance` | fuzzy/edit_distance_approx.go:231-257 | terminates for all texts; zero exactly for equal texts and for a text against itself with only end runes behind it; for texts without the end rune the total is the number of edits of an actual script |
| `Fuzzy.PrefixDistance` | fuzzy/edit_distance_approx.go:231-257 | terminates; zero exactly if the needle is a prefix; for texts without the end rune the total is the number of edits of a script from some front of the data to the needle |
| `Fuzzy.Sound` | fuzzy/edit_distance_approx.go:231-257 | the total of a script is never below the shortest distance or the difference in length, and zero only for equal texts |
| `Fuzzy.EndIsMistaken` | fuzzy/edit_distance_approx.go:45-50 | every text and the same text with any number of U+10FFFF behind it have distance zero |
| `Fuzzy.BuildTable` | fuzzy/edit_distance_approx.go:522-551 | the rules never overlap, so the table is built without the overwrite panic and holds the one rule that applies |
| `Fuzzy.TableAgrees` | fuzzy/edit_distance_approx.go:562-571 | every entry of the table is the decision of the look-ahead-3 branches |
| `Fuzzy.KeyInTable` | fuzzy/edit_distance_approx.go:442-474 | every combination of the nine comparisons has a key below 512 that stands for it |
| `Fuzzy.JustifiedIsPayable` | fuzzy/edit_distance_approx.go:42-229 | justified moves of texts without the end rune correspond to real edits |
| `Fuzzy.Exclusive` | fuzzy/edit_distance_approx.go:529-542 | no two rules apply to the same key |
| `Fuzzy.RuleMeans` | fuzzy/edit_distance_approx.go:502-520 | the textual rule applies to a key exactly if its comparisons hold |
| `Fuzzy.DecideByBits` | fuzzy/edit_distance_approx.go:42-229 | the look-ahead-3 decision depends only on the nine comparisons of the key |
| `Fuzzy.LengthBound` | fuzzy/edit_distance_approx.go:231-257 | a script changes the length by at most its number of edits |
| `Fuzzy.AgreeIff` | fuzzy/edit_distance_approx.go:42-60 | two texts look the same to the kernel exactly if they are equal or differ by end runes at the end |
| `QueueRunner.StepKeepsInv` | db/queue.go:518-595 | every atomic step of every goroutine keeps the invariant |
| `QueueRunner.AllRuns` | db/queue.go:518-595 | over all interleavings: every gathered item is finalised once, in order and before Close, with the worst status of the tables that listed it; a batch in flight is not gathered into; no append runs while its table's scan is registered; startScan never panics |
| `QueueRunner.SwapKeepsInv` | db/queue.go:193-201 | one compare-and-swap attempt, under any interference, keeps the invariant: every status is the worst one merged so far |
| `QueueRunner.WorstIsReported` | db/queue.go:589-595 | when all tables are done, each status is the maximum of those that listed the item |
| `QueueRunner.InstallKeepsInv` | db/queue.go:685-698 | installing new definitions keeps the invariant: scans belong to installed tables, and no scan is started twice |
| `QueueRunner.RunKeepsInv` | db/queue.go:518-595 | every run from a state with the invariant keeps it |
| `QueueRunner.MainKeepsInv` | db/queue.go:518-569 | refreshing, waiting, gathering decisions, closing and ending scans keep the invariant |
| `QueueRunner.ReceiveKeepsInv` | db/queue.go:444-472 | gathering an item keeps the invariant: it joins the current batch only |
| `QueueRunner.LaunchKeepsInv` | db/queue.go:561-568 | launching a batch after the previous one has ended keeps the invariant |
| `QueueRunner.TableKeepsInv` | db/queue.go:363-403 | filtering, the scan check, appending and loading a status keep the invariant |
| `QueueRunner.FinalizeKeepsInv` | db/queue.go:592-594 | finalising the next item with its status keeps the invariant |
| `QueueRunner.DoneKeepsInv` | db/queue.go:589-595 | ending the tables and the batch keeps the invariant |
| `QueueRunner.ProcessedIff` | db/queue.go:398-402 | an item is finalised as OK exactly if no table that listed it failed |
| `QueueRunner.FilterErrorIsLost` | db/queue.go:259-308 | a run in which the only table's filter fails with any status before it lists the item, and the item is finalised as OK although no table has processed it |
| `QueueRunner.ScansSurvive` | db/queue.go:518-522 | for any set of tables there is a run that closes the queue and exits with exactly their scans still registered |
| `Ndjson.SplitAt` | jsonrl/ndjson.go:79-144 | a worker and those it starts cover everything up to its end, and beyond it exactly if its first window has a newline behind the end; regions meet at one shared newline |
| `Ndjson.Split` | jsonrl/ndjson.go:159-205 | if all workers succeed, every line up to a point at or behind size is given to exactly one call, in order, for every reader, window size and parallelism; the point is size exactly if size is at least a window or no newline lies between it and the end of the first window |
| `Ndjson.Strides` | jsonrl/ndjson.go:172-185 | a stride is at least a window, so first windows stay in their own region |
| `Ndjson.TiledLines` | jsonrl/ndjson.go:54-76 | parts that end with a newline hand out the lines of the whole |
| `Ndjson.Process` | jsonrl/ndjson.go:54-76 | everything up to and including the last newline is consumed; fails exactly if there is none |
| `Ndjson.Rest` | jsonrl/ndjson.go:120-138 | going on window by window tiles the data up to the end of the region, and fails otherwise |
| `Ndjson.LinesAppend` | jsonrl/ndjson.go:54-76 | the lines of a concatenation are those of its parts if the first ends with a newline |
| `Ndjson.FindNewline` | jsonrl/ndjson.go:96-100 | the first newline of the window, or its length if there is none |
| `Ndjson.Places` | jsonrl/ndjson.go:172-183 | the offsets are spread so that first windows stay in their own regions, except that of a single worker |
| `Ndjson.Overrun` | jsonrl/ndjson.go:108-119 | the first window is read beyond the end exactly if it has a newline there |
| `Ndjson.BehindSize` | jsonrl/ndjson.go:146-159 | two lines, of which size covers one: both are handed out |
| `Intervals.Compress` | ints/interval.go:71-103 | in place, the front of the array becomes the normal form |
| `Intervals.NormalSpec` | ints/interval.go:71-103 | the normal form has the same integers, in order and with a strict gap between neighbours |
| `Intervals.Canonical` | ints/interval.go:71-103 | gapped lists of non-empty intervals with the same integers are equal (joined to Compress by NormalIff and NormalCanonical) |
| `Intervals.Len` | ints/interval.go:55-61 | the summed length, which for gapped lists is the number of integers |
| `Intervals.Intersect` | ints/interval.go:232-244 | denotes the intersection of the two sets, with strict gaps and without empty intervals, so that equal intersections are equal lists |
| `Intervals.Next` | ints/interval.go:160-169 | for every list: returns the first integer of the series and leaves exactly the rest of it, or reports an empty one; a normalised list stays normalised |
| `Intervals.Overlaps` | ints/interval.go:110-125 | for lists in order of the starts, true exactly if some interval meets the range; without empty intervals a positive answer is right for any list, and a negative one for any list in order |
| `Intervals.EnumerateHas` | ints/interval.go:160-169 | the series Next runs through lists exactly the integers of the list |
| `Intervals.EnumerateIncreasing` | ints/interval.go:160-169 | for a normalised list the series is strictly increasing, so Next takes the least integer |
| `Intervals.SortSpec` | ints/interval.go:71-78 | sorting gives a sorted permutation with the same integers |
| `Intervals.CompactSpec` | ints/interval.go:79-80 | dropping equal neighbours keeps the order and the integers |
| `Intervals.MergeSpec` | ints/interval.go:82-102 | merging a sorted list leaves strict gaps and keeps the integers |
| `Intervals.Absorb` | ints/interval.go:85-98 | the inner loop absorbs what touches the current interval, in place; the rest of the array stays |
| `Intervals.LenIsSize` | ints/interval.go:55-61 | for gapped lists the summed length is the number of distinct integers |
| `Intervals.IntersectAll` | ints/interval.go:233-244 | one interval against a list denotes exactly the common integers, without empty intervals |
| `Intervals.SortAndCompact` | ints/interval.go:71-80 | the front of the array holds the same intervals, each once, in order |
| `Intervals.NormalIff` | ints/interval.go:71-103 | two lists have the same normal form exactly if they hold the same integers and reach the same points |
| `Intervals.NormalCanonical` | ints/interval.go:71-103 | equal sets of non-empty intervals give equal lists, again without empty intervals |
| `Intervals.EmptyIntervalStays` | ints/interval.go:71-103 | an empty interval that nothing touches stays: the same integers as no interval, another list |
| `Intervals.FinerNormal` | ints/interval.go:71-103 | normalising does not depend on the scale |
| `Intervals.MeetsIff` | ints/interval.go:105-125 | meeting a range means sharing an integer with it exactly if some interval that meets it is not empty |

## Left out

- Chunker: the byte slices of the source, `tmpbuf` and their reuse are modelled on values (the record `Block`); a row is written to a buffer of its own and then appended. Aliasing is modelled for symbol tables only (`SymtabHeap`).
- Chunker: `W` takes every write, and supports ranges; errors of writes and the `Flusher` interface are not modelled. `FastForward`, `SetTimeRange`, `CheckSize` and `Reset` are left out.
- ReadFrom: extra constant fields for every row, and the reading of timestamps out of rows (`noteTimeFields`), are not modelled; timestamps enter through `AddTime`. Rows have a label of their own: without one the next row is lost (`ExtensionMissing`).
- ReadOne: rows have a label of their own, as for ReadFrom.
- PutRow: rows have a label of their own, as for ReadFrom.
- Write: `walkTimeRanges` is not modelled, for the same reason. The rows, as they are heard, resolve under the table held there and have a label of their own; a symbol that does not is given the empty name in the source (`SecondTableLost`). A chunker whose `lastoff` has outgrown the block is excluded.
- Commit: sizes beyond the format (tables and values of 2^56 bytes, more than 2^32 symbols) are excluded by `Fits`, or reported as `OutOfRange` by the callers in `IonIngest`.
- Strtab.Mark: the hash function is a parameter, so that everything holds for every seed; the byte distance used to choose the entry to evict is kept as positions.
- Resym: the `expand` mode, s-expressions and annotations with several labels are not modelled; a value of any other scalar type is an atom whose bytes are copied.
- Buffer: floats, decimals, blobs and clobs are not modelled; `WriteFloat` of zero does not sort its field, which is why floats are not atoms written through `Buffer`.
- Unmarshal: error messages, and what a table holds after a failed read, are not modelled; a malformed table is `None`.
- Symtab: the order in which the index map is traversed does not matter for what is stated; `memsize` is kept exactly.
- FastDate: timestamps are unbounded integers; 64-bit overflow is not modelled. Extraction of hours, minutes, seconds and the day of the week is not modelled.
- DateTime: conversion to and from the standard library's time is not modelled.
- Parse: `parse_date.go` is a generated state machine; the model has the same states and actions as a transition function.
- TreeWalk: patterns are matched segment by segment by an abstract relation; errors of the file system and the early ends `SkipDir` and `SkipAll` are not modelled, so a missing root is an empty walk.
- WalkDir: as for TreeWalk.
- Trim: a negative count, which panics, is excluded by the type.
- Fuzzy: the UTF-8 and ASCII front ends and the generated Go text are not modelled.
- QueueRunner: filters, table contents and the results of appends are nondeterministic actions; time, logging and liveness are not modelled.
- Split: parsing of the JSON objects is not modelled: `process` hands out the text up to the last newline. A writer that signals the end early (`io.EOF` from `Open` or `Commit`) ends its worker in the source; that path is left out, as is the default for zero settings.
- Intervals.Compress: sorting by the library is modelled by a sorting function.
- The query compiler, the virtual machine, expression simplification, compression codecs and the rest of the repository are not modelled.
