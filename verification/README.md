# Verified model of prometheus-zfs-exporter

This project models how the exporter turns kernel replies and kstat files into metrics, and
proves what the code can and cannot be relied on for.

* **The nvlist reader** (`NvFormat`, `NvRuns`, `NvReader`): a mutable cursor whose `Next` reads one
  length-prefixed, aligned pair. Nested lists are not framed by their parent: they follow the pair
  and end with a four-byte zero. `NvFormat.NextAt` says in one step what stands at a cursor,
  `NvRuns` says what whole runs do on arbitrary bytes, and the methods of `NVListReader`, which read
  field by field, are proved to do the same.
* **The encoder** (`NvEncode`): property lists as data and their native bytes, the reference for the
  decoders. Whatever follows a value inside its pair (padding, in-memory list structures) is
  arbitrary "slack", so each law holds for every encoder of that layout.
* **Laws of the reader** (`NvTheorems`, `NvRoundTrip`): on arbitrary bytes, recursion equals a scan with
  one counter, appended bytes change nothing, `Unmarshal` and `Skip` agree; on encodings, the round
  trip, exact extents, and exactly which truncated messages can be read.
* **The consumers** (`Vdevs`, `Pools`, `DatasetProps`, `KStatProps`): vdev trees, pool statistics, dataset
  properties and kstat counters, each against a reading of the list or rows that does not follow the
  parser: the last member of a name wins, wherever it stands.
* **Where the consumers end** (`Extents`): each parse is followed by a count of the lists that are still
  open, which decides on any bytes whether it ends where its list ends.
* **The kstat reader** (`KStat`, `KStatTheorems`, `Decimal`): its columns, the effect of cutting off a
  file at any byte, and reading back a printed file.
* **Names, the retry loop and the kernel** (`Ioctl`): the name buffer, the wrapper that retries with a larger
  buffer, and a kernel that lists a tree of datasets by cookies, leaves name and cookie alone when
  the reply does not fit, and can turn down any request with an error.
* **The collector** (`Labels`, `States`, `Exporter`, `ExporterTheorems`, `Report`, `Series`): the dataset walk
  whose frames all overwrite one command and one buffer, the labels and gauges of vdevs, one whole scrape,
  what the metrics of a pool say number by number, and that no series is sent twice. Whether the metrics
  library builds a metric is a parameter.

A Go run-time panic, and a read through an unsafe slice that leaves the buffer, is the error `Fault`.
`seq<Byte>` is a byte slice, `string` a Go string. The host and the lists are little-endian.

Results about the code that its documentation does not tell:

* The reader's bounds checks need one byte behind the last end mark, and the retry loop allocates
  exactly the size of the reply. A reply therefore can be decoded if and only if it is strictly shorter
  than the buffer was before the call (`ReplyReadableIff`); a retry never helps.
* The vdev and pool parsers call `Skip` once for an unknown array of lists. That is right if and only if
  the array has one element (`OneSkipIff`); with two, the second list's members are taken for the
  vdev's own and the rest is lost (`TwoElementArrayLeaks`, `TwoElementArrayExample`). On any bytes, a
  parse ends where `Skip` ends exactly when the unknown arrays it meets, counted as they are declared,
  leave no list open and end none too early (`ParseEndsWithSkipIff`, `DecodeEndsWithSkipIff`). Where no
  array is empty this means that each unknown one has one element (`ParseExactIff`, `DecodeExactIff`); an
  empty one can make up for one with two, and then the parse ends in the right place with a wrong
  result (`EmptyArrayCancels`, `CancelExample`).
* `parseValue` does not skip nested lists: it ends behind its list if and only if no member holds a list
  (`ValueExactIff`), and so do the properties of a dataset (`PropsExactIff`). Otherwise the rest of the
  properties can be lost without an error (`NestedListEndsProps`, `NestedPropsExample`).
* Boolean and string arrays repeat their first element and byte arrays include the padding
  (`LeafFaithfulIff` says exactly when that is harmless).
* A closed vdev is reported as unknown: the empty `case` does not fall through (`VdevStateNames`).
* The kstat type is cut down to eight bits before it is compared, so type 257 is accepted (`PrintedFile`).
* The package comment of `nvlist` speaks of both byte orders; big-endian lists are rejected, whatever
  follows the first two bytes (`HeaderRejected`).
* Two vdevs with the same full label and type make two metrics of one series, and only they do
  (`VdevOnceIff`); a pedantic registry refuses that. Distinct names without slashes among siblings, of
  vdevs and of datasets, rule it out for a whole scrape (`ScrapeOnce`).

## Model

| member | source | states |
|---|---|---|
| NvFormat.NextAt | zfs/nvlist/decode.go:162-244 | on any bytes a pair or end mark moves the cursor forward and leaves it inside the buffer, with four more bytes behind a pair; at most 65535 elements |
| NvFormat.NextStable | zfs/nvlist/decode.go:122-244 | a step that succeeds finds the same pair, name, data extent and position when bytes are appended |
| NvEncode.StepOverEntry | zfs/nvlist/decode.go:162-244 | on an encoded pair followed by at least five bytes, `Next` finds its type, name, count and value, whatever the slack |
| NvEncode.StepOverEnd | zfs/nvlist/decode.go:172-181 | an end mark is recognised if and only if a byte follows it |
| NvEncode.StepOverLastEntry | zfs/nvlist/decode.go:182-184 | a pair in front of the last end mark of a buffer without a tail is invalid data |
| NvReader.NVListReader.ReadByte | zfs/nvlist/decode.go:59-66 | the byte at the cursor and one step, or an error and no step |
| NvReader.NVListReader.ReadInt32 | zfs/nvlist/decode.go:122-130 | the signed word at the cursor if a byte follows it, else an error and no step |
| NvReader.NVListReader.ReadInt16 | zfs/nvlist/decode.go:132-140 | the same for two bytes |
| NvReader.NVListReader.ReadUint32 | zfs/nvlist/decode.go:142-150 | the same unsigned |
| NvReader.NVListReader.ReadBytes | zfs/nvlist/decode.go:152-160 | the same for any number of bytes |
| NvReader.NVListReader.ReadNvHeader | zfs/nvlist/decode.go:72-120 | accepts exactly the headers that `HeaderAt` accepts, with the same errors in the same order, and ends at offset 12 |
| NvReader.NVListReader.NextFields | zfs/nvlist/decode.go:192-220 | the one-by-one checks accept exactly the fixed fields that are well formed as a whole |
| NvReader.NVListReader.AlignPos | zfs/nvlist/decode.go:229-231 | moves to the next aligned offset relative to the pair start |
| NvReader.NVListReader.FinishPair | zfs/nvlist/decode.go:229-243 | data extent, cursor and token of the pair, with the pointer space of a string array left out |
| NvReader.NVListReader.NextBody | zfs/nvlist/decode.go:182-243 | the pair of a given size, or invalid data |
| NvReader.NVListReader.NextPair | zfs/nvlist/decode.go:170-244 | pair, end mark or error as `PairAt` says |
| NvReader.NVListReader.Next | zfs/nvlist/decode.go:162-244 | reading field by field gives what `NextAt` says of the bytes, header included; one call is counted |
| NvReader.NVListReader.Skip | zfs/nvlist/decode.go:408-434 | recursion, errors and end cursor as `SkipList`; a run that succeeds calls `Next` at most once for each byte it consumes, one that fails at most once more than there are bytes |
| NvReader.NVListReader.SkipElements | zfs/nvlist/decode.go:423-431 | skips exactly as many lists as the array declares, with the same bound |
| NvReader.NVListReader.BytesUntilDelimiter | zfs/nvlist/decode.go:357-364 | the bytes before the first delimiter in the data; an error if and only if there is none in reach |
| NvReader.NVListReader.String | zfs/nvlist/decode.go:366-372 | the text before the first NUL of the data |
| NvReader.NVListReader.Boolean | zfs/nvlist/decode.go:333-342 | false for 0, true for 1, an error for any other word |
| NvReader.NVListReader.BooleanArray | zfs/nvlist/decode.go:344-355 | as many copies of the first element as the array has elements |
| NvReader.NVListReader.StringArray | zfs/nvlist/decode.go:387-398 | as many copies of the first string as the array has elements |
| NvReader.NVListReader.LeafValue | zfs/nvlist/decode.go:489-553 | the type switch decodes, ignores or rejects a pair without lists as `LeafOf` says |
| NvReader.NVListReader.Unmarshal | zfs/nvlist/decode.go:436-606 | terminates on all bytes and adds to a generic map what `UnmarshalList` says, ending where it says; calls of `Next` are bounded like those of `Skip` |
| NvReader.NVListReader.UnmarshalElements | zfs/nvlist/decode.go:590-598 | one map for each declared element |
| NvReader.UnmarshalData | zfs/nvlist/decode.go:37-40 | the entry point reads a whole message into an empty map |
| NvRuns.UntilNulFinds | zfs/nvlist/decode.go:357-364 | the string is what stands before the first NUL |
| NvRuns.UntilNulMisses | zfs/nvlist/decode.go:357-364 | without a NUL the error is invalid data, or a fault when the buffer ends first |
| NvTheorems.SkipRefinesScanner | zfs/nvlist/decode.go:408-434 | on all bytes, the recursive `Skip` equals a scanner with one counter: same success, same errors, same end |
| NvTheorems.TraceBalances | zfs/nvlist/decode.go:408-434 | in each scan that succeeds, end marks read = lists pending + lists opened, and no more steps than bytes |
| NvTheorems.SkipBalances | zfs/nvlist/decode.go:408-434 | in each successful `Skip`, end marks read = 1 + nested lists + the sum of the array lengths |
| NvTheorems.UnmarshalAgreesWithSkip | zfs/nvlist/decode.go:463-605 | on all bytes, if `Unmarshal` succeeds then `Skip` succeeds and ends at the same place |
| NvTheorems.SkipStable | zfs/nvlist/decode.go:408-434 | a `Skip` that succeeds is the same on the buffer with bytes appended |
| NvTheorems.HeaderRejected | zfs/nvlist/decode.go:72-106 | exactly which first bytes are an unknown encoding, an unsupported big-endian list and an invalid byte order, whatever comes then; nothing else gives these errors |
| NvTheorems.UnmarshalStable | zfs/nvlist/decode.go:463-605 | an `Unmarshal` that succeeds gives the same map and end with bytes appended |
| NvRoundTrip.MeaningIsLastWins | zfs/nvlist/decode.go:474-487 | the map of a list holds, for each name, the value of the last member with it |
| NvRoundTrip.LeafFaithfulIff | zfs/nvlist/decode.go:329-398 | a member is read back as written if and only if it is no byte array with slack and no boolean or string array with different elements |
| NvRoundTrip.LeafOfEntry | zfs/nvlist/decode.go:489-553 | decoding the value bytes of any encodable member gives its meaning, for all widths, signs and arrays |
| NvRoundTrip.UnmarshalOfEnc | zfs/nvlist/decode.go:436-606 | at any offset, unmarshalling an encoded list of any nesting gives its meaning and ends just behind it |
| NvRoundTrip.UnmarshalNeedsTail | zfs/nvlist/decode.go:122-126 | without a byte behind it, an encoded list is invalid data, at every nesting |
| NvRoundTrip.RoundTrip | zfs/nvlist/decode.go:36-40 | header, list and any non-empty tail give exactly the meaning of the list; an empty tail gives ErrInvalidData |
| NvRoundTrip.TruncatedReadableIff | zfs/nvlist/decode.go:122-244 | a message cut off at any byte can be read if and only if a byte behind the list is left |
| NvRoundTrip.SkipIsExact | zfs/nvlist/decode.go:408-434 | `Skip` moves by exactly the length of an encoding, at any offset and for every nesting |
| NvRoundTrip.SkipsAreExact | zfs/nvlist/decode.go:423-431 | the same for the lists of an array |
| Vdevs.ParseField | main.go:514-542 | type, id, path and statistics decode, or fail on a wrong type |
| Vdevs.ParseVdevs | main.go:487-552 | the parser builds the vdev that `VdevList` reads from the bytes and ends where it ends; on all bytes it calls `Next` at most once for each byte and once more |
| Vdevs.ParseChildren | main.go:502-513 | appends one child for each declared element, in order |
| Vdevs.ParseInvertsEnc | main.go:487-552 | for encodings in step, any depth, order and interleaving, the parser returns what the list says, errors included, and ends just behind it |
| Vdevs.VdevOfIsOverlay | main.go:502-548 | parsing succeeds if and only if the looked-at members are well typed at every level; then each field is that of the last member with its name and the children are in order |
| Vdevs.StatsPlaces | main.go:466-485 | which of the 29 entries each statistic is, by number; the free space wraps around |
| Vdevs.StatsState | main.go:482 | for which values of entries 1 and 2 each of the eight state names stands |
| Vdevs.OneSkipIff | main.go:543-547 | one call of `Skip` lands behind an unknown array of lists if and only if it has one element |
| Vdevs.TwoElementArrayLeaks | main.go:543-547 | with two elements the parser takes the second list's members for its own and stops at its end |
| Vdevs.TwoElementArrayExample | main.go:543-547 | a concrete message on which the id behind such an array is lost |
| Vdevs.ParseAgreesWithSkip | main.go:487-552 | on all bytes, a parse that succeeds and meets only one-element unknown arrays ends where `Skip` ends |
| Vdevs.VdevStable | main.go:487-552 | a parse that succeeds is the same with bytes appended |
| Pools.DecodePool | main.go:578-615 | the decode loop fills state, error count and tree as `PoolList` says |
| Pools.DecodeInvertsEnc | main.go:578-615 | for encodings in step, the loop returns what the list says, wherever the three members stand among skipped lists |
| Pools.PoolOfIsOverlay | main.go:586-614 | decoding succeeds if and only if the three members are well typed; then each is that of its last member |
| Pools.PoolStable | main.go:578-615 | a decode that succeeds is the same with bytes appended |
| DatasetProps.GetAfterSet | main.go:279-301 | writing a field changes it and no other |
| DatasetProps.NamesInjective | main.go:314-375 | no two property names select the same field |
| DatasetProps.PropsObject.StoreProp | main.go:314-375 | the switch assigns the field of its name and no other |
| DatasetProps.PropsObject.StoreCounter | main.go:414-445 | the same for the six counters |
| DatasetProps.PropsObject.ParseValue | main.go:303-379 | the loop over one property does what `ValueList` says |
| DatasetProps.PropsObject.ParseProps | main.go:381-402 | the loop over all properties does what `PropsList` says |
| DatasetProps.ValueInvertsEnc | main.go:303-379 | for a flat list the loop returns what the list says and ends just behind it |
| DatasetProps.ValueEndsEarly | main.go:303-379 | the loop never ends behind its list, and ends inside it if a member holds a list |
| DatasetProps.ValueExactIff | main.go:303-379 | it ends exactly behind a well-typed list if and only if the list is flat |
| DatasetProps.PropsInvertEnc | main.go:381-402 | with flat inner lists the properties are what the lists say, errors included |
| DatasetProps.PropsOfIsLast | main.go:303-402 | parsing succeeds if and only if the values are 64-bit numbers in lists; each field then holds its last value, and absent fields keep theirs |
| DatasetProps.PropFields | main.go:314-375 | each of the twelve names sets its own field to its last number, written out name by name; no counter changes |
| DatasetProps.PropsStable | main.go:381-402 | a parse that succeeds is the same with bytes appended |
| Extents.ParseEndsWithSkipIff | main.go:487-552 | on any bytes: a parse that succeeds ends where `Skip` ends if and only if the unknown arrays it meets, counted as declared, leave no list open and end none too early |
| Extents.VdevLeaves | main.go:502-547 | how many lists a scan has open where the parse ends, for any number open at its start |
| Extents.ParseExactIff | main.go:487-552 | an encoded vdev without empty arrays of lists: a parse that succeeds ends exactly behind it if and only if each unknown array has one element |
| Extents.EmptyArrayCancels | main.go:543-547 | an empty unknown array behind one of two lists brings the parser back in step behind the child, with the second list as the child |
| Extents.CancelExample | main.go:543-547 | a concrete message that is out of step and still parsed to its exact end, without the id of the child |
| Extents.DecodeEndsWithSkipIff | main.go:578-615 | the same condition for the decode loop of a pool, on any bytes |
| Extents.DecodeExactIff | main.go:578-615 | encoded statistics without empty arrays: decoding that succeeds ends exactly behind them if and only if unknown arrays have one element, in the vdev tree too |
| Extents.PropsEndWithSkipIff | main.go:381-402 | on any bytes: parsing properties ends where `Skip` ends if and only if no list was opened inside a property |
| Extents.PropsExactIff | main.go:381-402 | a typed property list is parsed to its end if and only if no property's list holds a list |
| Extents.NestedListEndsProps | main.go:303-402 | a property whose list ends in a member with an empty list ends the parse, and the properties behind it are lost |
| Extents.NestedPropsExample | main.go:303-402 | a concrete message that is parsed without an error and without its second property |
| Decimal.ParseInvertsDec | zfs/kstat/decode.go:182-188 | parsing the decimal text of a number returns it if and only if it is below 2^64 |
| Decimal.ParseUint64Iff | zfs/kstat/decode.go:182-188 | exactly the decimal texts below 2^64, with any zeros in front, are parsed, each as its number |
| Decimal.ParseInt32OfPrint | zfs/kstat/decode.go:77 | every way to write a number, with or without sign and zeros, is parsed as it if and only if it is one of 32 bits |
| Decimal.ParseInt32OfDec | zfs/kstat/decode.go:77 | the same for plain decimal texts, by bounds |
| Decimal.ParsedIsPrinted | zfs/kstat/decode.go:77 | no other text is parsed |
| KStat.KStatReader.ReadUntilExclude | zfs/kstat/decode.go:26-46 | the text before the next delimiter, which is consumed; nothing moves if there is none |
| KStat.KStatReader.ReadUntilExcludeIgnoringPrefix | zfs/kstat/decode.go:48-65 | the text before the next delimiter behind any number of prefix bytes |
| KStat.KStatReader.ReadHeader | zfs/kstat/decode.go:67-112 | succeeds exactly on seven fields with a 32-bit type, which is stored modulo 256 |
| KStat.KStatReader.ReadColumnHeaders | zfs/kstat/decode.go:114-138 | accepts exactly the columns name, type and data with any padding |
| KStat.KStatReader.Next | zfs/kstat/decode.go:140-176 | row, `io.EOF` or another error as `NextRow` says of the bytes |
| KStatTheorems.EndsGrow | zfs/kstat/decode.go:140-176 | every row ends behind the one before it and inside the file |
| KStatTheorems.RowsCut | zfs/kstat/decode.go:157-175 | behind the header lines, a cut file gives the rows that end within it, cleanly if and only if the cut is at a row end |
| KStatTheorems.TruncatedFile | zfs/kstat/decode.go:140-176 | any file cut at any byte gives exactly the rows inside, and `io.EOF` if and only if the cut is behind the column line or a row |
| KStatTheorems.ReadLines | zfs/kstat/decode.go:157-175 | printed rows are read back in order, then `io.EOF`, for any padding |
| KStatTheorems.PrintedFile | zfs/kstat/decode.go:67-176 | a printed file, with any number as its type in any way to write it, is read back row by row if and only if that is a 32-bit integer and 1 modulo 256; otherwise no row is read |
| KStatProps.ParseKStat | main.go:404-449 | the loop over rows does what `KStatRun` says |
| KStatProps.RunIsFold | main.go:404-449 | it succeeds if and only if the file ends cleanly and its counter rows parse; then it is a fold over the rows |
| KStatProps.CountersAreLast | main.go:414-445 | each counter is that of its last row; others keep their value |
| KStatProps.CounterFields | main.go:414-445 | each of the six row names sets its own counter to its last number, written out name by name; no property changes |
| KStatProps.KStatRoundTrip | main.go:404-449 | every 64-bit value printed in the last row of a counter is the value parsed, in any order among any rows |
| KStatProps.KStatKeepsOthers | main.go:414-445 | a field without a row is left untouched |
| Ioctl.BufTextUnique | zfs/ioctl/ioctl.go:90-98 | the text of a buffer is the only NUL-free prefix that ends at a NUL or at the end |
| Ioctl.DelimitedBufToString | zfs/ioctl/ioctl.go:90-98 | returns that text |
| Ioctl.StringToDelimitedBuf | zfs/ioctl/ioctl.go:100-111 | copies the string up to a NUL in place and keeps the rest; succeeds if and only if the string is shorter than the buffer and NUL-free |
| Ioctl.ResidueLaw | zfs/ioctl/ioctl.go:90-111 | after a copy the buffer reads as the string followed by the old text from there on |
| Ioctl.Cmd.Clear | zfs/ioctl/ioctl.go:78-80 | zeroes name, cookie and size |
| Ioctl.Cmd.SetName | zfs/ioctl/ioctl.go:82-84 | the copy without its error |
| Ioctl.Cmd.GetName | zfs/ioctl/ioctl.go:86-88 | the text of the name buffer |
| Ioctl.NameSurvivesIff | zfs/ioctl/ioctl.go:78-111 | a name survives `Clear`, `SetName` and `GetName` if and only if it is NUL-free and at most 4095 bytes long |
| Ioctl.Ioctl | zfs/ioctl/ioctl.go:38-76 | one system call, or two if the reply is longer than the buffer; then the buffer holds the reply over its old content, or the reply alone if it did not fit; a refusal leaves buffer, name and cookie as they were |
| Labels.PathBaseSlashFreeIff | main.go:138-139 | the base name is slash-free if and only if the path has a character other than a slash |
| Labels.PathBaseIs | main.go:137-139 | the base name is the last component, whatever slashes end the path; slashes alone give a slash |
| Labels.PathParts | main.go:137-139 | every path is one of these |
| Labels.LocalNameIs | main.go:137-146 | a vdev goes by the last component of its path; without one the root goes by the pool and any other by type, dash and digits of the id |
| Labels.TypeIdInjective | main.go:144 | type-id names determine type and id, also for types with dashes |
| Labels.PathlessNames | main.go:140-146 | local names of path-less non-roots are equal if and only if type and id are |
| Labels.PathlessSiblings | main.go:140-146 | distinct (type, id) pairs are exactly what path-less siblings need |
| Labels.LabelsAreJoined | main.go:147-213 | each full label is the chain of local names from the root with slashes in between, in preorder |
| Labels.LabelsDistinct | main.go:135-213 | with distinct, slash-free local names among siblings, all full labels of a tree differ |
| Labels.LabelsDistinctIff | main.go:135-213 | for slash-free local names, all full labels of a tree differ if and only if those of siblings do at every level |
| Labels.DistinctLabelsNeed | main.go:135-213 | distinct labels need distinct siblings, whatever the names hold |
| States.VdevStateNames | zfs/ioctl/util.go:150-174 | which (state, aux) give each of the eight names; closed is UNKNOWN |
| States.PoolStateNames | zfs/ioctl/util.go:127-148 | which states have each of the nine names |
| States.PoolStatesAlike | zfs/ioctl/util.go:127-148 | two pool states share a name if and only if they are equal or both unknown |
| States.OneVdevGauge | zfs/ioctl/util.go:113-122 | every (state, aux) turns on exactly one gauge, the empty state none |
| States.OnePoolGauge | zfs/ioctl/util.go:102-112 | every pool state turns on exactly one gauge |
| Exporter.Collector.HandleVdev | main.go:135-216 | sends the metrics of the tree in preorder with the parent's label as prefix, up to the first that cannot be built |
| Exporter.Collector.HandleChildren | main.go:208-213 | one child after the other, up to the first error |
| Exporter.Collector.EmitStates | main.go:151-163 | one gauge for each known state, up to the first that cannot be built |
| Exporter.Collector.EmitValues | main.go:165-203 | the nine values of a vdev in the source's order, up to the first that cannot be built |
| Exporter.Collector.EmitCounts | main.go:617-637 | one gauge for each pool state, then the error count, up to the first that cannot be built |
| Exporter.SendIff | main.go:148-203 | what is sent is a prefix, and all of it if and only if every metric can be built |
| Exporter.Collector.ReadRow | main.go:661-682 | properties of the reply, overlaid with the counters of the kstat file if there is one |
| Exporter.Collector.HandleRow | main.go:661-687 | sends the row of the dataset whose reply is in the buffer, or nothing and the error |
| Exporter.Collector.ListNext | main.go:648-659 | from the frame's prefix and cookie, one call yields the next child, ESRCH behind the last, or the error with which the kernel turns the listing down |
| Exporter.Collector.FindDatasets | main.go:644-694 | terminates on every finite tree and, for any replies and refusals, emits what `KidsWalk` says of the tree and the one buffer that all frames overwrite, up to the first error, and leaves the buffer it says |
| Exporter.Collector.EmitPool | main.go:617-642 | pool gauges, error count and vdev tree, up to the first metric that cannot be built; a missing tree is a nil dereference |
| Exporter.Collector.ReadPool | main.go:564-615 | whatever the buffer decodes to after the reply for the pool that the command names, or the kernel's error |
| Exporter.Collector.HandlePool | main.go:563-701 | for any replies and refusals: statistics, then the walk, stopping at the first error with everything before it emitted |
| Exporter.Collector.HandleConfigs | main.go:711-734 | on any bytes, one pool after the other as `CollectBytes` says, up to the first error; calls of `Next` are bounded like those of `Skip` |
| Exporter.Collector.Collect | main.go:703-736 | one pool after the other as `CollectBytes` says of the reply, or the kernel's error |
| Exporter.ReplyDecodes | main.go:661-666 | a properties reply decodes to what its list says whatever the buffer held before, if it is shorter than the buffer, and not at all otherwise |
| Exporter.PoolDecodes | main.go:566-615 | the same for pool statistics |
| Exporter.CollectInvertsEnc | main.go:711-734 | one pool for each configuration, in order, however deeply they nest |
| Exporter.KidsWalkIs | main.go:644-694 | for replies in step, the walk through the shared buffer is the walk over the tree: no reply leaves a trace in a later row, errors and refusals included |
| Exporter.NodeWalkIs | main.go:661-690 | the same for one dataset and what is below it |
| Exporter.PoolWalkIs | main.go:563-701 | for replies in step, a pool gives what its statistics and property lists say |
| ExporterTheorems.WalkVisits | main.go:644-694 | for any replies and refusals, the walk reports the datasets below the root in preorder; it ends without an error if and only if it reports all of them and no listing is turned down |
| ExporterTheorems.WalkIsPreorder | main.go:644-698 | where no listing is turned down, the recursive walk equals a loop over the preorder of the tree, errors included |
| ExporterTheorems.RowsRunIff | main.go:663-687 | such a loop ends without an error if and only if every dataset has a row, and then emits one row for each in order |
| ExporterTheorems.WalkSucceedsIff | main.go:644-698 | the walk succeeds if and only if the kernel lists everything and every dataset has a row |
| ExporterTheorems.NamesDistinct | main.go:644-698 | in a well-named tree no dataset name occurs twice |
| ExporterTheorems.WalkEmitsEachOnce | main.go:644-694 | with replies in step, a walk that succeeds emits every proper descendant exactly once, in preorder, each with the last numbers of its own properties and of its own kstat file, and all replies were shorter than the buffer |
| ExporterTheorems.RowHolds | main.go:661-687 | a row holds, field by field, the last number of each property, the last number of each counter in the file of its object set, and zero for what is given nowhere |
| ExporterTheorems.WalkRowsHold | main.go:644-694 | also a walk that stops with an error sends only such rows, in preorder |
| ExporterTheorems.ReplyReadableIff | zfs/ioctl/ioctl.go:65-69 | with or without a retry, a reply can be unmarshalled if and only if it is shorter than the buffer was before the call |
| ExporterTheorems.CollectHandlesEachPool | main.go:703-736 | a scrape handles each configured pool once and in order if the configurations are given and fit, and fails otherwise |
| ExporterTheorems.ExportVisitsLabels | main.go:135-213 | every vdev reports each of its nine values and eight states once, under its full label, in preorder |
| ExporterTheorems.ValuesComeFromStats | main.go:165-203 | each exported value is the entry of the statistics array that its metric names, and each metric is reported once |
| ExporterTheorems.RowOkIff | main.go:661-687 | a dataset has a row if and only if its reply fits, its values are numbers, its kstat file is missing or sound and its metric can be built |
| ExporterTheorems.InfoSentIff | main.go:617-642 | a pool's metrics are all sent if and only if it has a vdev tree and all of them can be built |
| ExporterTheorems.PoolSucceedsIff | main.go:563-701 | a pool is exported without error if and only if its statistics are given, fit, are well typed and hold a tree, all its metrics can be built, every listing is answered and every dataset has a row |
| ExporterTheorems.ScrapeSucceedsIff | main.go:703-736 | a scrape succeeds if and only if the configurations are given and fit and every configured pool has what it needs |
| Report.CountsHold | main.go:617-631 | the ten counts of a pool: which state number turns each gauge on, and the error count |
| Report.PoolStartsWithCounts | main.go:576-631 | whatever error there is later, the metrics of a pool start with these counts |
| Report.ParsedVdevGauges | main.go:148-203 | a parsed vdev turns on exactly one state gauge, the one for entries 1 and 2 of its statistics, and none without statistics; its nine values are entries 3, 4, 9, 15, 21, 10, 16, 22 and 23 |
| Report.TreeReports | main.go:135-216 | every vdev of a parsed tree, in preorder, reports these seventeen metrics with the numbers of its own list and under its own full label |
| Report.PoolReports | main.go:563-701 | a pool that is exported without an error reports its ten counts, then its vdevs, then its datasets, each with the numbers of its own list, and nothing else |
| Report.ScrapeReports | main.go:703-736 | a scrape that succeeds sends the reports of the configured pools, in their order, and nothing else |
| Series.VdevOnceIff | main.go:135-213 | no two metrics of a vdev tree are of one series if and only if full label and type tell its vdevs apart |
| Series.VdevOnce | main.go:135-213 | distinct, slash-free names among siblings are enough for that |
| Series.PoolOnce | main.go:563-701 | a pool whose vdev and dataset names are apart sends no series twice, with or without an error |
| Series.CollectOnce | main.go:711-734 | for configurations of distinct pools with such names, on any bytes, no two metrics are of one series |
| Series.ScrapeOnce | main.go:703-736 | the same for a whole scrape, which a pedantic registry (main.go:774) would otherwise refuse |

## Left out

- NvReader.NVListReader.Next: after an error it is not stated where the cursor stands and how many elements were read; no caller uses the reader then.
- NvReader.NVListReader.Unmarshal: the entries that are stored before an error are not stated; targets that are structs or other map types, and reflection, are not modelled.
- NvReader.UnmarshalData: the same, and only for a generic map as target.
- KStat.KStatReader.Next: after an error the cursor and the row fields are not stated.
- DatasetProps.PropsObject.ParseProps: the fields after an error are not stated; the caller drops the object.
- Exporter.Collector.HandlePool: stated for kernels whose listings are finite trees with distinct non-zero cookies and names that fit the command (`World`); any request may be turned down. A kernel that keeps asking for more room would make the retry loop run for ever and is left out.
- ExporterTheorems.PoolSucceedsIff: stated for kernels whose replies the parsers stay in step with (`RepliesInStep`); `Extents` says exactly when a parse is not.
- Exporter.Collector.FindDatasets: the reader gets the buffer's bytes by value, so aliasing between a reader and a later reply is not captured; the error variable shared by the frames is a local of each.
- Error texts are reduced to their kind; wrapped errors are only kept apart from `io.EOF`.
- The system call, the device node, and the pointer fields of the command; a response buffer of length 0, which would make taking its address panic.
- Prometheus descriptors, channels and HTTP; which metrics the library builds is a parameter, emission is appending to a sequence, and values stay integers instead of floats.
- The numbers that `handleDataset` exports for a dataset: its properties are emitted as one metric.
- Reading files below `/proc`: the files are a map from pool and object set to bytes.
- Slice capacities larger than the length, and memory behind the buffer: both are the error `Fault`.
- `Value` and `binary.Decode`, which no caller uses, and `Token`, `NameBytes` and `NumElements`, which return a field.
- The ioctl number tables, the C struct layouts and the type names of `NVType.String`.
