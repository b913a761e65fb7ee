# Proofs about the Python tooling of the full-system SSD simulator

The repository combines gem5, SimpleSSD and SPDK.  This project models the algorithms in
their Python tools and proves what the tools' comments promise, or, where a comment
promises too much, exactly when the code keeps it.  `dafny verify dfyconfig.toml` checks
everything.

| file | models |
|---|---|
| ReorderBuffer, Timeline | the O3 pipeline viewer: its bounded reorder buffer and its row drawing |
| PortBinder | the one-pass port binder of the configuration reader |
| Migration | the checkpoint upgrader's dependency rounds and its registry |
| Framing, DepTrace, TraceTools | varints, message framing, the dependency-trace printer and parser, and both converters end to end |
| SectionNames, Aggregator | the checkpoint aggregator: renaming, relocation, padding |
| MemInfo, Mempools | the memory dump reader's two association passes and its totals |
| SimControl, CpuSwitch | periodic checkpoints and repeated CPU switching against an arbitrary simulator |
| TesterTree | the memory tester's recursive cache tree |
| CopyrightYears, LatencySweep, Histogram | year ranges, the latency sweep, the latency histogram |
| Common, Bits, Text, PyList | shared types, integers as bits, decimal text and splitting, list removal |

Code that updates state is a class or a method with loops, specified by functions; the
lemmas are about those functions.  A program error (exception or exit) is a `None`, a
`false` or an error constructor.

Where code and comments disagree the model follows the code:

- The pipeline viewer's comment says later arrivals come out of order.  Some do not
  (`LateYetOrdered`); the exact condition is `OrderedExactlyWhenInTime`.
- The port binder's comment says sorting makes one of each pair bindable.  It does not
  (`SortedPassCanMissAnOrder`); the exact condition is `PassSucceedsExactlyWhenSchedulable`.
- The upgrader's header says a tag waits for the removal of a downgraded tag it depends
  on.  It never does (`NeverWaitsForRemoval`), and can abort without any cycle
  (`DowngradeDependencyCanAbort`); the exact condition is `CompletesExactlyWhenRanked`.
- The checkpoint option's comment says guest checkpoints are ignored.  One inside a period
  ends the schedule (`GuestCheckpointEndsSchedule`); the exact condition for taking every
  checkpoint is `TakesAllExactly`.
- Draining takes simulated time, so checkpoints drift off the requested grid; the exact
  condition is `OnGridExactly`.
- The checkpoint loop compares its nominal tick with maxtick, so a drain can move a
  checkpoint, and the end of the run, past maxtick (`DrainPassesMaxtick`); the exact
  condition is `WithinMaxtickExactly`.
- The guard before the switching loop ignores the current tick (`FitsExactly`).
- Draining for a CPU switch can pass maxtick, and the switching loop then asks for a
  negative number of ticks (`DrainPassesSwitchLimit`); the exact condition is
  `TimeStaysBelowMaxtick`.
- Walking a list while removing from it skips elements (`PassExact`, `EmptyZoneSkips`); the
  exact condition for the whole association is `AssociationExact`.

## Model

| member | source | states |
|---|---|---|
| ReorderBuffer.OrderedExactlyWhenInTime | SimpleSSD-FullSystem/util/o3-pipeview.py:47-52 | For every trace and all thresholds min <= max, the emitted stream is in sequence order if and only if each instruction is in time at every drain point, and then it is the stable sort of the whole trace |
| ReorderBuffer.LateBoundPrintsSorted | SimpleSSD-FullSystem/util/o3-pipeview.py:47-52 | The documented promise: if no instruction arrives more than min_threshold places after its rank in sequence order, what is printed is the sorted trace, of which exactly the instructions within the bounds are kept |
| ReorderBuffer.LateYetOrdered | SimpleSSD-FullSystem/util/o3-pipeview.py:51-52 | The "otherwise they will appear out of order" half of the comment is too strong: every reversed trace longer than min_threshold + 1 that fits into the queue is late and still comes out sorted |
| ReorderBuffer.ShortTraceInTime | SimpleSSD-FullSystem/util/o3-pipeview.py:159-164 | A trace that never fills the queue is always emitted in order |
| ReorderBuffer.RunConserves | SimpleSSD-FullSystem/util/o3-pipeview.py:159-171 | In every run emitted plus queued instructions are exactly the arrivals, and between calls the queue holds at most max_threshold |
| ReorderBuffer.RunSchedule | SimpleSSD-FullSystem/util/o3-pipeview.py:159-171 | How many instructions have been emitted after any number of arrivals: drains happen exactly at max + 1 arrivals and every max + 1 - min after that, each down to min |
| ReorderBuffer.EmittedConserves | SimpleSSD-FullSystem/util/o3-pipeview.py:146-171 | After the end-of-file drain every arrival has been emitted exactly once |
| ReorderBuffer.EmittedOutOfOrder | SimpleSSD-FullSystem/util/o3-pipeview.py:163-171 | One instruction that is late at one drain point is enough for the stream to be out of order |
| ReorderBuffer.StableSortCorrect | SimpleSSD-FullSystem/util/o3-pipeview.py:153-169 | The sort used by print_insts: sorted, a permutation, and instructions of equal sequence number keep their order |
| ReorderBuffer.FilterExact | SimpleSSD-FullSystem/util/o3-pipeview.py:177-187 | The filter keeps exactly the instructions within the five bounds, each as often as it occurs, in order; all of them if the bounds are off |
| ReorderBuffer.Viewer.PrintInsts | SimpleSSD-FullSystem/util/o3-pipeview.py:167-188 | The drain loop changes the buffer as Drain says, and prints what it takes off, filtered; FilterExact says what that is |
| ReorderBuffer.Viewer.QueueInst | SimpleSSD-FullSystem/util/o3-pipeview.py:159-164 | Appends the instruction and drains to min_threshold exactly when the queue exceeds max_threshold |
| ReorderBuffer.Viewer.ProcessTrace | SimpleSSD-FullSystem/util/o3-pipeview.py:127-150 | What is printed of a whole trace: exactly the instructions within the five bounds, written out as inequalities, each as often as the trace has it, in the order of the emitted stream and, under the lateness bound, of the sorted trace; everything if the bounds are off |
| Timeline.DrawnOnExactlyOneRow | SimpleSSD-FullSystem/util/o3-pipeview.py:227-262 | A reached stage is drawn on some row if and only if its tick is at or after the start of the first row, and never on two rows |
| Timeline.StageDrawn | SimpleSSD-FullSystem/util/o3-pipeview.py:250-281 | Each such stage appears with its own letter and column on the one row that covers its tick, except a dispatch that coincides with issue |
| Timeline.RowKeepsTicksApart | SimpleSSD-FullSystem/util/o3-pipeview.py:237-262 | Two different ticks of one row, wrapped or not, never share a residue |
| Timeline.ResiduesDiffer | SimpleSSD-FullSystem/util/o3-pipeview.py:237-262 | Different ticks less than a row apart have different residues |
| Timeline.RowOrdered | SimpleSSD-FullSystem/util/o3-pipeview.py:263-281 | The cells of every row go from left to right inside its width |
| Timeline.RowTextExact | SimpleSSD-FullSystem/util/o3-pipeview.py:264-283 | The text of any row, with or without events, is as long as the width plus the number of events that share a cycle with the one before; it fits exactly when none do |
| Timeline.RowTextLetter | SimpleSSD-FullSystem/util/o3-pipeview.py:268-281 | Each letter stands at its own column, moved right by the earlier events that share a cycle |
| Timeline.RowTextDots | SimpleSSD-FullSystem/util/o3-pipeview.py:272-282 | Every other position of a row holds the dot |
| Timeline.SortEventsCorrect | SimpleSSD-FullSystem/util/o3-pipeview.py:263-263 | The events of a row are ordered by residue and then stage name, and are a permutation of those collected |
| Timeline.CompactRowEmpty | SimpleSSD-FullSystem/util/o3-pipeview.py:253-266 | The compact row has no events, which the program does not handle, exactly when no stage was reached |
| Timeline.StageTable | SimpleSSD-FullSystem/util/o3-pipeview.py:198-224 | Name, letter and tick of each stage, and which stages there are |
| Timeline.RowCount | SimpleSSD-FullSystem/util/o3-pipeview.py:227-242 | One row exactly if no stage lies a row or more after fetch, otherwise those from the row of fetch to the row of the last stage |
| Timeline.RowWindow | SimpleSSD-FullSystem/util/o3-pipeview.py:250-259 | The ticks a row covers: all up to a row after fetch if there is one row, otherwise those with its quotient |
| Timeline.RowStages | SimpleSSD-FullSystem/util/o3-pipeview.py:253-281 | The cells of a row are those of the reached and visible stages of its ticks, each once, by position in the row and then by name |
| Timeline.CollectEvents | SimpleSSD-FullSystem/util/o3-pipeview.py:255-262 | The events of a row, in stage order, against the specification of which stages fall into the row |
| Timeline.DrawRow | SimpleSSD-FullSystem/util/o3-pipeview.py:264-283 | The drawing loop with its running position produces the specified row text |
| Timeline.PrintInst | SimpleSSD-FullSystem/util/o3-pipeview.py:191-283 | In ticks: one row exactly if no stage lies a row or more after fetch, otherwise the rows from that of fetch to that of the last stage, with their start ticks; each row shows exactly the stages of its ticks, by position and name, each letter in its column and dots elsewhere, of the kind the retire tick asks for; fails exactly on a single row on which nothing falls |
| PortBinder.PassSucceedsExactlyWhenSchedulable | SimpleSSD-FullSystem/configs/example/read_config.py:321-346 | For every well-formed list the greedy pass binds everything if and only if some choice of positions, bound in the order of the list, does, and if and only if one listing of each wire can be picked so that on each port the picks come in index order |
| PortBinder.WorkingChoiceIsSchedule | SimpleSSD-FullSystem/configs/example/read_config.py:321-346 | Any choice of positions that can be bound in list order and binds every wire has its picks in index order |
| PortBinder.SortedPassCanMissAnOrder | SimpleSSD-FullSystem/configs/example/read_config.py:321-323 | The comment is too strong: three wires that can be bound one after the other but of which the sorted pass binds only two, whatever the port names |
| PortBinder.StarWiringBinds | SimpleSSD-FullSystem/configs/example/read_config.py:300-346 | If every wire has an end on a port with no other wire, the sorted pass binds every wire and the half-count test does not raise |
| PortBinder.PassSound | SimpleSSD-FullSystem/configs/example/read_config.py:332-341 | For any list at all: when an end is bound the lower indices of its port have been, only listed wires are bound, none twice in either direction |
| PortBinder.HalfCountExact | SimpleSSD-FullSystem/configs/example/read_config.py:343-346 | On a symmetric list the half-count test passes exactly when every listed wire was bound |
| PortBinder.ConnOrder | SimpleSSD-FullSystem/configs/example/read_config.py:158-160 | The comparison of connections is a total order |
| PortBinder.SortsByNames | SimpleSSD-FullSystem/configs/example/read_config.py:158-160 | Which of two listings comes first: by the object names of the first ends in dictionary order, then their port names, then their indices, then the second ends |
| PortBinder.SortIsTheOrder | SimpleSSD-FullSystem/configs/example/read_config.py:332-332 | Exactly one list has the given connections in that order, and the sort returns it |
| Text.StringLeIsDictionary | SimpleSSD-FullSystem/configs/example/read_config.py:158-160 | String comparison is dictionary order: a prefix first, otherwise the first difference decides |
| PortBinder.SortCorrect | SimpleSSD-FullSystem/configs/example/read_config.py:332-332 | The list walked by the pass is sorted and a permutation of the given one |
| PortBinder.GatherWellFormed | SimpleSSD-FullSystem/configs/example/read_config.py:280-298 | A gathered list is well formed as soon as every wire is listed from both ends |
| PortBinder.OnePass | SimpleSSD-FullSystem/configs/example/read_config.py:308-341 | The loop with its dictionary of counters makes exactly the connections of the specification |
| PortBinder.BindPorts | SimpleSSD-FullSystem/configs/example/read_config.py:300-346 | Result and exception for every list of both orderings, in terms of the one list in dictionary order of object name, port name and index; on well-formed lists it succeeds exactly when schedulable, then binds every wire in turn, and always succeeds on star wirings |
| Migration.CompletesExactlyWhenRanked | SimpleSSD-FullSystem/util/cpt_upgrader.py:240-252 | For every registry and every tag set, with any dependencies: the migration completes if and only if the pending tags can be ranked, just above the pending upgrades they depend on and not above a downgraded tag they depend on, all other dependencies being present |
| Migration.AbortsExactlyOnCycle | SimpleSSD-FullSystem/util/cpt_upgrader.py:240-252 | With audited dependencies and none on a downgraded tag, the migration aborts if and only if the pending tags contain a dependency cycle |
| Migration.FinalTags | SimpleSSD-FullSystem/util/cpt_upgrader.py:240-252 | A completed migration leaves the old tags plus all upgraders minus all downgraders; an aborted one leaves a non-empty set of pending tags of which none is ready |
| Migration.EveryRun | SimpleSSD-FullSystem/util/cpt_upgrader.py:240-252 | Every round applies only pending tags whose dependencies are present when it starts, no tag is applied twice, and exactly the unapplied tags are reported |
| Migration.NeverWaitsForRemoval | SimpleSSD-FullSystem/util/cpt_upgrader.py:60-65 | The header says a tag waits until a downgraded tag it depends on has been removed; no run ever does this |
| Migration.DowngradeDependencyCanAbort | SimpleSSD-FullSystem/util/cpt_upgrader.py:140-144 | A registry without any cycle that still aborts because of a dependency on a downgraded tag |
| Migration.Checkpoint.Update | SimpleSSD-FullSystem/util/cpt_upgrader.py:146-154 | Adds the tag of an upgrader, removes the tag of a downgrader |
| Migration.Checkpoint.ApplyRound | SimpleSSD-FullSystem/util/cpt_upgrader.py:248-250 | One round in any visiting order has the effect of the specification and extends the log in dependency order |
| Migration.Checkpoint.Process | SimpleSSD-FullSystem/util/cpt_upgrader.py:238-252 | The whole loop for any set iteration order: outcome and tags of the specification, and a log in which each tag occurs once and after every dependency the checkpoint lacked |
| Migration.Upgraders.LoadTag | SimpleSSD-FullSystem/util/cpt_upgrader.py:173-185 | For one tag: forward dependencies turned around, and an error exactly when a named tag does not exist |
| Migration.Upgraders.LoadAll | SimpleSSD-FullSystem/util/cpt_upgrader.py:172-185 | For any dictionary order: succeeds exactly when every named tag exists, and then each tag depends on what it named and on what named it |
| Framing.DecodeEncoded | SimpleSSD-FullSystem/util/protolib.py:101-129 | Decoding an encoded number whatever follows: the low 32 bits below 2^63, those minus 2^32 below 2^70, an error above |
| Framing.EncodeByte | SimpleSSD-FullSystem/util/protolib.py:146-158 | The varint format: seven bits per byte, lowest first, and a continuation bit on every byte but the last |
| Framing.VarintRoundTrip | SimpleSSD-FullSystem/util/protolib.py:101-158 | A number comes back as itself if and only if it is below 2^32 |
| Framing.ReadBackExact | SimpleSSD-FullSystem/util/protolib.py:131-166 | Reading a written file delivers exactly the messages written if and only if no message is empty or of a size the varint reader mangles |
| Framing.EncodeVarint32 | SimpleSSD-FullSystem/util/protolib.py:146-158 | The byte loop appends the base-128 form |
| Framing.CollectBits | SimpleSSD-FullSystem/util/protolib.py:108-129 | The loop with its shift and masks computes the specified bits and leaves the file right behind the varint |
| Framing.DecodeVarint32 | SimpleSSD-FullSystem/util/protolib.py:101-129 | Value, size and file position, end of file and overlong varints included |
| Framing.FinishVarint | SimpleSSD-FullSystem/util/protolib.py:121-126 | Mask and sign adjustment of the collected bits |
| Framing.EncodeMessage | SimpleSSD-FullSystem/util/protolib.py:160-166 | Appends length and message |
| Framing.DecodeMessage | SimpleSSD-FullSystem/util/protolib.py:131-144 | Delivers the next message and moves past it, or reports that there is none |
| Framing.FramesUnique | SimpleSSD-FullSystem/util/protolib.py:146-166 | Different lists of messages never have the same frames, whatever the sizes |
| Framing.WriteThenRead | SimpleSSD-FullSystem/util/protolib.py:131-166 | Writer loop, then reader loop: what is read is what was written exactly for the sizes the format carries |
| DepTrace.PrintParseExact | SimpleSSD-FullSystem/util/decode_inst_dep_trace.py:157-206 | Parsing a printed record gives it back, defaults written out, if and only if it is not INVALID, has no virtual address or address-space id, and has all memory fields exactly if it is a load or store |
| DepTrace.ParseExact | SimpleSSD-FullSystem/util/encode_inst_dep_trace.py:151-195 | Which lines are accepted, and as what: three parts between colons, the fields in their order and widths, the type names, and the non-empty dependency items; fields beyond those are ignored |
| DepTrace.PrintSays | SimpleSSD-FullSystem/util/decode_inst_dep_trace.py:157-206 | A printed line says the record it was printed from, in that format |
| DepTrace.TraceRoundTrip | SimpleSSD-FullSystem/util/encode_inst_dep_trace.py:150-198 | The same for whole trace files of any length |
| DepTrace.WriteRecord | SimpleSSD-FullSystem/util/decode_inst_dep_trace.py:160-206 | The piecewise writes of one record produce its line |
| DepTrace.ReadInfo | SimpleSSD-FullSystem/util/encode_inst_dep_trace.py:155-180 | The reads of the single fields in turn: the numbers with their widths, the type lookup, the exit on INVALID, the four fields of loads and stores, each with its error exit |
| DepTrace.ReadRecord | SimpleSSD-FullSystem/util/encode_inst_dep_trace.py:151-195 | A line is accepted exactly if it says some record, field by field and dependency by dependency, and is read as that record; printed records are read back with defaults filled in, and whatever is read prints and reads back as itself |
| DepTrace.ParseSettles | SimpleSSD-FullSystem/util/encode_inst_dep_trace.py:151-195 | For every line: what the parser accepts is in range and printable, and printing and parsing it again changes nothing |
| DepTrace.ReadDeps | SimpleSSD-FullSystem/util/encode_inst_dep_trace.py:184-195 | The loops over the repeated fields |
| DepTrace.DecodeFile | SimpleSSD-FullSystem/util/decode_inst_dep_trace.py:157-206 | The decoder loop over all records |
| DepTrace.EncodeFile | SimpleSSD-FullSystem/util/encode_inst_dep_trace.py:150-198 | The encoder loop over all lines, stopping at the first line it cannot read |
| TraceTools.FileUnique | SimpleSSD-FullSystem/util/encode_inst_dep_trace.py:129-198 | For a serialiser that its parser inverts, different traces never have the same file |
| TraceTools.MagicDecides | SimpleSSD-FullSystem/util/decode_inst_dep_trace.py:130-160 | A file is read only if it starts with the magic number; with nothing behind it there are no records |
| TraceTools.ConvertersInvert | SimpleSSD-FullSystem/util/encode_inst_dep_trace.py:129-198 | A framed trace converted to text prints every record; converting the text back yields the file of the same records with defaults filled in if and only if every record is printable |
| SectionNames.RenameInjective | SimpleSSD-FullSystem/util/checkpoint_aggregator.py:69-70 | Inserting a tag of fixed length after every "cpu" is injective in the name and in the tag |
| SectionNames.RenameExact | SimpleSSD-FullSystem/util/checkpoint_aggregator.py:69-70 | The tag is put behind the first "cpu", and so on behind it |
| SectionNames.RenameNothing | SimpleSSD-FullSystem/util/checkpoint_aggregator.py:68-70 | A name without "cpu" is left alone |
| SectionNames.HasCpuExact | SimpleSSD-FullSystem/util/checkpoint_aggregator.py:68-68 | The search finds "cpu" exactly if it stands somewhere in the name |
| SectionNames.ZfillFacts | SimpleSSD-FullSystem/util/checkpoint_aggregator.py:59-70 | Every checkpoint number is padded to the same width and can be read back |
| SectionNames.NoCollision | SimpleSSD-FullSystem/util/checkpoint_aggregator.py:59-70 | No two "cpu" sections of the same or different checkpoints get one name, for any number of checkpoints |
| Aggregator.MergedNamesDistinct | SimpleSSD-FullSystem/util/checkpoint_aggregator.py:67-92 | All sections of the merged configuration have different names |
| Aggregator.StartExact | SimpleSSD-FullSystem/util/checkpoint_aggregator.py:97-112 | A checkpoint's memory starts where its pages are relocated to if and only if no earlier image was too short |
| Aggregator.ByteRelocated | SimpleSSD-FullSystem/util/checkpoint_aggregator.py:72-112 | Every byte of every page is found unchanged at its relocated address |
| Aggregator.RelocatedRangesDisjoint | SimpleSSD-FullSystem/util/checkpoint_aggregator.py:72-99 | Pages of different checkpoints are never relocated to one address |
| Aggregator.AddressKeepsMeaning | SimpleSSD-FullSystem/util/checkpoint_aggregator.py:72-112 | The address a relocated section holds leads to the byte its old address led to |
| Aggregator.SectionMerged | SimpleSSD-FullSystem/util/checkpoint_aggregator.py:67-92 | Every "cpu" section of every checkpoint is in the merged configuration |
| Aggregator.RangeSizeExact | SimpleSSD-FullSystem/util/checkpoint_aggregator.py:121-134 | The padded page count in bytes is the length of the image if and only if no image was too short, and covers the requested size with less than a page to spare; WithRangeExact and MergedExactly say that it is what is written |
| Aggregator.WithRangeExact | SimpleSSD-FullSystem/util/checkpoint_aggregator.py:134-134 | The memory section gets the number as range_size and keeps its other items; no other section changes |
| Aggregator.MaxTickExact | SimpleSSD-FullSystem/util/checkpoint_aggregator.py:85-87 | The tick is at least 0 and every checkpoint's, and is one of these |
| Aggregator.FixedExact | SimpleSSD-FullSystem/util/checkpoint_aggregator.py:117-137 | pagePtr is the sum of the page counts, nextPID the number of checkpoints and curTick the latest tick |
| Aggregator.RelocateMoves | SimpleSSD-FullSystem/util/checkpoint_aggregator.py:68-81 | A "cpu" section keeps every item but paddr, which moves by the pages before it, and M5_pid, which becomes the checkpoint's number exactly in the sections of the pattern |
| Aggregator.IsFdMapExact | SimpleSSD-FullSystem/util/checkpoint_aggregator.py:80-80 | That pattern: the name ends in workload, any character, FdMap256 |
| Aggregator.MergedExactly | SimpleSSD-FullSystem/util/checkpoint_aggregator.py:67-137 | Every section that has to be written is, and each written one comes from a "cpu" section of some checkpoint, another section of the last, or is one of the two made up |
| Aggregator.MergedImageRight | SimpleSSD-FullSystem/util/checkpoint_aggregator.py:101-129 | Each byte of each checkpoint at its relocated address, and the character 0 behind them all |
| Aggregator.ReadPages | SimpleSSD-FullSystem/util/checkpoint_aggregator.py:105-112 | The page-wise read loop, short images included |
| Aggregator.EmitSections | SimpleSSD-FullSystem/util/checkpoint_aggregator.py:67-92 | The loop over one checkpoint's sections |
| Aggregator.PadImage | SimpleSSD-FullSystem/util/checkpoint_aggregator.py:121-129 | The padding loop and its page count |
| Aggregator.MergeAll | SimpleSSD-FullSystem/util/checkpoint_aggregator.py:61-112 | The loop over the checkpoints: page offset, latest tick, sections and image |
| Aggregator.PlainFromLast | SimpleSSD-FullSystem/util/checkpoint_aggregator.py:79-92 | A section without "cpu" in its name, other than the two made up at the end, is written exactly if the last checkpoint has it |
| Aggregator.StoreFromLast | SimpleSSD-FullSystem/util/checkpoint_aggregator.py:88-134 | The section that receives range_size exists exactly when the last checkpoint has it |
| Aggregator.Aggregate | SimpleSSD-FullSystem/util/checkpoint_aggregator.py:44-139 | The output item by item and byte by byte: which sections are written and where each comes from, every item kept but paddr and M5_pid, range_size, pagePtr, nextPID and curTick as numbers read back, each byte at its relocated address, padding; no result exactly for an empty list or a last checkpoint without the memory section |
| MemInfo.PassExact | spdk/scripts/dpdk_mem_info.py:92-95 | One pass over a list that shrinks while it is walked moves exactly the elements that contain the zone if and only if no two neighbours both do |
| MemInfo.PassConserves | spdk/scripts/dpdk_mem_info.py:92-95 | No pass loses or duplicates an element |
| MemInfo.AllPassesConserve | spdk/scripts/dpdk_mem_info.py:89-95 | Nor do all passes together |
| MemInfo.AssociationExact | spdk/scripts/dpdk_mem_info.py:89-95 | For any list of different elements and any list of different zones: every element records the first zone it contains if and only if no pass meets two neighbours that contain its zone and no earlier one; then each element is in the right list |
| MemInfo.OneOwnerPlain | spdk/scripts/dpdk_mem_info.py:89-95 | That condition holds if no zone lies in two elements |
| MemInfo.DisjointOneOwner | spdk/scripts/dpdk_mem_info.py:124-130 | Disjoint elements and non-empty zones never put a zone in two elements |
| MemInfo.ContainsExact | spdk/scripts/dpdk_mem_info.py:124-130 | An element contains a zone exactly if each of its addresses is the element's; an empty zone, if its address is one of the element's or its end |
| MemInfo.EmptyZoneSkips | spdk/scripts/dpdk_mem_info.py:124-130 | An empty zone on the border of two disjoint elements lies in both, and one of them is left behind |
| MemInfo.Element.CheckMemzoneCompatibility | spdk/scripts/dpdk_mem_info.py:124-130 | Containment test and recorded zone |
| MemInfo.Visit | spdk/scripts/dpdk_mem_info.py:93-95 | One element: it is moved to the other list exactly if it contains the zone, which it then records |
| MemInfo.WalkHeap | spdk/scripts/dpdk_mem_info.py:92-95 | The inner loop with Python's iteration over a shrinking list |
| MemInfo.ZoneInHeap | spdk/scripts/dpdk_mem_info.py:91-95 | One zone on one heap: lists and recorded zones |
| MemInfo.ZoneInHeaps | spdk/scripts/dpdk_mem_info.py:91-95 | One zone on all heaps, which share no element |
| MemInfo.Associate | spdk/scripts/dpdk_mem_info.py:89-95 | All zones on all heaps: each heap ends as the passes say and loses no element; its recorded zones and lists are right exactly when no pass met neighbours, so always for disjoint elements and non-empty zones |
| Mempools.TotalsExact | spdk/scripts/dpdk_mem_info.py:31-47 | Pool totals and remaining zones never add up to less than all zones, and to exactly that if and only if no zone of positive size carries two pool names |
| Mempools.OccursExact | spdk/scripts/dpdk_mem_info.py:99-101 | A pool name matches a zone name exactly if it stands somewhere in it |
| Mempools.NameInsideName | spdk/scripts/dpdk_mem_info.py:97-106 | A pool whose name occurs in another pool's name makes the summary count a zone twice |
| Mempools.Memory.Collect | spdk/scripts/dpdk_mem_info.py:99-101 | One pool gets, in order, the zones whose name contains its own |
| Mempools.Memory.Release | spdk/scripts/dpdk_mem_info.py:104-106 | Removing a pool's zones from the general list removes exactly those |
| Mempools.Memory.Associate | spdk/scripts/dpdk_mem_info.py:97-106 | Each pool holds its zones and the list keeps exactly the zones of no pool, in order |
| Mempools.SizeSum | spdk/scripts/dpdk_mem_info.py:43-47 | The accumulator loop of the size totals |
| SimControl.EveryRunOnSchedule | SimpleSSD-FullSystem/configs/common/Simulation.py:231-266 | For every run: how many checkpoints it takes, computed from the script of replies and the command line; checkpoint k is requested at when + k * period plus the first k drains (or exactly on the grid after an interruption by the guest) and written after drain k; at most max(1, max_checkpoints) are taken, and the last nominal tick is within maxtick |
| SimControl.OnGridExactly | SimpleSSD-FullSystem/configs/common/Simulation.py:231-266 | All checkpoints are requested exactly at when + k * period if and only if no drain of the script takes time, up to the last checkpoint that no interruption precedes |
| SimControl.WithinMaxtickExactly | SimpleSSD-FullSystem/configs/common/Simulation.py:250-264 | The checkpoints after the first are requested at or before maxtick if and only if the grid tick of the last one that no interruption precedes, plus the drains before it, is; the loop itself compares the nominal tick |
| SimControl.DrainPassesMaxtick | SimpleSSD-FullSystem/configs/common/Simulation.py:252-255 | One tick of draining makes the second checkpoint come after maxtick, and another run end after maxtick |
| SimControl.GuestCheckpointEndsSchedule | SimpleSSD-FullSystem/configs/common/Simulation.py:256-264 | In a whole run a guest checkpoint inside a period ends the schedule, though the comment at lines 701-704 says it is ignored: no checkpoint after that period is taken, so fewer than fit as soon as another one would fit |
| SimControl.GuestCheckpointExample | SimpleSSD-FullSystem/configs/common/Simulation.py:256-264 | A run of which three checkpoints fit and two are taken |
| SimControl.TakesAllExactly | SimpleSSD-FullSystem/configs/common/Simulation.py:231-266 | Every checkpoint that fits is taken if and only if the first one is reached, each later period but the last runs to its limit, and in the last one guest checkpoints, if any, come before its nominal end and are followed by the limit |
| SimControl.RunEnds | SimpleSSD-FullSystem/configs/common/Simulation.py:231-266 | No run ends later than maxtick (or when) plus its drains; an uninterrupted one that still has checkpoints to take ends exactly there; exactly which scripts make the program raise, and with which exit cause every other one ends |
| SimControl.Machine.Checkpoint | SimpleSSD-FullSystem/src/python/m5/simulate.py:225-233 | Drains first; records the ticks of request and writing |
| SimControl.Machine.SkipTo | SimpleSSD-FullSystem/configs/common/Simulation.py:239-241 | The loop that skips guest checkpoints |
| SimControl.TakePeriods | SimpleSSD-FullSystem/configs/common/Simulation.py:250-264 | The loop over the periods against its specification |
| SimControl.TakeCheckpoints | SimpleSSD-FullSystem/configs/common/Simulation.py:231-266 | The tick-based branch against its specification |
| CpuSwitch.HandoversAlternate | SimpleSSD-FullSystem/configs/common/Simulation.py:412-430 | In every run each switch hands over from exactly the running CPUs to the others and back, and is never refused |
| CpuSwitch.RefusedExactly | SimpleSSD-FullSystem/src/python/m5/simulate.py:264-290 | For any pairs and any running CPUs: a switch is refused exactly if it is the first and some pair hands over from a CPU that is not running or to one that is |
| CpuSwitch.EverySwitchOnScript | SimpleSSD-FullSystem/configs/common/Simulation.py:412-430 | Every run takes exactly the switches its script reaches, each requested and done at the tick computed from period and drains; a negative tick count is passed if and only if draining for one of them passes maxtick, and any other run ends with the cause of the reply after its last switch |
| CpuSwitch.SwitchTicks | SimpleSSD-FullSystem/configs/common/Simulation.py:415-421 | Switch k is requested k + 1 periods and k drains after the start and done one drain later |
| CpuSwitch.TimeStaysBelowMaxtick | SimpleSSD-FullSystem/configs/common/Simulation.py:412-430 | If a period fits at entry no switch is requested after maxtick, switches are at least a period apart, and a run that reports the limit is exactly at maxtick; it passes maxtick, and then asks for a negative number of ticks, if and only if draining for a switch it reaches does |
| CpuSwitch.DrainPassesSwitchLimit | SimpleSSD-FullSystem/configs/common/Simulation.py:421-429 | One drain of a single tick is enough: the run ends after maxtick with a negative tick count |
| CpuSwitch.FitsExactly | SimpleSSD-FullSystem/configs/common/Simulation.py:722-724 | For all guest behaviours and all drains the switches are requested within maxtick if and only if a period fits after the current tick; the guard at the call compares with the period alone |
| CpuSwitch.SetupIsExact | SimpleSSD-FullSystem/configs/common/Simulation.py:526-531 | The list built for the loop starts from exactly the running CPUs, with and without a first switch, and pairs each with the one of its number |
| CpuSwitch.SwapPairs | SimpleSSD-FullSystem/configs/common/Simulation.py:423-426 | The loop that turns the pairs around |
| CpuSwitch.SwitchRepeatedly | SimpleSSD-FullSystem/configs/common/Simulation.py:412-430 | The loop against its specification |
| TesterTree.TestersCreatedAsCounted | SimpleSSD-FullSystem/configs/example/memtest.py:119-130 | For every specification that passes the checks the recursive build succeeds and connects as many tester ports as the closed-form count |
| TesterTree.EveryPortOnce | SimpleSSD-FullSystem/configs/example/memtest.py:239-300 | No two subsystems are stored under one attribute name, and each port of each cache and tester is connected exactly once |
| TesterTree.WiredAsPlanned | SimpleSSD-FullSystem/configs/example/memtest.py:239-300 | The connections made are exactly these: each cache's memory side to its own subsystem's crossbar, each tester to the cache of its number or at the top to the crossbar or the cache below, each crossbar's master side to the tree cache it stands on, the caches one level down being used in turn |
| TesterTree.SubsAsPlanned | SimpleSSD-FullSystem/configs/example/memtest.py:242-248 | The subsystems of each level are numbered from 0 without gaps, as many as there are tree caches below |
| TesterTree.WiresDistinct | SimpleSSD-FullSystem/configs/example/memtest.py:239-300 | No connection is made twice |
| TesterTree.TesterReachesMemory | SimpleSSD-FullSystem/configs/example/memtest.py:262-300 | From every tester the connections lead down to the lowest crossbar |
| TesterTree.NameInjective | SimpleSSD-FullSystem/configs/example/memtest.py:248-248 | The formatted attribute name determines level and index |
| TesterTree.ProtoScaled | SimpleSSD-FullSystem/configs/example/memtest.py:195-217 | Prototype sizes grow with the multiplier, latencies tenfold per level, inclusive and exclusive levels alternate |
| TesterTree.CountTesters | SimpleSSD-FullSystem/configs/example/memtest.py:119-130 | The two accumulator loops compute the closed form |
| TesterTree.ScalePrototypes | SimpleSSD-FullSystem/configs/example/memtest.py:193-217 | One prototype per level, memory side first |
| TesterTree.Builder.MakeCacheLevel | SimpleSSD-FullSystem/configs/example/memtest.py:239-300 | The recursive builder with its global counters makes the connections of the specification, which WiredAsPlanned states one by one, and gives each subsystem its caches; every list lookup is in range |
| TesterTree.Builder.MakeKids | SimpleSSD-FullSystem/configs/example/memtest.py:280-282 | The loop over the caches that fan out |
| TesterTree.BuildSystem | SimpleSSD-FullSystem/configs/example/memtest.py:193-303 | The whole construction: no error exit; exactly the planned subsystems, caches with the prototype of their level, and connections, each once; every port connected once, counted testers, and a way from each tester to the lowest crossbar |
| CopyrightYears.RunsCorrect | SimpleSSD-FullSystem/util/find_copyrights.py:186-197 | The printed ranges are increasing, disjoint, cannot be merged, and cover exactly the years |
| CopyrightYears.PieceYears | SimpleSSD-FullSystem/util/find_copyrights.py:99-116 | Reading one printed range never adds a year, and gives the range back if and only if it is a single year or has four-digit ends |
| CopyrightYears.DatesRoundTrip | SimpleSSD-FullSystem/util/find_copyrights.py:98-116 | Reading a printed set of years gives the set back if and only if each printed range has four-digit ends |
| CopyrightYears.FourDigitYears | SimpleSSD-FullSystem/util/find_copyrights.py:98-116 | All non-empty sets of four-digit years come back |
| CopyrightYears.PrintDates | SimpleSSD-FullSystem/util/find_copyrights.py:175-199 | The popping loop prints the maximal ranges; the empty list raises |
| CopyrightYears.DateStrFormat | SimpleSSD-FullSystem/util/find_copyrights.py:180-199 | The printed text is the maximal ranges in order between commas, each as one year or as first and last year around a dash |
| CopyrightYears.NumberRead | SimpleSSD-FullSystem/util/find_copyrights.py:109-114 | A printed year is read back, with a minus sign exactly if it is negative |
| CopyrightYears.ReadDates | SimpleSSD-FullSystem/util/find_copyrights.py:99-116 | The reading loop against its specification |
| CopyrightYears.RangeRead | SimpleSSD-FullSystem/util/find_copyrights.py:98-108 | Two four-digit numbers around a dash and blanks, at the start of an item, are read as a range of years, whatever follows |
| CopyrightYears.OnlyRangesMatch | SimpleSSD-FullSystem/util/find_copyrights.py:98-105 | Nothing else is read as a range |
| CopyrightYears.SingleYear | SimpleSSD-FullSystem/util/find_copyrights.py:109-114 | An item that is no range adds its number if it is one, and nothing otherwise |
| CopyrightYears.YearsIgnoreBlanks | SimpleSSD-FullSystem/util/find_copyrights.py:100-100 | Blanks around an item make no difference |
| CopyrightYears.PrintThenRead | SimpleSSD-FullSystem/util/find_copyrights.py:99-199 | Printing and reading end to end: the years come back exactly when every printed range can be read; no years cannot be printed |
| LatencySweep.IsPow2Exact | SimpleSSD-FullSystem/configs/dram/lat_mem_rd.py:146-147 | The bit test accepts exactly the powers of two |
| LatencySweep.OctaveStart | SimpleSSD-FullSystem/configs/dram/lat_mem_rd.py:154-162 | Every fourth size is the next power of two |
| LatencySweep.OctavePoints | SimpleSSD-FullSystem/configs/dram/lat_mem_rd.py:154-162 | The four points of an octave are a quarter of it apart |
| LatencySweep.SweepCovers | SimpleSSD-FullSystem/configs/dram/lat_mem_rd.py:152-162 | Every power of two from 4096 to the last size is visited, sizes increase, and no step exceeds a quarter of the size |
| LatencySweep.Sweep | SimpleSSD-FullSystem/configs/dram/lat_mem_rd.py:154-162 | The loop ends for every limit and yields a sweep |
| Histogram.RangesMeet | spdk/scripts/histogram.py:39-43 | Each range ends where the next begins |
| Histogram.Relative | spdk/scripts/histogram.py:39-43 | From range 1 on no bucket is wider than its range start divided by the buckets per range |
| Histogram.BucketsTile | spdk/scripts/histogram.py:32-43 | The buckets as the loops compute them tile the range without gap or overlap, are precise, and are equally wide within a range and twice as wide in the next |
| Histogram.PercentGrowsBelow100 | spdk/scripts/histogram.py:25-47 | The cumulative percentage, as a real number, never falls and stays below 100 |
| Histogram.RoundedPercentGrows | spdk/scripts/histogram.py:25-47 | With every conversion and operation rounded by any function that keeps the order, the cumulative percentage still never falls |
| Histogram.TotalCount | spdk/scripts/histogram.py:25-30 | One more than the number of entries |
| Histogram.CountExact | spdk/scripts/histogram.py:27-36 | A count is the little-endian number in its eight bytes, or in those the data still has |
| Histogram.Print | spdk/scripts/histogram.py:25-47 | The buckets visited tile 0 to 2^(granularity + max_range - 1), equally wide within a range and twice as wide in the next, and are precise; each comes with its own count and with so_far, the entries up to it, whose percentage of the total never falls and stays below 100; no buckets for an empty range |

## Left out

- ReorderBuffer: the early-stop call of print_insts (util/o3-pipeview.py:134) lacks an argument and raises, so only the end-of-file drain is modelled; parsing of trace lines and the skip to the start tick are not.
- Timeline: colours, labels and time stamps around the row text.
- PortBinder: making the connections (assigning the ports of simulator objects), and parsing of port names.
- Migration: the upgrader functions, which edit the checkpoint file; the chain of legacy version numbers; reading and writing the tags; a tag registered twice.
- Migration.Upgraders.LoadTag: an upgrader is a value in the registry and its list of dependencies is replaced there, so aliasing between upgrader objects is not captured.
- Migration.AbortsExactlyOnCycle: assumes that no pending tag depends on a downgraded one; Migration.CompletesExactlyWhenRanked covers all registries.
- Framing, TraceTools: protobuf serialisation and gzip are parameters; messages are byte strings.
- DepTrace: Python's number parsing also accepts signs and surrounding blanks, which printed lines never contain; counters of packets printed at the end.
- Aggregator: the item syntax of configuration files, gzip; items other than paddr, M5_pid and range_size are carried along as they are.
- MemInfo: parsing of the memory dump, free elements, printed summaries.
- SimControl: the simulator is any finite script of replies and drain delays, and a script that is used up counts as an exit by the guest; instruction-based and SimPoint checkpoints, and exit events lost while draining, are not modelled.
- CpuSwitch: memory modes, takeover support, an empty list of CPUs and the standard-switch path.
- TesterTree: the check against the cache line size, which only removes specifications; tester parameters; the random tree generator.
- CopyrightYears.PrintDates: takes the years already sorted; the scanner for copyright blocks and rewriting of files are not modelled.
- Histogram: base-64 decoding of the data and conversion of bounds to microseconds.
- Histogram.PercentGrowsBelow100: the bound of 100 is about exact reals; in floating point, 2^53 entries already print as 100.  That rounded percentages never fall is Histogram.RoundedPercentGrows.
- Histogram.Print: its percentages are exact reals, as above; the bounds and the percentage are not rounded to the printed digits.
- Plotting, RPC, gem5 object wiring and option tables: they would only add easy members or rest on libraries outside the repository's Python.
