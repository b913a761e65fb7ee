/** Merging checkpoints into one (aggregate in util/checkpoint_aggregator.py): the
    memory images are concatenated, every physical page address is moved by the pages
    that precede its checkpoint, and the configuration sections are renamed.
 */
module Aggregator {
  import opened Common
  import opened Text
  import opened PyList
  import opened SectionNames

  const PAGE := 4096

  // One section of m5.cpt: its page address if it has a "paddr" item, and the rest.
  datatype Section = Section(name: string, paddr: Option<nat>, items: map<string, string>)

  // pagePtr is read from the "system" section, curTick from "Globals" if there is one.
  datatype Checkpoint = Checkpoint(sections: seq<Section>, pagePtr: nat, curTick: Option<int>, image: seq<Byte>)

  // ---------------------------------------------------------------- memory

  // page_ptr when checkpoint i is reached
  function Offset(cpts: seq<Checkpoint>, i: nat): nat
    requires i <= |cpts|
  {
    if i == 0 then 0 else Offset(cpts, i - 1) + cpts[i - 1].pagePtr
  }

  // `pages` reads of one page each
  function TakePages(image: seq<Byte>, pages: nat): seq<Byte> {
    if |image| <= pages * PAGE then image else image[..pages * PAGE]
  }

  function Contents(c: Checkpoint): seq<Byte> { TakePages(c.image, c.pagePtr) }

  function Image(cpts: seq<Checkpoint>, i: nat): seq<Byte>
    requires i <= |cpts|
  {
    if i == 0 then [] else Image(cpts, i - 1) + Contents(cpts[i - 1])
  }

  // The image file holds all the pages the configuration speaks of.
  predicate Complete(c: Checkpoint) { |c.image| >= c.pagePtr * PAGE }

  ghost predicate CompleteBefore(cpts: seq<Checkpoint>, i: nat)
    requires i <= |cpts|
  {
    forall j :: 0 <= j < i ==> Complete(cpts[j])
  }

  /** Checkpoint i's memory starts at the address its pages are relocated to exactly
      when no earlier image file was too short. */
  lemma {:induction false} StartExact(cpts: seq<Checkpoint>, i: nat)
    requires i <= |cpts|
    ensures |Image(cpts, i)| <= Offset(cpts, i) * PAGE
    ensures |Image(cpts, i)| == Offset(cpts, i) * PAGE <==> CompleteBefore(cpts, i)
  {
    if i > 0 {
      StartExact(cpts, i - 1);
      assert Offset(cpts, i) * PAGE == Offset(cpts, i - 1) * PAGE + cpts[i - 1].pagePtr * PAGE;
      assert CompleteBefore(cpts, i) <==> CompleteBefore(cpts, i - 1) && Complete(cpts[i - 1]);
    }
  }

  lemma {:induction false} ImageKeepsPrefix(cpts: seq<Checkpoint>, i: nat, j: nat)
    requires i <= j <= |cpts|
    ensures Image(cpts, i) <= Image(cpts, j)
  {
    if i < j { ImageKeepsPrefix(cpts, i, j - 1); }
  }

  /** Every byte of checkpoint i's pages is found unchanged at its relocated address. */
  lemma {:induction false} ByteRelocated(cpts: seq<Checkpoint>, i: nat, a: nat)
    requires i < |cpts| && CompleteBefore(cpts, i)
    requires a < cpts[i].pagePtr * PAGE && a < |cpts[i].image|
    ensures var p := a + Offset(cpts, i) * PAGE;
            p < |Image(cpts, |cpts|)| && Image(cpts, |cpts|)[p] == cpts[i].image[a]
  {
    StartExact(cpts, i);
    ImageKeepsPrefix(cpts, i + 1, |cpts|);
    var m := Image(cpts, i + 1);
    assert m == Image(cpts, i) + Contents(cpts[i]);
    assert m[a + |Image(cpts, i)|] == Contents(cpts[i])[a];
  }

  lemma {:induction false} OffsetGrows(cpts: seq<Checkpoint>, i: nat, j: nat)
    requires i < j <= |cpts|
    ensures Offset(cpts, i) + cpts[i].pagePtr <= Offset(cpts, j)
  {
    if i + 1 < j { OffsetGrows(cpts, i, j - 1); }
  }

  /** Pages of different checkpoints are never relocated to the same address. */
  lemma {:induction false} RelocatedRangesDisjoint(cpts: seq<Checkpoint>, i: nat, a: nat, j: nat, b: nat)
    requires i < |cpts| && j < |cpts| && i != j
    requires a < cpts[i].pagePtr * PAGE && b < cpts[j].pagePtr * PAGE
    ensures a + Offset(cpts, i) * PAGE != b + Offset(cpts, j) * PAGE
  {
    if i < j { OffsetGrows(cpts, i, j); } else { OffsetGrows(cpts, j, i); }
  }

  // pages after padding: enough for memorySize, in whole pages
  function PaddedPages(pages: nat, memorySize: Option<int>): nat {
    if memorySize.None? || memorySize.value <= pages * PAGE then pages
    else (memorySize.value + PAGE - 1) / PAGE
  }

  function ZeroPage(): seq<Byte> { seq(PAGE, i => 48) }

  function Padding(n: nat): seq<Byte> {
    if n == 0 then [] else Padding(n - 1) + ZeroPage()
  }

  lemma {:induction false} PaddingLength(n: nat)
    ensures |Padding(n)| == n * PAGE
  {
    if n > 0 { PaddingLength(n - 1); }
  }

  function MergedImage(cpts: seq<Checkpoint>, memorySize: Option<int>): seq<Byte> {
    var pages := Offset(cpts, |cpts|);
    Image(cpts, |cpts|) + Padding(PaddedPages(pages, memorySize) - pages)
  }

  /** range_size, the padded number of pages in bytes, is the length of the image file
      exactly when no image was too short, and covers the requested memory size with
      less than a page to spare. */
  lemma {:induction false} RangeSizeExact(cpts: seq<Checkpoint>, memorySize: Option<int>)
    ensures var pages := Offset(cpts, |cpts|); var padded := PaddedPages(pages, memorySize);
            && (|MergedImage(cpts, memorySize)| == padded * PAGE <==> CompleteBefore(cpts, |cpts|))
            && (memorySize.Some? ==> padded * PAGE >= memorySize.value)
            && (padded > pages ==> memorySize.Some? && (padded - 1) * PAGE < memorySize.value)
  {
    var pages := Offset(cpts, |cpts|);
    StartExact(cpts, |cpts|);
    PaddingLength(PaddedPages(pages, memorySize) - pages);
  }

  // ---------------------------------------------------------------- configuration

  const STORE: string := "system.physmem.store0"

  // re.compile("workload.FdMap256$").search(name)
  predicate IsFdMap(name: string) {
    var n := |name|;
    n >= 17 && name[n - 17..n - 9] == "workload" && name[n - 8..] == "FdMap256"
  }

  function Tag(n: nat, i: nat): string
    requires i < n
  {
    Zfill(i, NumDigits(n))
  }

  // A section of checkpoint i with "cpu" in its name, as it is written out.
  function Relocate(n: nat, i: nat, offset: nat, s: Section): Section
    requires i < n
  {
    Section(Rename(s.name, Tag(n, i)),
            if s.paddr.Some? then Some(s.paddr.value + offset * PAGE) else None,
            if IsFdMap(s.name) then s.items["M5_pid" := Decimal(i)] else s.items)
  }

  predicate Dropped(name: string) { name == "system" || name == "Globals" }

  function Emit(n: nat, i: nat, offset: nat, s: Section): seq<Section>
    requires i < n
  {
    if HasCpu(s.name) then [Relocate(n, i, offset, s)]
    else if Dropped(s.name) || i != n - 1 then []
    else [s]
  }

  // what the first k sections of ss contribute
  function EmitTo(n: nat, i: nat, offset: nat, ss: seq<Section>, k: nat): seq<Section>
    requires i < n && k <= |ss|
  {
    if k == 0 then [] else EmitTo(n, i, offset, ss, k - 1) + Emit(n, i, offset, ss[k - 1])
  }

  // what checkpoint i contributes
  function Written(cpts: seq<Checkpoint>, i: nat): seq<Section>
    requires i < |cpts|
  {
    EmitTo(|cpts|, i, Offset(cpts, i), cpts[i].sections, |cpts[i].sections|)
  }

  // what checkpoints 0 to i - 1 contribute
  function Sections(cpts: seq<Checkpoint>, i: nat): seq<Section>
    requires i <= |cpts|
  {
    if i == 0 then [] else Sections(cpts, i - 1) + Written(cpts, i - 1)
  }

  function WithRange(s: Section, size: nat): Section {
    if s.name == STORE then s.(items := s.items["range_size" := Decimal(size)]) else s
  }

  function SetRange(ss: seq<Section>, size: nat): seq<Section> {
    seq(|ss|, i requires 0 <= i < |ss| => WithRange(ss[i], size))
  }

  function Max(a: int, b: Option<int>): int { if b.Some? && b.value > a then b.value else a }

  function MaxTick(cpts: seq<Checkpoint>, i: nat): int
    requires i <= |cpts|
  {
    if i == 0 then 0 else Max(MaxTick(cpts, i - 1), cpts[i - 1].curTick)
  }

  // the sections written from scratch at the end
  function FixedSections(pages: nat, processes: nat, tick: int): seq<Section> {
    [Section("system", None, map["pagePtr" := Decimal(pages), "nextPID" := Decimal(processes)]),
     Section("Globals", None, map["curTick" := Number(tick)])]
  }

  function MergedSections(cpts: seq<Checkpoint>, memorySize: Option<int>): seq<Section> {
    var pages := Offset(cpts, |cpts|);
    SetRange(Sections(cpts, |cpts|), PaddedPages(pages, memorySize) * PAGE)
    + FixedSections(pages, |cpts|, MaxTick(cpts, |cpts|))
  }

  // ---------------------------------------------------------------- no two sections collide

  function Names(ss: seq<Section>): seq<string> {
    seq(|ss|, i requires 0 <= i < |ss| => ss[i].name)
  }

  ghost predicate Apart(a: seq<string>, b: seq<string>) { forall x :: x in a ==> x !in b }

  lemma {:induction false} NamesConcat(a: seq<Section>, b: seq<Section>)
    ensures Names(a + b) == Names(a) + Names(b)
  {
  }

  lemma {:induction false} SetRangeNames(ss: seq<Section>, size: nat)
    ensures Names(SetRange(ss, size)) == Names(ss)
  {
  }

  // A section written for checkpoint i under this name comes from s.
  predicate Comes(n: nat, i: nat, s: Section, name: string)
    requires i < n
  {
    if HasCpu(s.name) then name == Rename(s.name, Tag(n, i))
    else i == n - 1 && name == s.name && !Dropped(name)
  }

  // It comes from one of the first k sections of ss.
  ghost predicate From(n: nat, i: nat, ss: seq<Section>, k: nat, name: string)
    requires i < n && k <= |ss|
  {
    exists j :: 0 <= j < k && Comes(n, i, ss[j], name)
  }

  lemma {:induction false} EmittedNames(n: nat, i: nat, offset: nat, ss: seq<Section>, k: nat, name: string)
    requires i < n && k <= |ss| && name in Names(EmitTo(n, i, offset, ss, k))
    ensures From(n, i, ss, k, name)
  {
    var t, e := EmitTo(n, i, offset, ss, k - 1), Emit(n, i, offset, ss[k - 1]);
    NamesConcat(t, e);
    if name in Names(t) {
      EmittedNames(n, i, offset, ss, k - 1, name);
    } else {
      assert name in Names(e) && Comes(n, i, ss[k - 1], name);
    }
  }

  lemma {:induction false} ConcatDistinct(a: seq<Section>, b: seq<Section>)
    requires Distinct(Names(a)) && Distinct(Names(b)) && Apart(Names(a), Names(b))
    ensures Distinct(Names(a + b))
  {
    NamesConcat(a, b);
    DistinctConcat(Names(a), Names(b));
  }

  // Inside one checkpoint.
  lemma {:induction false} EmittedDistinct(n: nat, i: nat, offset: nat, ss: seq<Section>, k: nat)
    requires i < n && k <= |ss| && Distinct(Names(ss))
    ensures Distinct(Names(EmitTo(n, i, offset, ss, k)))
  {
    if k > 0 {
      var t, e := EmitTo(n, i, offset, ss, k - 1), Emit(n, i, offset, ss[k - 1]);
      EmittedDistinct(n, i, offset, ss, k - 1);
      EmittedApart(n, i, offset, ss, k - 1);
      ConcatDistinct(t, e);
    }
  }

  lemma {:induction false} EmittedApart(n: nat, i: nat, offset: nat, ss: seq<Section>, k: nat)
    requires i < n && k < |ss| && Distinct(Names(ss))
    ensures Apart(Names(EmitTo(n, i, offset, ss, k)), Names(Emit(n, i, offset, ss[k])))
  {
    forall x | x in Names(EmitTo(n, i, offset, ss, k)) ensures x !in Names(Emit(n, i, offset, ss[k])) {
      EmittedNames(n, i, offset, ss, k, x);
      NewNameFresh(n, i, offset, ss, k, x);
    }
  }

  lemma {:induction false} NewNameFresh(n: nat, i: nat, offset: nat, ss: seq<Section>, k: nat, name: string)
    requires i < n && k < |ss| && Distinct(Names(ss)) && From(n, i, ss, k, name)
    ensures name !in Names(Emit(n, i, offset, ss[k]))
  {
    var j :| 0 <= j < k && Comes(n, i, ss[j], name);
    assert Names(ss)[j] != Names(ss)[k];
    if Comes(n, i, ss[k], name) { SameNameSameSection(n, i, ss[j], i, ss[k], name); }
    if name in Names(Emit(n, i, offset, ss[k])) { assert Comes(n, i, ss[k], name); }
  }

  // One name is never written for two different sections.
  lemma {:induction false} SameNameSameSection(n: nat, i: nat, s: Section, j: nat, t: Section, name: string)
    requires i < n && j < n && Comes(n, i, s, name) && Comes(n, j, t, name)
    ensures i == j && s.name == t.name
  {
    if HasCpu(s.name) { RenameKeepsCpu(s.name, Tag(n, i)); }
    if HasCpu(t.name) { RenameKeepsCpu(t.name, Tag(n, j)); }
    if HasCpu(s.name) && HasCpu(t.name) { NoCollision(n, i, s.name, j, t.name); }
  }

  lemma {:induction false} SectionNamesFrom(cpts: seq<Checkpoint>, i: nat, name: string) returns (k: nat)
    requires i <= |cpts| && name in Names(Sections(cpts, i))
    ensures k < i && name in Names(Written(cpts, k))
  {
    NamesConcat(Sections(cpts, i - 1), Written(cpts, i - 1));
    if name in Names(Sections(cpts, i - 1)) {
      k := SectionNamesFrom(cpts, i - 1, name);
    } else {
      k := i - 1;
    }
  }

  lemma {:induction false} WrittenFrom(cpts: seq<Checkpoint>, i: nat, name: string) returns (s: Section)
    requires i < |cpts| && name in Names(Written(cpts, i))
    ensures s in cpts[i].sections && Comes(|cpts|, i, s, name)
  {
    var ss := cpts[i].sections;
    EmittedNames(|cpts|, i, Offset(cpts, i), ss, |ss|, name);
    var j :| 0 <= j < |ss| && Comes(|cpts|, i, ss[j], name);
    s := ss[j];
  }

  // Names written for different checkpoints differ.
  lemma {:induction false} EarlierNamesApart(cpts: seq<Checkpoint>, i: nat)
    requires i < |cpts|
    ensures Apart(Names(Sections(cpts, i)), Names(Written(cpts, i)))
  {
    forall x | x in Names(Sections(cpts, i)) ensures x !in Names(Written(cpts, i)) {
      var k := SectionNamesFrom(cpts, i, x);
      if x in Names(Written(cpts, i)) {
        var s := WrittenFrom(cpts, k, x);
        var t := WrittenFrom(cpts, i, x);
        SameNameSameSection(|cpts|, k, s, i, t, x);
      }
    }
  }

  ghost predicate NamesDistinct(cpts: seq<Checkpoint>) {
    forall c :: c in cpts ==> Distinct(Names(c.sections))
  }

  lemma {:induction false} SectionsDistinct(cpts: seq<Checkpoint>, i: nat)
    requires i <= |cpts| && NamesDistinct(cpts)
    ensures Distinct(Names(Sections(cpts, i)))
  {
    if i > 0 {
      var ss := cpts[i - 1].sections;
      SectionsDistinct(cpts, i - 1);
      EmittedDistinct(|cpts|, i - 1, Offset(cpts, i - 1), ss, |ss|);
      EarlierNamesApart(cpts, i - 1);
      ConcatDistinct(Sections(cpts, i - 1), Written(cpts, i - 1));
    }
  }

  lemma {:induction false} CpuHasU(s: string)
    requires HasCpu(s)
    ensures 'u' in s
  {
    if StartsCpu(s) { assert s[2] == 'u'; } else { CpuHasU(s[1..]); }
  }

  lemma {:induction false} NoU()
    ensures 'u' !in "system" && 'u' !in "Globals" && 'u' !in STORE
  {
    assert STORE == "system.physmem.store0";
  }

  lemma {:induction false} FixedNamesHaveNoCpu(s: string)
    requires HasCpu(s)
    ensures !Dropped(s) && s != STORE
  {
    CpuHasU(s);
    NoU();
  }

  lemma {:induction false} ComesNotDropped(n: nat, i: nat, s: Section, name: string)
    requires i < n && Comes(n, i, s, name)
    ensures !Dropped(name)
  {
    if HasCpu(s.name) {
      RenameKeepsCpu(s.name, Tag(n, i));
      FixedNamesHaveNoCpu(name);
    }
  }

  lemma {:induction false} SectionsNotDropped(cpts: seq<Checkpoint>, x: string)
    requires x in Names(Sections(cpts, |cpts|))
    ensures !Dropped(x)
  {
    var k := SectionNamesFrom(cpts, |cpts|, x);
    var s := WrittenFrom(cpts, k, x);
    ComesNotDropped(|cpts|, k, s, x);
  }

  /** No two sections of the merged configuration have the same name, whatever the
      number of checkpoints, as long as none has two sections of one name itself. */
  lemma {:induction false} MergedNamesDistinct(cpts: seq<Checkpoint>, memorySize: Option<int>)
    requires NamesDistinct(cpts)
    ensures Distinct(Names(MergedSections(cpts, memorySize)))
  {
    var ss := Sections(cpts, |cpts|);
    var size := PaddedPages(Offset(cpts, |cpts|), memorySize) * PAGE;
    var pages, tick := Offset(cpts, |cpts|), MaxTick(cpts, |cpts|);
    SectionsDistinct(cpts, |cpts|);
    SetRangeNames(ss, size);
    forall x | x in Names(ss) ensures x !in Names(FixedSections(pages, |cpts|, tick)) {
      SectionsNotDropped(cpts, x);
    }
    ConcatDistinct(SetRange(ss, size), FixedSections(pages, |cpts|, tick));
  }

  // ---------------------------------------------------------------- addresses keep their meaning

  lemma {:induction false} EmittedKept(n: nat, i: nat, offset: nat, ss: seq<Section>, k: nat, j: nat)
    requires i < n && j < k <= |ss| && HasCpu(ss[j].name)
    ensures Relocate(n, i, offset, ss[j]) in EmitTo(n, i, offset, ss, k)
  {
    if j == k - 1 {
      assert Relocate(n, i, offset, ss[j]) in Emit(n, i, offset, ss[j]);
    } else {
      EmittedKept(n, i, offset, ss, k - 1, j);
    }
  }

  lemma {:induction false} SectionKept(cpts: seq<Checkpoint>, i: nat, s: Section, m: nat)
    requires i < m <= |cpts| && s in cpts[i].sections && HasCpu(s.name)
    ensures Relocate(|cpts|, i, Offset(cpts, i), s) in Sections(cpts, m)
  {
    if i == m - 1 { WrittenKept(cpts, i, s); } else { SectionKept(cpts, i, s, m - 1); }
  }

  lemma {:induction false} WrittenKept(cpts: seq<Checkpoint>, i: nat, s: Section)
    requires i < |cpts| && s in cpts[i].sections && HasCpu(s.name)
    ensures Relocate(|cpts|, i, Offset(cpts, i), s) in Written(cpts, i)
  {
    var ss := cpts[i].sections;
    var j :| 0 <= j < |ss| && ss[j] == s;
    EmittedKept(|cpts|, i, Offset(cpts, i), ss, |ss|, j);
  }

  lemma {:induction false} SetRangeKeeps(ss: seq<Section>, size: nat, s: Section)
    requires s in ss && s.name != STORE
    ensures s in SetRange(ss, size)
  {
    var i :| 0 <= i < |ss| && ss[i] == s;
    assert SetRange(ss, size)[i] == s;
  }

  /** Each "cpu" section of each checkpoint appears in the merged configuration. */
  lemma {:induction false} SectionMerged(cpts: seq<Checkpoint>, memorySize: Option<int>, i: nat, s: Section)
    requires i < |cpts| && s in cpts[i].sections && HasCpu(s.name)
    ensures Relocate(|cpts|, i, Offset(cpts, i), s) in MergedSections(cpts, memorySize)
  {
    var t := Relocate(|cpts|, i, Offset(cpts, i), s);
    var size := PaddedPages(Offset(cpts, |cpts|), memorySize) * PAGE;
    SectionKept(cpts, i, s, |cpts|);
    RenameKeepsCpu(s.name, Tag(|cpts|, i));
    FixedNamesHaveNoCpu(t.name);
    SetRangeKeeps(Sections(cpts, |cpts|), size, t);
  }

  /** The page address a relocated section holds leads to the same byte of the merged
      memory as its old address did in its own image. */
  lemma {:induction false} AddressKeepsMeaning(cpts: seq<Checkpoint>, memorySize: Option<int>, i: nat, s: Section)
    requires i < |cpts| && s.paddr.Some? && s.paddr.value < cpts[i].pagePtr * PAGE && CompleteBefore(cpts, i + 1)
    ensures var p := Relocate(|cpts|, i, Offset(cpts, i), s).paddr.value;
            p < |MergedImage(cpts, memorySize)| && MergedImage(cpts, memorySize)[p] == cpts[i].image[s.paddr.value]
  {
    assert Complete(cpts[i]);
    ByteRelocated(cpts, i, s.paddr.value);
  }

  // ---------------------------------------------------------------- the program

  datatype Merged = Merged(sections: seq<Section>, image: seq<Byte>)

  predicate HasSection(ss: seq<Section>, name: string) { name in Names(ss) }

  lemma {:induction false} SectionNamed(ss: seq<Section>, name: string)
    ensures HasSection(ss, name) <==> exists s :: s in ss && s.name == name
  {
    if s :| s in ss && s.name == name { NameListed(ss, s); }
  }

  /** A section without "cpu" in its name is written exactly if the last checkpoint has
      it, except for the two that are made up at the end. */
  lemma {:induction false} PlainFromLast(cpts: seq<Checkpoint>, name: string)
    requires cpts != [] && !HasCpu(name) && !Dropped(name)
    ensures HasSection(Sections(cpts, |cpts|), name) <==> HasSection(cpts[|cpts| - 1].sections, name)
  {
    if name in Names(Sections(cpts, |cpts|)) { ComesFromLast(cpts, name); }
    if name in Names(cpts[|cpts| - 1].sections) { LastIsWritten(cpts, name); }
  }

  lemma {:induction false} ComesFromLast(cpts: seq<Checkpoint>, name: string)
    requires cpts != [] && !HasCpu(name) && name in Names(Sections(cpts, |cpts|))
    ensures name in Names(cpts[|cpts| - 1].sections)
  {
    var k := SectionNamesFrom(cpts, |cpts|, name);
    var s := WrittenFrom(cpts, k, name);
    if HasCpu(s.name) { RenameKeepsCpu(s.name, Tag(|cpts|, k)); }
    NameListed(cpts[k].sections, s);
  }

  lemma {:induction false} LastIsWritten(cpts: seq<Checkpoint>, name: string)
    requires cpts != [] && !HasCpu(name) && !Dropped(name) && name in Names(cpts[|cpts| - 1].sections)
    ensures name in Names(Sections(cpts, |cpts|))
  {
    var n, ss := |cpts|, cpts[|cpts| - 1].sections;
    var j :| 0 <= j < |ss| && Names(ss)[j] == name;
    EmittedPlain(n, n - 1, Offset(cpts, n - 1), ss, |ss|, j);
    NameListed(Written(cpts, n - 1), ss[j]);
    NamesConcat(Sections(cpts, n - 1), Written(cpts, n - 1));
  }

  lemma {:induction false} NameListed(ss: seq<Section>, s: Section)
    requires s in ss
    ensures s.name in Names(ss)
  {
    var j :| 0 <= j < |ss| && ss[j] == s;
    assert Names(ss)[j] == s.name;
  }

  lemma {:induction false} StorePlain(s: string)
    requires s == STORE
    ensures !HasCpu(s) && !Dropped(s)
  {
    if HasCpu(s) { FixedNamesHaveNoCpu(s); }
    assert |STORE| == 21;
  }

  /** The section that receives range_size exists exactly if the last checkpoint has it. */
  lemma {:induction false} StoreFromLast(cpts: seq<Checkpoint>, name: string)
    requires cpts != [] && name == STORE
    ensures HasSection(Sections(cpts, |cpts|), name) <==> HasSection(cpts[|cpts| - 1].sections, name)
  {
    StorePlain(name);
    PlainFromLast(cpts, name);
  }

  // The last checkpoint's other sections are written as they are.
  lemma {:induction false} EmittedPlain(n: nat, i: nat, offset: nat, ss: seq<Section>, k: nat, j: nat)
    requires i == n - 1 && 0 <= j < k <= |ss| && !HasCpu(ss[j].name) && !Dropped(ss[j].name)
    ensures ss[j] in EmitTo(n, i, offset, ss, k)
  {
    if j == k - 1 {
      assert ss[j] in Emit(n, i, offset, ss[j]);
    } else {
      EmittedPlain(n, i, offset, ss, k - 1, j);
    }
  }

  // ---------------------------------------------------------------- what is written, item by item

  // The item holds the number n.
  ghost predicate Holds(s: Section, key: string, n: nat) { key in s.items && ParseNat(s.items[key]) == Some(n) }

  ghost predicate SameItem(s: Section, t: Section, key: string) {
    (key in s.items <==> key in t.items) && (key in s.items ==> t.items[key] == s.items[key])
  }

  ghost predicate SameItemsBut(s: Section, t: Section, key: string) { forall k :: k != key ==> SameItem(s, t, k) }

  // t is section s of checkpoint i, renamed, with its page moved by the pages of the
  // earlier checkpoints and its process number set.
  ghost predicate Moved(t: Section, s: Section, cpts: seq<Checkpoint>, i: nat)
    requires i < |cpts|
  {
    && t.name == Rename(s.name, Tag(|cpts|, i))
    && t.paddr == (if s.paddr.None? then None else Some(s.paddr.value + 4096 * Offset(cpts, i)))
    && SameItemsBut(s, t, "M5_pid")
    && (if IsFdMap(s.name) then Holds(t, "M5_pid", i) else SameItem(s, t, "M5_pid"))
  }

  lemma {:induction false} RelocateMoves(cpts: seq<Checkpoint>, i: nat, s: Section)
    requires i < |cpts|
    ensures Moved(Relocate(|cpts|, i, Offset(cpts, i), s), s, cpts, i)
  {
    ParseDecimal(i);
  }

  /** The pattern for the sections that hold a process number. */
  lemma {:induction false} IsFdMapExact(name: string)
    ensures IsFdMap(name) <==> exists a, c :: name == a + "workload" + [c] + "FdMap256"
  {
    var n := |name|;
    if IsFdMap(name) {
      assert name == name[..n - 17] + name[n - 17..n - 9] + [name[n - 9]] + name[n - 8..];
    }
    if a, c :| name == a + "workload" + [c] + "FdMap256" {
      assert name[n - 17..n - 9] == "workload" && name[n - 8..] == "FdMap256";
    }
  }

  // t is the last checkpoint's section s with the given range_size.
  ghost predicate Ranged(t: Section, s: Section, size: nat) {
    t.name == s.name && t.paddr == s.paddr && SameItemsBut(s, t, "range_size") && Holds(t, "range_size", size)
  }

  lemma {:induction false} WithRangeExact(s: Section, size: nat)
    ensures if s.name == STORE then Ranged(WithRange(s, size), s, size) else WithRange(s, size) == s
  {
    ParseDecimal(size);
  }

  // The latest tick of all checkpoints, or 0.
  ghost predicate Latest(t: int, cpts: seq<Checkpoint>, n: nat)
    requires n <= |cpts|
  {
    && t >= 0
    && (forall i :: 0 <= i < n && cpts[i].curTick.Some? ==> cpts[i].curTick.value <= t)
    && (t == 0 || exists i :: 0 <= i < n && cpts[i].curTick == Some(t))
  }

  lemma {:induction false} MaxTickExact(cpts: seq<Checkpoint>, n: nat)
    requires n <= |cpts|
    ensures Latest(MaxTick(cpts, n), cpts, n)
  {
    if n > 0 {
      MaxTickExact(cpts, n - 1);
      assert cpts[n - 1].curTick == Some(MaxTick(cpts, n)) || MaxTick(cpts, n) == MaxTick(cpts, n - 1);
    }
  }

  ghost predicate IsSystem(t: Section, pages: nat, processes: nat) {
    t.name == "system" && Holds(t, "pagePtr", pages) && Holds(t, "nextPID", processes)
  }

  ghost predicate IsGlobals(t: Section, cpts: seq<Checkpoint>) {
    t.name == "Globals" && exists tick: nat :: Latest(tick, cpts, |cpts|) && Holds(t, "curTick", tick)
  }

  lemma {:induction false} FixedExact(cpts: seq<Checkpoint>)
    ensures var f := FixedSections(Offset(cpts, |cpts|), |cpts|, MaxTick(cpts, |cpts|));
            |f| == 2 && IsSystem(f[0], Offset(cpts, |cpts|), |cpts|) && IsGlobals(f[1], cpts)
  {
    ParseDecimal(Offset(cpts, |cpts|));
    ParseDecimal(|cpts|);
    MaxTickExact(cpts, |cpts|);
    ParseDecimal(MaxTick(cpts, |cpts|));
  }

  // Where a written section comes from.
  ghost predicate FromCpu(t: Section, cpts: seq<Checkpoint>, i: nat, s: Section) {
    i < |cpts| && s in cpts[i].sections && HasCpu(s.name) && Moved(t, s, cpts, i)
  }

  ghost predicate FromLast(t: Section, cpts: seq<Checkpoint>, s: Section, size: nat) {
    && cpts != [] && s in cpts[|cpts| - 1].sections && !HasCpu(s.name) && !Dropped(s.name)
    && if s.name == STORE then Ranged(t, s, size) else t == s
  }

  // The whole configuration: the "cpu" sections of all checkpoints, the others of the
  // last one, and two made up; nothing else.
  ghost predicate AllWritten(ss: seq<Section>, cpts: seq<Checkpoint>, size: nat) {
    && (forall i, s :: 0 <= i < |cpts| && s in cpts[i].sections && HasCpu(s.name) ==> WritesCpu(ss, cpts, i, s))
    && (cpts != [] ==> forall s :: s in cpts[|cpts| - 1].sections && !HasCpu(s.name) && !Dropped(s.name) ==>
          WritesPlain(ss, cpts, s, size))
    && (exists t :: t in ss && IsSystem(t, Offset(cpts, |cpts|), |cpts|))
    && (exists t :: t in ss && IsGlobals(t, cpts))
  }

  ghost predicate WritesCpu(ss: seq<Section>, cpts: seq<Checkpoint>, i: nat, s: Section) {
    exists t :: t in ss && FromCpu(t, cpts, i, s)
  }

  ghost predicate WritesPlain(ss: seq<Section>, cpts: seq<Checkpoint>, s: Section, size: nat) {
    exists t :: t in ss && FromLast(t, cpts, s, size)
  }

  ghost predicate OnlyWritten(t: Section, cpts: seq<Checkpoint>, size: nat) {
    || (exists i, s :: FromCpu(t, cpts, i, s))
    || (exists s :: FromLast(t, cpts, s, size))
    || IsSystem(t, Offset(cpts, |cpts|), |cpts|)
    || IsGlobals(t, cpts)
  }

  lemma {:induction false} EmittedFrom(n: nat, i: nat, offset: nat, ss: seq<Section>, k: nat, t: Section) returns (s: Section)
    requires i < n && k <= |ss| && t in EmitTo(n, i, offset, ss, k)
    ensures s in ss && t in Emit(n, i, offset, s)
  {
    if t in Emit(n, i, offset, ss[k - 1]) { s := ss[k - 1]; } else { s := EmittedFrom(n, i, offset, ss, k - 1, t); }
  }

  lemma {:induction false} SectionFrom(cpts: seq<Checkpoint>, m: nat, t: Section) returns (i: nat, s: Section)
    requires m <= |cpts| && t in Sections(cpts, m)
    ensures i < m && s in cpts[i].sections && t in Emit(|cpts|, i, Offset(cpts, i), s)
  {
    if t in Written(cpts, m - 1) {
      i := m - 1;
      s := EmittedFrom(|cpts|, i, Offset(cpts, i), cpts[i].sections, |cpts[i].sections|, t);
    } else {
      i, s := SectionFrom(cpts, m - 1, t);
    }
  }

  lemma {:induction false} MergedOnly(cpts: seq<Checkpoint>, memorySize: Option<int>, t: Section)
    requires t in MergedSections(cpts, memorySize)
    ensures OnlyWritten(t, cpts, PaddedPages(Offset(cpts, |cpts|), memorySize) * PAGE)
  {
    var ss, size := Sections(cpts, |cpts|), PaddedPages(Offset(cpts, |cpts|), memorySize) * PAGE;
    if t in SetRange(ss, size) {
      var j :| 0 <= j < |ss| && SetRange(ss, size)[j] == t;
      RangedFrom(cpts, ss[j], size);
    } else {
      FixedExact(cpts);
    }
  }

  lemma {:induction false} RangedFrom(cpts: seq<Checkpoint>, u: Section, size: nat)
    requires u in Sections(cpts, |cpts|)
    ensures OnlyWritten(WithRange(u, size), cpts, size)
  {
    var i, s := SectionFrom(cpts, |cpts|, u);
    if HasCpu(s.name) {
      CpuFrom(cpts, i, s, u, size);
    } else {
      PlainFrom(cpts, i, s, u, size);
    }
  }

  lemma {:induction false} CpuFrom(cpts: seq<Checkpoint>, i: nat, s: Section, u: Section, size: nat)
    requires i < |cpts| && s in cpts[i].sections && HasCpu(s.name) && u in Emit(|cpts|, i, Offset(cpts, i), s)
    ensures WithRange(u, size) == u && FromCpu(u, cpts, i, s)
  {
    RelocateMoves(cpts, i, s);
    RenameKeepsCpu(s.name, Tag(|cpts|, i));
    FixedNamesHaveNoCpu(u.name);
  }

  lemma {:induction false} PlainFrom(cpts: seq<Checkpoint>, i: nat, s: Section, u: Section, size: nat)
    requires i < |cpts| && s in cpts[i].sections && !HasCpu(s.name) && u in Emit(|cpts|, i, Offset(cpts, i), s)
    ensures FromLast(WithRange(u, size), cpts, s, size)
  {
    WithRangeExact(s, size);
  }

  lemma {:induction false} PlainMerged(cpts: seq<Checkpoint>, memorySize: Option<int>, s: Section)
    requires cpts != [] && s in cpts[|cpts| - 1].sections && !HasCpu(s.name) && !Dropped(s.name)
    ensures WritesPlain(MergedSections(cpts, memorySize), cpts, s, PaddedPages(Offset(cpts, |cpts|), memorySize) * PAGE)
  {
    var n, ss := |cpts|, cpts[|cpts| - 1].sections;
    var size := PaddedPages(Offset(cpts, n), memorySize) * PAGE;
    var j :| 0 <= j < |ss| && ss[j] == s;
    EmittedPlain(n, n - 1, Offset(cpts, n - 1), ss, |ss|, j);
    var all := Sections(cpts, n);
    assert s in Written(cpts, n - 1) && s in all;
    var k :| 0 <= k < |all| && all[k] == s;
    assert MergedSections(cpts, memorySize)[k] == WithRange(s, size);
    WithRangeExact(s, size);
    assert FromLast(WithRange(s, size), cpts, s, size);
  }

  lemma {:induction false} CpuMerged(cpts: seq<Checkpoint>, memorySize: Option<int>, i: nat, s: Section)
    requires i < |cpts| && s in cpts[i].sections && HasCpu(s.name)
    ensures WritesCpu(MergedSections(cpts, memorySize), cpts, i, s)
  {
    SectionMerged(cpts, memorySize, i, s);
    RelocateMoves(cpts, i, s);
    assert FromCpu(Relocate(|cpts|, i, Offset(cpts, i), s), cpts, i, s);
  }

  /** Everything that has to be written is, and nothing else. */
  lemma {:induction false} MergedExactly(cpts: seq<Checkpoint>, memorySize: Option<int>)
    ensures var ss, size := MergedSections(cpts, memorySize), PaddedPages(Offset(cpts, |cpts|), memorySize) * PAGE;
            AllWritten(ss, cpts, size) && forall t :: t in ss ==> OnlyWritten(t, cpts, size)
  {
    var ss, size := MergedSections(cpts, memorySize), PaddedPages(Offset(cpts, |cpts|), memorySize) * PAGE;
    var f := FixedSections(Offset(cpts, |cpts|), |cpts|, MaxTick(cpts, |cpts|));
    FixedExact(cpts);
    assert f[0] in f && f[1] in f;
    assert f[0] in ss && f[1] in ss;
    forall i, s | 0 <= i < |cpts| && s in cpts[i].sections && HasCpu(s.name) ensures WritesCpu(ss, cpts, i, s) {
      CpuMerged(cpts, memorySize, i, s);
    }
    if cpts != [] {
      forall s | s in cpts[|cpts| - 1].sections && !HasCpu(s.name) && !Dropped(s.name) ensures WritesPlain(ss, cpts, s, size) {
        PlainMerged(cpts, memorySize, s);
      }
    }
    forall t | t in ss ensures OnlyWritten(t, cpts, size) { MergedOnly(cpts, memorySize, t); }
  }

  // ---------------------------------------------------------------- what the program achieves

  // range_size: enough for the pages and for the requested memory, in whole pages, and
  // the length of the image exactly when no image file was too short.
  ghost predicate RangeRight(size: nat, image: seq<Byte>, cpts: seq<Checkpoint>, memorySize: Option<int>) {
    var pages := Offset(cpts, |cpts|);
    && size % PAGE == 0 && size >= pages * PAGE && (memorySize.Some? ==> size >= memorySize.value)
    && (size > pages * PAGE ==> memorySize.Some? && size - PAGE < memorySize.value)
    && (|image| == size <==> CompleteBefore(cpts, |cpts|))
  }

  // Byte a of checkpoint i is found moved by the pages of the earlier checkpoints.
  ghost predicate ByteKept(image: seq<Byte>, cpts: seq<Checkpoint>, i: nat, a: nat)
    requires i < |cpts|
  {
    a < cpts[i].pagePtr * PAGE && a < |cpts[i].image| ==>
      var p := a + Offset(cpts, i) * PAGE; p < |image| && image[p] == cpts[i].image[a]
  }

  ghost predicate ImageRight(image: seq<Byte>, cpts: seq<Checkpoint>) {
    && (forall i, a :: 0 <= i < |cpts| && 0 <= a && CompleteBefore(cpts, i) ==> ByteKept(image, cpts, i, a))
    && (forall p :: |Image(cpts, |cpts|)| <= p < |image| ==> image[p] == 48)
  }

  ghost predicate ConfigRight(ss: seq<Section>, cpts: seq<Checkpoint>, size: nat) {
    && AllWritten(ss, cpts, size) && (forall t :: t in ss ==> OnlyWritten(t, cpts, size))
    && (NamesDistinct(cpts) ==> Distinct(Names(ss)))
  }

  ghost predicate Aggregates(m: Merged, cpts: seq<Checkpoint>, memorySize: Option<int>) {
    ImageRight(m.image, cpts)
    && exists size :: RangeRight(size, m.image, cpts, memorySize) && ConfigRight(m.sections, cpts, size)
  }

  lemma {:induction false} PaddingZeros(n: nat, p: nat)
    requires p < |Padding(n)|
    ensures Padding(n)[p] == 48
  {
    if p < |Padding(n - 1)| { PaddingZeros(n - 1, p); }
  }

  lemma {:induction false} MergedImageRight(cpts: seq<Checkpoint>, memorySize: Option<int>)
    ensures ImageRight(MergedImage(cpts, memorySize), cpts)
  {
    var all, image := Image(cpts, |cpts|), MergedImage(cpts, memorySize);
    forall i, a | 0 <= i < |cpts| && 0 <= a && CompleteBefore(cpts, i) ensures ByteKept(image, cpts, i, a) {
      if a < cpts[i].pagePtr * PAGE && a < |cpts[i].image| { ByteRelocated(cpts, i, a); }
    }
    var n := PaddedPages(Offset(cpts, |cpts|), memorySize) - Offset(cpts, |cpts|);
    forall p | |all| <= p < |image| ensures image[p] == 48 { PaddingZeros(n, p - |all|); }
  }

  lemma {:induction false} MergedRangeRight(cpts: seq<Checkpoint>, memorySize: Option<int>)
    ensures RangeRight(PaddedPages(Offset(cpts, |cpts|), memorySize) * PAGE, MergedImage(cpts, memorySize), cpts, memorySize)
  {
    RangeSizeExact(cpts, memorySize);
  }

  /** The merged checkpoint, item by item and byte by byte. */
  lemma {:induction false} MergedAggregates(cpts: seq<Checkpoint>, memorySize: Option<int>)
    ensures Aggregates(Merged(MergedSections(cpts, memorySize), MergedImage(cpts, memorySize)), cpts, memorySize)
  {
    MergedImageRight(cpts, memorySize);
    MergedRangeRight(cpts, memorySize);
    MergedExactly(cpts, memorySize);
    if NamesDistinct(cpts) { MergedNamesDistinct(cpts, memorySize); }
  }

  // What the whole program writes, if anything.
  function Merge(cpts: seq<Checkpoint>, memorySize: Option<int>): Option<Merged> {
    if cpts == [] || !HasSection(cpts[|cpts| - 1].sections, STORE) then None
    else Some(Merged(MergedSections(cpts, memorySize), MergedImage(cpts, memorySize)))
  }

  ghost predicate HasStore(ss: seq<Section>, name: string) { exists s :: s in ss && s.name == name }

  lemma {:induction false} MergeExact(cpts: seq<Checkpoint>, memorySize: Option<int>, name: string)
    requires name == STORE
    ensures var r := Merge(cpts, memorySize);
            && (r.Some? <==> cpts != [] && HasStore(cpts[|cpts| - 1].sections, name))
            && (r.Some? ==> Aggregates(r.value, cpts, memorySize))
  {
    if cpts != [] { SectionNamed(cpts[|cpts| - 1].sections, name); }
    MergedAggregates(cpts, memorySize);
  }

  // the loop of page-sized reads
  method ReadPages(image: seq<Byte>, pages: nat) returns (out: seq<Byte>)
    ensures out == TakePages(image, pages)
  {
    out := [];
    var x, pos := 0, 0;
    while x < pages
      invariant 0 <= x <= pages && pos == |TakePages(image, x)| && out == TakePages(image, x)
    {
      var n := if |image| - pos < PAGE then |image| - pos else PAGE;
      out := out + image[pos..pos + n];
      pos := pos + n;
      x := x + 1;
    }
  }

  method EmitSections(n: nat, i: nat, offset: nat, ss: seq<Section>) returns (out: seq<Section>)
    requires i < n
    ensures out == EmitTo(n, i, offset, ss, |ss|)
  {
    out := [];
    for k := 0 to |ss|
      invariant out == EmitTo(n, i, offset, ss, k)
    {
      var s := ss[k];
      if HasCpu(s.name) {
        out := out + [Relocate(n, i, offset, s)];
      } else if !Dropped(s.name) && i == n - 1 {
        out := out + [s];
      }
    }
  }

  method PadImage(image: seq<Byte>, pages: nat, memorySize: Option<int>) returns (out: seq<Byte>, padded: nat)
    ensures padded == PaddedPages(pages, memorySize) >= pages
    ensures out == image + Padding(padded - pages)
  {
    out, padded := image, pages;
    if memorySize.None? {
      assert image + [] == image;
      return;
    }
    var size := pages * PAGE;
    assert image + [] == image;
    while size < memorySize.value
      invariant padded >= pages && size == padded * PAGE
      invariant padded > pages ==> (padded - 1) * PAGE < memorySize.value
      invariant out == image + Padding(padded - pages)
      decreases memorySize.value - size
    {
      assert image + (Padding(padded - pages) + ZeroPage()) == image + Padding(padded - pages) + ZeroPage();
      out := out + ZeroPage();
      size := size + PAGE;
      padded := padded + 1;
    }
  }

  // the loop over the checkpoints
  method MergeAll(cpts: seq<Checkpoint>)
    returns (pagePtr: nat, maxTick: int, sections: seq<Section>, image: seq<Byte>)
    ensures pagePtr == Offset(cpts, |cpts|) && maxTick == MaxTick(cpts, |cpts|)
    ensures sections == Sections(cpts, |cpts|) && image == Image(cpts, |cpts|)
  {
    pagePtr, maxTick, sections, image := 0, 0, [], [];
    for i := 0 to |cpts|
      invariant pagePtr == Offset(cpts, i) && maxTick == MaxTick(cpts, i)
      invariant sections == Sections(cpts, i) && image == Image(cpts, i)
    {
      var c := cpts[i];
      var emitted := EmitSections(|cpts|, i, pagePtr, c.sections);
      sections := sections + emitted;
      if c.curTick.Some? && c.curTick.value > maxTick {
        maxTick := c.curTick.value;
      }
      pagePtr := pagePtr + c.pagePtr;
      var bytes := ReadPages(c.image, c.pagePtr);
      image := image + bytes;
    }
  }

  method MergeCheckpoints(cpts: seq<Checkpoint>, memorySize: Option<int>) returns (r: Option<Merged>)
    ensures r == Merge(cpts, memorySize)
  {
    if cpts == [] {
      return None;
    }
    var pages, maxTick, sections, image := MergeAll(cpts);
    var padded;
    image, padded := PadImage(image, pages, memorySize);
    StoreFromLast(cpts, STORE);
    if !HasSection(sections, STORE) {
      return None;
    }
    sections := SetRange(sections, padded * PAGE) + FixedSections(pages, |cpts|, maxTick);
    r := Some(Merged(sections, image));
  }

  /** aggregate.  None stands for the exceptions on an empty list and on a last
      checkpoint without a physical-memory section. */
  method Aggregate(cpts: seq<Checkpoint>, memorySize: Option<int>) returns (r: Option<Merged>)
    ensures r.Some? <==> cpts != [] && HasStore(cpts[|cpts| - 1].sections, STORE)
    ensures r.Some? ==> Aggregates(r.value, cpts, memorySize)
  {
    r := MergeCheckpoints(cpts, memorySize);
    MergeExact(cpts, memorySize, STORE);
  }
}
