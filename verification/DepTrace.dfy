/** The ASCII form of an instruction-dependency trace: the printer of
    util/decode_inst_dep_trace.py and the parser of util/encode_inst_dep_trace.py.
 */
module DepTrace {
  import opened Common
  import opened Text

  datatype RecordType = INVALID | LOAD | STORE | COMP

  // inst_dep_record.proto's InstDepRecord
  datatype Record = Record(
    seqNum: nat, pc: Option<nat>, weight: Option<nat>, kind: RecordType,
    pAddr: Option<nat>, size: Option<nat>, flags: Option<nat>, compDelay: nat,
    robDep: seq<nat>, regDep: seq<nat>, vAddr: Option<nat>, asid: Option<nat>)

  predicate Below(x: Option<nat>, bound: nat) { x.Some? ==> x.value < bound }

  // The field widths of the protobuf message; storing a wider number raises.
  ghost predicate InRange(r: Record) {
    && r.seqNum < TWO64 && Below(r.pc, TWO64) && Below(r.weight, TWO32)
    && Below(r.pAddr, TWO64) && Below(r.size, TWO32) && Below(r.flags, TWO32) && r.compDelay < TWO64
    && (forall d :: d in r.robDep ==> d < TWO64) && (forall d :: d in r.regDep ==> d < TWO64)
    && Below(r.vAddr, TWO64) && Below(r.asid, TWO32)
  }

  function Name(k: RecordType): string {
    match k
    case INVALID => "INVALID"
    case LOAD => "LOAD"
    case STORE => "STORE"
    case COMP => "COMP"
  }

  // ---------------------------------------------------------------- printing

  function OrElse(x: Option<nat>, default: nat): nat { if x.Some? then x.value else default }

  function OptField(x: Option<nat>): seq<string> { if x.Some? then [Decimal(x.value)] else [] }

  function MemFields(r: Record): seq<string> { OptField(r.pAddr) + OptField(r.size) + OptField(r.flags) }

  function InfoFields(r: Record): seq<string> {
    [Decimal(r.seqNum), Decimal(OrElse(r.pc, 0)), Decimal(OrElse(r.weight, 1)), Name(r.kind)]
    + MemFields(r) + [Decimal(r.compDelay)]
  }

  // each dependency with a comma before it
  function PrintDeps(deps: seq<nat>): string {
    if deps == [] then [] else PrintDeps(deps[..|deps| - 1]) + "," + Decimal(deps[|deps| - 1])
  }

  function PrintBody(r: Record): string {
    Join(InfoFields(r), ',') + ":" + PrintDeps(r.robDep) + ":" + PrintDeps(r.regDep)
  }

  function Print(r: Record): string { PrintBody(r) + "\n" }

  // ---------------------------------------------------------------- parsing

  function ParseBelow(s: string, bound: nat): Option<nat> {
    var n := ParseNat(s);
    if n.Some? && n.value < bound then n else None
  }

  function KindOf(s: string): Option<RecordType> {
    if s == "INVALID" then Some(INVALID) else if s == "LOAD" then Some(LOAD)
    else if s == "STORE" then Some(STORE) else if s == "COMP" then Some(COMP) else None
  }

  // the non-empty items, in order
  function ParseDeps(items: seq<string>): Option<seq<nat>> {
    if items == [] then Some([])
    else
      var r := ParseDeps(items[..|items| - 1]);
      var l := items[|items| - 1];
      if l == [] then r
      else
        var d := ParseBelow(l, TWO64);
        if r.None? || d.None? then None else Some(r.value + [d.value])
  }

  datatype Info = Info(seqNum: nat, pc: nat, weight: nat, kind: RecordType,
                       pAddr: Option<nat>, size: Option<nat>, flags: Option<nat>, compDelay: nat)

  function ParseMemInfo(f: seq<string>, seqNum: nat, pc: nat, weight: nat, kind: RecordType): Option<Info> {
    if |f| < 8 then None
    else
      var (a, s, g, c) := (ParseBelow(f[4], TWO64), ParseBelow(f[5], TWO32), ParseBelow(f[6], TWO32), ParseBelow(f[7], TWO64));
      if a.None? || s.None? || g.None? || c.None? then None
      else Some(Info(seqNum, pc, weight, kind, a, s, g, c.value))
  }

  function ParseInfo(f: seq<string>): Option<Info> {
    if |f| < 4 then None
    else
      var (n, pc, w, k) := (ParseBelow(f[0], TWO64), ParseBelow(f[1], TWO64), ParseBelow(f[2], TWO32), KindOf(f[3]));
      if n.None? || pc.None? || w.None? || k.None? || k.value.INVALID? then None
      else if k.value.LOAD? || k.value.STORE? then ParseMemInfo(f, n.value, pc.value, w.value, k.value)
      else if |f| < 5 || ParseBelow(f[4], TWO64).None? then None
      else Some(Info(n.value, pc.value, w.value, k.value, None, None, None, ParseBelow(f[4], TWO64).value))
  }

  // None stands for any of the parser's exceptions and exits.
  function Parse(line: string): Option<Record> {
    var parts := Split(Strip(line), ':');
    if |parts| != 3 then None
    else
      var info := ParseInfo(Split(parts[0], ','));
      var rob := ParseDeps(Split(Strip(parts[1]), ','));
      var reg := ParseDeps(Split(parts[2], ','));
      if info.None? || rob.None? || reg.None? then None
      else
        var i := info.value;
        Some(Record(i.seqNum, Some(i.pc), Some(i.weight), i.kind, i.pAddr, i.size, i.flags, i.compDelay,
                    rob.value, reg.value, None, None))
  }

  // ---------------------------------------------------------------- the round trip

  // The record with the defaults that the printer writes out.
  function Filled(r: Record): Record {
    r.(pc := Some(OrElse(r.pc, 0)), weight := Some(OrElse(r.weight, 1)))
  }

  // The records that the ASCII form can carry.
  predicate Printable(r: Record) {
    && !r.kind.INVALID?
    && r.vAddr.None? && r.asid.None?
    && (r.kind.LOAD? || r.kind.STORE? ==> r.pAddr.Some? && r.size.Some? && r.flags.Some?)
    && (r.kind.COMP? ==> r.pAddr.None? && r.size.None? && r.flags.None?)
  }

  // Text made of digits and letters: no separator and no space.
  ghost predicate Plain(s: string) {
    forall c :: c in s ==> PlainChar(c)
  }

  predicate PlainChar(c: char) { c != ',' && c != ':' && !IsSpace(c) }

  lemma {:induction false} DecimalPlain(n: nat)
    ensures Plain(Decimal(n)) && Decimal(n) != []
  {
    DecimalDigits(n);
  }

  lemma {:induction false} InfoFieldsPlain(r: Record)
    ensures forall p :: p in InfoFields(r) ==> Plain(p) && p != []
  {
    DecimalPlain(r.seqNum);
    DecimalPlain(OrElse(r.pc, 0));
    DecimalPlain(OrElse(r.weight, 1));
    DecimalPlain(OrElse(r.pAddr, 0));
    DecimalPlain(OrElse(r.size, 0));
    DecimalPlain(OrElse(r.flags, 0));
    DecimalPlain(r.compDelay);
  }

  lemma {:induction false} JoinChars(parts: seq<string>, c: char)
    requires forall p :: p in parts ==> Plain(p)
    ensures forall d :: d in Join(parts, c) ==> d == c || PlainChar(d)
  {
    if |parts| > 1 {
      JoinChars(parts[1..], c);
    }
    if parts != [] {
      assert Plain(parts[0]);
    }
  }

  lemma {:induction false} DepsChars(deps: seq<nat>)
    ensures forall c :: c in PrintDeps(deps) ==> c != ':' && !IsSpace(c)
  {
    if deps != [] {
      DepsChars(deps[..|deps| - 1]);
      DecimalPlain(deps[|deps| - 1]);
    }
  }

  function DepItems(deps: seq<nat>): (r: seq<string>)
    ensures |r| == |deps| + 1
  {
    if deps == [] then [""] else DepItems(deps[..|deps| - 1]) + [Decimal(deps[|deps| - 1])]
  }

  lemma {:induction false} DepsJoined(deps: seq<nat>)
    ensures PrintDeps(deps) == Join(DepItems(deps), ',')
    ensures forall p :: p in DepItems(deps) ==> ',' !in p
  {
    if deps != [] {
      var d := deps[..|deps| - 1];
      DepsJoined(d);
      JoinSnoc(DepItems(d), Decimal(deps[|deps| - 1]), ',');
      DecimalPlain(deps[|deps| - 1]);
    }
  }

  lemma {:induction false} ParseDepsSnoc(items: seq<string>, n: nat)
    requires n < TWO64
    ensures ParseDeps(items).Some? ==> ParseDeps(items + [Decimal(n)]) == Some(ParseDeps(items).value + [n])
  {
    assert (items + [Decimal(n)])[..|items + [Decimal(n)]| - 1] == items;
    ParseDecimal(n);
  }

  lemma {:induction false} ParseDepItems(deps: seq<nat>, k: nat)
    requires k <= |deps| && forall i :: 0 <= i < |deps| ==> deps[i] < TWO64
    ensures ParseDeps(DepItems(deps[..k])) == Some(deps[..k])
  {
    if k == 0 {
      assert [""][..0] == [];
    } else {
      ParseDepItems(deps, k - 1);
      assert deps[..k][..k - 1] == deps[..k - 1];
      ParseDepsSnoc(DepItems(deps[..k - 1]), deps[k - 1]);
      assert deps[..k - 1] + [deps[k - 1]] == deps[..k];
    }
  }

  lemma {:induction false} DepsRoundTrip(deps: seq<nat>)
    requires forall d :: d in deps ==> d < TWO64
    ensures ParseDeps(Split(PrintDeps(deps), ',')) == Some(deps)
    ensures Strip(PrintDeps(deps)) == PrintDeps(deps)
  {
    DepsJoined(deps);
    SplitJoin(DepItems(deps), ',');
    assert forall i :: 0 <= i < |deps| ==> deps[i] in deps;
    ParseDepItems(deps, |deps|);
    assert deps[..|deps|] == deps;
    var s := PrintDeps(deps);
    DepsChars(deps);
    StripNothing(s);
  }

  // The first four fields are read back whatever the record carries.
  lemma {:induction false} HeadParsed(r: Record)
    requires InRange(r)
    ensures var f := InfoFields(r);
            && |f| == 5 + |MemFields(r)|
            && ParseBelow(f[0], TWO64) == Some(r.seqNum)
            && ParseBelow(f[1], TWO64) == Some(OrElse(r.pc, 0))
            && ParseBelow(f[2], TWO32) == Some(OrElse(r.weight, 1))
            && KindOf(f[3]) == Some(r.kind)
  {
    ParseDecimal(r.seqNum);
    ParseDecimal(OrElse(r.pc, 0));
    ParseDecimal(OrElse(r.weight, 1));
  }

  lemma {:induction false} MemParsed(r: Record)
    requires InRange(r) && r.pAddr.Some? && r.size.Some? && r.flags.Some?
    ensures var f := InfoFields(r);
            && |f| == 8
            && ParseBelow(f[4], TWO64) == r.pAddr && ParseBelow(f[5], TWO32) == r.size
            && ParseBelow(f[6], TWO32) == r.flags && ParseBelow(f[7], TWO64) == Some(r.compDelay)
  {
    ParseDecimal(r.pAddr.value);
    ParseDecimal(r.size.value);
    ParseDecimal(r.flags.value);
    ParseDecimal(r.compDelay);
  }

  lemma {:induction false} PlainParsed(r: Record)
    requires InRange(r) && r.pAddr.None? && r.size.None? && r.flags.None?
    ensures |InfoFields(r)| == 5 && ParseBelow(InfoFields(r)[4], TWO64) == Some(r.compDelay)
  {
    ParseDecimal(r.compDelay);
  }

  lemma {:induction false} PrintableParsed(r: Record)
    requires InRange(r) && Printable(r)
    ensures ParseInfo(InfoFields(r)) == Some(Info(r.seqNum, OrElse(r.pc, 0), OrElse(r.weight, 1), r.kind,
                                                  r.pAddr, r.size, r.flags, r.compDelay))
  {
    HeadParsed(r);
    if r.kind.COMP? { PlainParsed(r); } else { MemParsed(r); }
  }

  lemma {:induction false} UnprintableParsed(r: Record)
    requires InRange(r)
    ensures r.kind.INVALID? ==> ParseInfo(InfoFields(r)).None?
    ensures (r.kind.LOAD? || r.kind.STORE?) && !(r.pAddr.Some? && r.size.Some? && r.flags.Some?) ==>
              ParseInfo(InfoFields(r)).None?
  {
    HeadParsed(r);
  }

  lemma {:induction false} CompParsed(f: seq<string>)
    ensures var i := ParseInfo(f);
            i.Some? && i.value.kind.COMP? ==> i.value.pAddr.None? && i.value.size.None? && i.value.flags.None?
  {
  }

  // What the parser makes of the printed fields, whatever the record carries.
  lemma {:induction false} InfoParsed(r: Record)
    requires InRange(r)
    ensures Printable(r) ==>
              ParseInfo(InfoFields(r)) == Some(Info(r.seqNum, OrElse(r.pc, 0), OrElse(r.weight, 1), r.kind,
                                                    r.pAddr, r.size, r.flags, r.compDelay))
    ensures r.kind.INVALID? ==> ParseInfo(InfoFields(r)).None?
    ensures (r.kind.LOAD? || r.kind.STORE?) && !(r.pAddr.Some? && r.size.Some? && r.flags.Some?) ==>
              ParseInfo(InfoFields(r)).None?
    ensures var i := ParseInfo(InfoFields(r));
            i.Some? && i.value.kind.COMP? ==> i.value.pAddr.None? && i.value.size.None? && i.value.flags.None?
  {
    if Printable(r) { PrintableParsed(r); }
    UnprintableParsed(r);
    CompParsed(InfoFields(r));
  }

  lemma {:induction false} InfoChars(r: Record)
    ensures Join(InfoFields(r), ',') != [] && ':' !in Join(InfoFields(r), ',')
    ensures forall c :: c in Join(InfoFields(r), ',') ==> !IsSpace(c)
  {
    InfoFieldsPlain(r);
    JoinChars(InfoFields(r), ',');
    assert InfoFields(r)[0] in InfoFields(r);
  }

  lemma {:induction false} BodyParts(r: Record)
    ensures Split(PrintBody(r), ':') == [Join(InfoFields(r), ','), PrintDeps(r.robDep), PrintDeps(r.regDep)]
  {
    var i, rob, reg := Join(InfoFields(r), ','), PrintDeps(r.robDep), PrintDeps(r.regDep);
    InfoChars(r);
    DepsChars(r.robDep);
    DepsChars(r.regDep);
    SplitNone(reg, ':');
    SplitFirst(rob, reg, ':');
    SplitFirst(i, rob + ":" + reg, ':');
    assert PrintBody(r) == i + ":" + (rob + ":" + reg);
    assert [i] + ([rob] + [reg]) == [i, rob, reg];
  }

  lemma {:induction false} BodyChars(r: Record)
    ensures PrintBody(r) != [] && forall c :: c in PrintBody(r) ==> !IsSpace(c)
  {
    InfoChars(r);
    DepsChars(r.robDep);
    DepsChars(r.regDep);
    var i, rob, reg := Join(InfoFields(r), ','), PrintDeps(r.robDep), PrintDeps(r.regDep);
    forall c | c in PrintBody(r) ensures !IsSpace(c) {
      assert c in i || c in rob || c in reg || c == ':';
    }
  }

  /** Printing a record and parsing the line gives the record back, with the default
      pc and weight written out, exactly when it is not INVALID, carries no virtual
      address or address-space id, and has all three memory fields if it is a load or
      store and none of them otherwise; for any number of dependencies. */
  lemma {:induction false} PrintParseExact(r: Record)
    requires InRange(r)
    ensures Parse(Print(r)) == Some(Filled(r)) <==> Printable(r)
  {
    BodyParts(r);
    BodyChars(r);
    StripNewline(PrintBody(r));
    InfoFieldsPlain(r);
    assert forall p :: p in InfoFields(r) ==> ',' !in p;
    SplitJoin(InfoFields(r), ',');
    DepsRoundTrip(r.robDep);
    DepsRoundTrip(r.regDep);
    InfoParsed(r);
  }

  // ---------------------------------------------------------------- the format of a line

  ghost predicate Holds(s: string, n: nat, bound: nat) { ParseNat(s) == Some(n) && n < bound }

  // The fields before the first colon: sequence number, pc, weight, type, then for a load
  // or store address, size, flags and delay, and for a computation the delay alone.
  ghost predicate FieldsHold(f: seq<string>, r: Record) {
    && |f| >= 5 && Holds(f[0], r.seqNum, TWO64) && Holds(f[1], OrElse(r.pc, 0), TWO64) && Holds(f[2], OrElse(r.weight, 1), TWO32)
    && match r.kind
       case INVALID => false
       case COMP => f[3] == "COMP" && Holds(f[4], r.compDelay, TWO64) && r.pAddr.None? && r.size.None? && r.flags.None?
       case LOAD => f[3] == "LOAD" && MemHold(f, r)
       case STORE => f[3] == "STORE" && MemHold(f, r)
  }

  ghost predicate MemHold(f: seq<string>, r: Record) {
    && |f| >= 8 && r.pAddr.Some? && r.size.Some? && r.flags.Some?
    && Holds(f[4], r.pAddr.value, TWO64) && Holds(f[5], r.size.value, TWO32) && Holds(f[6], r.flags.value, TWO32)
    && Holds(f[7], r.compDelay, TWO64)
  }

  ghost function NonEmpty(items: seq<string>): seq<string> {
    if items == [] then []
    else NonEmpty(items[..|items| - 1]) + if items[|items| - 1] == [] then [] else [items[|items| - 1]]
  }

  // The non-empty items are the dependencies, in order.
  ghost predicate DepsHold(items: seq<string>, deps: seq<nat>) {
    var s := NonEmpty(items);
    |s| == |deps| && forall k :: 0 <= k < |deps| ==> Holds(s[k], deps[k], TWO64)
  }

  // What the line says: three parts between colons, fields and dependencies between commas.
  ghost predicate Says(line: string, r: Record) {
    var parts := Split(Strip(line), ':');
    && |parts| == 3 && FieldsHold(Split(parts[0], ','), r)
    && DepsHold(Split(Strip(parts[1]), ','), r.robDep) && DepsHold(Split(parts[2], ','), r.regDep)
    && r.vAddr.None? && r.asid.None?
  }

  lemma {:induction false} DepsExact(items: seq<string>, deps: seq<nat>)
    ensures ParseDeps(items) == Some(deps) <==> DepsHold(items, deps)
    decreases |items|, 1
  {
    if items != [] {
      var t, l := items[..|items| - 1], items[|items| - 1];
      if l == [] {
        DepsExact(t, deps);
      } else {
        DepsExactStep(items, deps);
      }
    }
  }

  lemma {:induction false} DepsExactStep(items: seq<string>, deps: seq<nat>)
    requires items != [] && items[|items| - 1] != []
    ensures ParseDeps(items) == Some(deps) <==> DepsHold(items, deps)
    decreases |items|, 0
  {
    var t, l := items[..|items| - 1], items[|items| - 1];
    if deps != [] {
      var d := deps[..|deps| - 1];
      DepsExact(t, d);
      assert deps == d + [deps[|deps| - 1]];
      var n := NonEmpty(t);
      assert NonEmpty(items) == n + [l];
      assert forall k :: 0 <= k < |n| ==> NonEmpty(items)[k] == n[k];
      if ParseDeps(items) == Some(deps) {
        assert ParseDeps(t).value + [ParseBelow(l, TWO64).value] == deps;
        assert ParseDeps(t).value == d;
      }
    }
  }

  lemma {:induction false} InfoExact(f: seq<string>, r: Record)
    requires r.pc.Some? && r.weight.Some?
    ensures ParseInfo(f) == Some(Info(r.seqNum, r.pc.value, r.weight.value, r.kind, r.pAddr, r.size, r.flags, r.compDelay))
            <==> FieldsHold(f, r)
  {
  }

  /** Which lines are accepted, and as what: r is read exactly if the line says it and its
      pc and weight are set. */
  lemma {:induction false} ParseExact(line: string, r: Record)
    ensures Parse(line) == Some(r) <==> Says(line, r) && r.pc.Some? && r.weight.Some?
  {
    var parts := Split(Strip(line), ':');
    if |parts| == 3 && r.pc.Some? && r.weight.Some? {
      InfoExact(Split(parts[0], ','), r);
      DepsExact(Split(Strip(parts[1]), ','), r.robDep);
      DepsExact(Split(parts[2], ','), r.regDep);
    }
  }

  /** The format of a printed line. */
  lemma {:induction false} PrintSays(r: Record)
    requires InRange(r) && Printable(r)
    ensures Says(Print(r), r)
  {
    PrintParseExact(r);
    ParseExact(Print(r), Filled(r));
  }

  // ---------------------------------------------------------------- whole files

  function PrintAll(rs: seq<Record>): string {
    if rs == [] then [] else Print(rs[0]) + PrintAll(rs[1..])
  }

  // the lines of a text file, each with its newline if it has one
  function Lines(s: string): seq<string> {
    if s == [] then []
    else
      var e := LineEnd(s);
      [s[..e]] + Lines(s[e..])
  }

  function LineEnd(s: string): (e: nat)
    requires s != []
    ensures 1 <= e <= |s|
  {
    if s[0] == '\n' || |s| == 1 then 1 else 1 + LineEnd(s[1..])
  }

  function ParseLines(lines: seq<string>): Option<seq<Record>> {
    if lines == [] then Some([])
    else
      var r, rest := Parse(lines[0]), ParseLines(lines[1..]);
      if r.None? || rest.None? then None else Some([r.value] + rest.value)
  }

  function FilledAll(rs: seq<Record>): seq<Record> {
    if rs == [] then [] else [Filled(rs[0])] + FilledAll(rs[1..])
  }

  lemma {:induction false} LineEndAt(line: string, rest: string)
    requires '\n' !in line
    ensures LineEnd(line + "\n" + rest) == |line| + 1
  {
    var s := line + "\n" + rest;
    if line == [] {
      assert s[0] == '\n';
    } else {
      LineEndAt(line[1..], rest);
      assert s[0] == line[0] && s[1..] == line[1..] + "\n" + rest;
    }
  }

  lemma {:induction false} FirstLine(line: string, rest: string)
    requires '\n' !in line
    ensures Lines(line + "\n" + rest) == [line + "\n"] + Lines(rest)
  {
    var s := line + "\n" + rest;
    LineEndAt(line, rest);
    assert s[..|line| + 1] == line + "\n" && s[|line| + 1..] == rest;
  }

  lemma {:induction false} PrintedLines(rs: seq<Record>)
    requires rs != []
    ensures Lines(PrintAll(rs)) == [Print(rs[0])] + Lines(PrintAll(rs[1..]))
  {
    BodyChars(rs[0]);
    FirstLine(PrintBody(rs[0]), PrintAll(rs[1..]));
  }

  lemma {:induction false} ParseLinesCons(line: string, rest: seq<string>)
    ensures ParseLines([line] + rest) ==
            if Parse(line).None? || ParseLines(rest).None? then None
            else Some([Parse(line).value] + ParseLines(rest).value)
  {
    assert ([line] + rest)[1..] == rest;
  }

  lemma {:induction false} ConsEqual(a: Record, s: seq<Record>, b: Record, t: seq<Record>)
    ensures [a] + s == [b] + t <==> a == b && s == t
  {
    if [a] + s == [b] + t {
      assert ([a] + s)[0] == a && ([a] + s)[1..] == s;
      assert ([b] + t)[0] == b && ([b] + t)[1..] == t;
    }
  }

  ghost predicate AllPrintable(rs: seq<Record>) { forall r :: r in rs ==> Printable(r) }

  /** A whole trace file converted to text and back is the same trace, defaults filled
      in, exactly when each of its records is printable. */
  lemma {:induction false} TraceRoundTrip(rs: seq<Record>)
    requires forall r :: r in rs ==> InRange(r)
    ensures ParseLines(Lines(PrintAll(rs))) == Some(FilledAll(rs)) <==> AllPrintable(rs)
  {
    if rs != [] {
      var r, t := rs[0], rs[1..];
      TraceRoundTrip(t);
      PrintParseExact(r);
      PrintedLines(rs);
      var rest := Lines(PrintAll(t));
      ParseLinesCons(Print(r), rest);
      if Parse(Print(r)).Some? && ParseLines(rest).Some? {
        ConsEqual(Parse(Print(r)).value, ParseLines(rest).value, Filled(r), FilledAll(t));
      }
    }
  }

  // ---------------------------------------------------------------- the programs

  method WriteDeps(deps: seq<nat>) returns (out: string)
    ensures out == PrintDeps(deps)
  {
    out := "";
    for i := 0 to |deps|
      invariant out == PrintDeps(deps[..i])
    {
      assert deps[..i + 1][..i] == deps[..i];
      out := out + "," + Decimal(deps[i]);
    }
    assert deps[..|deps|] == deps;
  }

  // The fields before the first colon.
  method WriteInfo(r: Record) returns (out: string)
    ensures out == Join(InfoFields(r), ',')
  {
    out := WriteHead(r);
    ghost var f := HeadFields(r);
    out := WriteOption(out, r.pAddr, f);
    out := WriteOption(out, r.size, f + OptField(r.pAddr));
    out := WriteOption(out, r.flags, f + OptField(r.pAddr) + OptField(r.size));
    ghost var g := f + OptField(r.pAddr) + OptField(r.size) + OptField(r.flags);
    JoinSnoc(g, Decimal(r.compDelay), ',');
    assert InfoFields(r) == g + [Decimal(r.compDelay)];
    out := out + "," + Decimal(r.compDelay);
  }

  // The first four of them.
  method WriteHead(r: Record) returns (out: string)
    ensures out == Join(HeadFields(r), ',')
  {
    out := Decimal(r.seqNum);
    out := out + "," + (if r.pc.Some? then Decimal(r.pc.value) else "0");
    out := out + "," + (if r.weight.Some? then Decimal(r.weight.value) else "1");
    out := out + "," + Name(r.kind);
    HeadJoined(r);
  }

  function HeadFields(r: Record): seq<string> {
    [Decimal(r.seqNum), Decimal(OrElse(r.pc, 0)), Decimal(OrElse(r.weight, 1)), Name(r.kind)]
  }

  lemma {:induction false} HeadJoined(r: Record)
    ensures Join(HeadFields(r), ',') ==
            Decimal(r.seqNum) + "," + (if r.pc.Some? then Decimal(r.pc.value) else "0")
            + "," + (if r.weight.Some? then Decimal(r.weight.value) else "1") + "," + Name(r.kind)
  {
    var f := HeadFields(r);
    FourFields(f[0], f[1], f[2], f[3]);
    assert Decimal(0) == "0" && Decimal(1) == "1";
  }

  // The body of the decoder's loop: one record, written piece by piece.
  method WriteRecord(r: Record) returns (out: string)
    ensures out == Print(r)
  {
    out := WriteInfo(r);
    var rob := WriteDeps(r.robDep);
    var reg := WriteDeps(r.regDep);
    out := out + ":" + rob + ":" + reg + "\n";
  }

  method WriteOption(out: string, x: Option<nat>, ghost f: seq<string>) returns (out': string)
    requires f != [] && out == Join(f, ',')
    ensures out' == Join(f + OptField(x), ',')
  {
    out' := out;
    if x.Some? {
      JoinSnoc(f, Decimal(x.value), ',');
      out' := out + "," + Decimal(x.value);
    } else {
      assert f + OptField(x) == f;
    }
  }

  lemma {:induction false} FourFields(a: string, b: string, c: string, d: string)
    ensures Join([a, b, c, d], ',') == a + "," + b + "," + c + "," + d
  {
    JoinSnoc([a, b, c], d, ',');
    JoinSnoc([a, b], c, ',');
    JoinSnoc([a], b, ',');
    assert [a, b, c] + [d] == [a, b, c, d] && [a, b] + [c] == [a, b, c] && [a] + [b] == [a, b];
  }

  method ReadDeps(items: seq<string>) returns (r: Option<seq<nat>>)
    ensures r == ParseDeps(items)
  {
    var deps := [];
    for i := 0 to |items|
      invariant ParseDeps(items[..i]) == Some(deps)
    {
      assert items[..i + 1][..i] == items[..i];
      if items[i] != [] {
        var d := ParseBelow(items[i], TWO64);
        if d.None? {
          DepsStuck(items, i + 1);
          return None;
        }
        deps := deps + [d.value];
      }
    }
    assert items[..|items|] == items;
    r := Some(deps);
  }

  // Once an item cannot be read the whole list cannot.
  lemma {:induction false} DepsStuck(items: seq<string>, i: nat)
    requires i <= |items| && ParseDeps(items[..i]).None?
    ensures ParseDeps(items).None?
    decreases |items|
  {
    if i == |items| {
      assert items[..i] == items;
    } else {
      assert items[..|items| - 1][..i] == items[..i];
      DepsStuck(items[..|items| - 1], i);
    }
  }

  lemma {:induction false} ParseDepsBelow(items: seq<string>)
    ensures var r := ParseDeps(items); r.Some? ==> forall d :: d in r.value ==> d < TWO64
  {
    if items != [] { ParseDepsBelow(items[..|items| - 1]); }
  }

  /** Whatever line is accepted, the record read is one that the printer can write, and
      its printed form reads as the same record. */
  lemma {:induction false} ParseSettles(line: string)
    ensures var r := Parse(line);
            r.Some? ==> InRange(r.value) && Printable(r.value) && Filled(r.value) == r.value && Parse(Print(r.value)) == r
  {
    var r := Parse(line);
    if r.Some? {
      var parts := Split(Strip(line), ':');
      ParseDepsBelow(Split(Strip(parts[1]), ','));
      ParseDepsBelow(Split(parts[2], ','));
      PrintParseExact(r.value);
    }
  }

  // long(fields[i]), stored in a field of the given width
  method ReadNumber(fields: seq<string>, i: nat, bound: nat) returns (n: Option<nat>)
    ensures n == if i < |fields| then ParseBelow(fields[i], bound) else None
  {
    if i >= |fields| {
      return None;
    }
    n := ParseNat(fields[i]);
    if n.Some? && n.value >= bound {
      n := None;
    }
  }

  // The fields before the first colon.
  method ReadInfo(f: seq<string>) returns (r: Option<Info>)
    ensures r == ParseInfo(f)
  {
    var seqNum := ReadNumber(f, 0, TWO64);
    if seqNum.None? {
      return None;
    }
    var pc := ReadNumber(f, 1, TWO64);
    if pc.None? {
      return None;
    }
    var weight := ReadNumber(f, 2, TWO32);
    if weight.None? || |f| < 4 {
      return None;
    }
    var kind := KindOf(f[3]);
    if kind.None? || kind.value.INVALID? {
      return None;
    }
    var pAddr, size, flags, compDelay: Option<nat> := None, None, None, None;
    if kind.value.LOAD? || kind.value.STORE? {
      if |f| < 8 {
        return None;
      }
      pAddr := ReadNumber(f, 4, TWO64);
      size := ReadNumber(f, 5, TWO32);
      flags := ReadNumber(f, 6, TWO32);
      compDelay := ReadNumber(f, 7, TWO64);
      if pAddr.None? || size.None? || flags.None? {
        return None;
      }
    } else {
      compDelay := ReadNumber(f, 4, TWO64);
    }
    if compDelay.None? {
      return None;
    }
    r := Some(Info(seqNum.value, pc.value, weight.value, kind.value, pAddr, size, flags, compDelay.value));
  }

  /** The body of the encoder's loop.  A printed record is read back with its defaults
      filled in; of any other line, what is read is a record that the printer can write
      and that reads back as itself. */
  method ReadRecord(line: string) returns (r: Option<Record>)
    ensures r.Some? ==> Says(line, r.value) && r.value.pc.Some? && r.value.weight.Some?
    ensures r.None? ==> forall q: Record :: q.pc.Some? && q.weight.Some? ==> !Says(line, q)
    ensures r == Parse(line)
    ensures forall q :: InRange(q) && Printable(q) && line == Print(q) ==> r == Some(Filled(q))
    ensures r.Some? ==> InRange(r.value) && Printable(r.value) && Parse(Print(r.value)) == r
  {
    ParseSettles(line);
    forall q ensures Parse(line) == Some(q) <==> Says(line, q) && q.pc.Some? && q.weight.Some? { ParseExact(line, q); }
    forall q | InRange(q) && Printable(q) && line == Print(q) ensures Parse(line) == Some(Filled(q)) {
      PrintParseExact(q);
    }
    var parts := Split(Strip(line), ':');
    if |parts| != 3 {
      return None;
    }
    var info := ReadInfo(Split(parts[0], ','));
    if info.None? {
      return None;
    }
    var rob := ReadDeps(Split(Strip(parts[1]), ','));
    var reg := ReadDeps(Split(parts[2], ','));
    if rob.None? || reg.None? {
      return None;
    }
    var i := info.value;
    r := Some(Record(i.seqNum, Some(i.pc), Some(i.weight), i.kind, i.pAddr, i.size, i.flags, i.compDelay,
                     rob.value, reg.value, None, None));
  }

  method DecodeFile(rs: seq<Record>) returns (text: string)
    ensures text == PrintAll(rs)
  {
    text := "";
    for i := 0 to |rs|
      invariant text + PrintAll(rs[i..]) == PrintAll(rs)
    {
      var line := WriteRecord(rs[i]);
      text := text + line;
    }
  }

  function Prepend(done: seq<Record>, o: Option<seq<Record>>): Option<seq<Record>> {
    if o.None? then None else Some(done + o.value)
  }

  lemma {:induction false} PrependStep(done: seq<Record>, lines: seq<string>)
    requires lines != []
    ensures Parse(lines[0]).None? ==> ParseLines(lines).None?
    ensures Parse(lines[0]).Some? ==>
              Prepend(done, ParseLines(lines)) == Prepend(done + [Parse(lines[0]).value], ParseLines(lines[1..]))
  {
    if Parse(lines[0]).Some? && ParseLines(lines[1..]).Some? {
      var r, t := Parse(lines[0]).value, ParseLines(lines[1..]).value;
      assert done + ([r] + t) == done + [r] + t;
    }
  }

  method EncodeFile(text: string) returns (r: Option<seq<Record>>)
    ensures r == ParseLines(Lines(text))
  {
    var lines := Lines(text);
    var done: seq<Record> := [];
    ghost var target := ParseLines(lines);
    assert lines[0..] == lines;
    if target.Some? { assert [] + target.value == target.value; }
    for i := 0 to |lines|
      invariant target == Prepend(done, ParseLines(lines[i..]))
    {
      assert lines[i..][1..] == lines[i + 1..];
      PrependStep(done, lines[i..]);
      var rec := ReadRecord(lines[i]);
      if rec.None? {
        return None;
      }
      done := done + [rec.value];
    }
    assert lines[|lines|..] == [];
    assert done + [] == done;
    r := Some(done);
  }
}
