/** The timeline rows of one instruction (print_inst in util/o3-pipeview.py), without
    colours.

    A row covers `width` cycles of `cycle` ticks.  An instruction whose last event lies
    less than one row after its fetch is drawn on a single row that wraps around.
 */
module Timeline {
  import opened Common
  import opened ReorderBuffer
  import opened Bits
  import opened PyList
  import opened Text

  datatype Stage = Fetch | Decode | Rename | Dispatch | Issue | Complete | Retire | Store

  function Tick(x: Inst, s: Stage): int {
    match s
    case Fetch => x.fetch
    case Decode => x.decode
    case Rename => x.rename
    case Dispatch => x.dispatch
    case Issue => x.issue
    case Complete => x.complete
    case Retire => x.retire
    case Store => x.store
  }

  function Letter(s: Stage): char {
    match s
    case Fetch => 'f'
    case Decode => 'd'
    case Rename => 'n'
    case Dispatch => 'p'
    case Issue => 'i'
    case Complete => 'c'
    case Retire => 'r'
    case Store => 's'
  }

  function StageName(s: Stage): string {
    match s
    case Fetch => "fetch"
    case Decode => "decode"
    case Rename => "rename"
    case Dispatch => "dispatch"
    case Issue => "issue"
    case Complete => "complete"
    case Retire => "retire"
    case Store => "store"
  }

  function Stages(stores: bool): seq<Stage> {
    [Fetch, Decode, Rename, Dispatch, Issue, Complete, Retire] + if stores then [Store] else []
  }

  /** The table of stages: name, letter and tick of each. */
  lemma {:induction false} StageTable(x: Inst, stores: bool, k: nat)
    requires k < |Stages(stores)|
    ensures |Stages(stores)| == if stores then 8 else 7
    ensures var s := Stages(stores)[k];
            && StageName(s) == ["fetch", "decode", "rename", "dispatch", "issue", "complete", "retire", "store"][k]
            && Letter(s) == "fdnpicrs"[k]
            && Tick(x, s) == [x.fetch, x.decode, x.rename, x.dispatch, x.issue, x.complete, x.retire, x.store][k]
  {
    assert k == 0 || k == 1 || k == 2 || k == 3 || k == 4 || k == 5 || k == 6 || k == 7;
  }

  // What the command line fixes: the row length in cycles and the ticks per cycle.
  datatype Layout = Layout(width: nat, cycle: nat, stores: bool)

  predicate Positive(l: Layout) { l.width > 0 && l.cycle > 0 }

  function RowTicks(l: Layout): nat { l.width * l.cycle }

  // ---------------------------------------------------------------- rows

  function Max(a: int, b: int): int { if a < b then b else a }

  function LastOf(x: Inst, stages: seq<Stage>): int
    requires stages != []
  {
    if |stages| == 1 then Tick(x, stages[0])
    else Max(LastOf(x, stages[..|stages| - 1]), Tick(x, stages[|stages| - 1]))
  }

  function LastEvent(x: Inst, l: Layout): int { LastOf(x, Stages(l.stores)) }

  lemma {:induction false} LastOfBounds(x: Inst, stages: seq<Stage>, s: Stage)
    requires s in stages
    ensures Tick(x, s) <= LastOf(x, stages)
  {
    if s != stages[|stages| - 1] { LastOfBounds(x, stages[..|stages| - 1], s); }
  }

  function BaseTick(x: Inst, tw: nat): int
    requires tw > 0
  {
    x.fetch / tw * tw
  }

  predicate Compact(x: Inst, l: Layout, tw: nat) { LastEvent(x, l) - x.fetch < tw }

  function NumLines(x: Inst, l: Layout, tw: nat): int
    requires tw > 0
  {
    if Compact(x, l, tw) then 1 else (LastEvent(x, l) - BaseTick(x, tw)) / tw + 1
  }

  function RowStart(x: Inst, tw: nat, i: int): int
    requires tw > 0
  {
    BaseTick(x, tw) + i * tw
  }

  function RowEnd(x: Inst, l: Layout, tw: nat, i: int): int
    requires tw > 0
  {
    RowStart(x, tw, i) + tw + if NumLines(x, l, tw) == 1 then x.fetch - BaseTick(x, tw) else 0
  }

  predicate InRow(x: Inst, l: Layout, tw: nat, i: int, s: Stage)
    requires tw > 0
  {
    Tick(x, s) != 0 && RowStart(x, tw, i) <= Tick(x, s) < RowEnd(x, l, tw, i)
  }

  lemma {:induction false} DivBounds(a: int, d: nat)
    requires d > 0
    ensures a / d * d <= a < a / d * d + d
  {
  }

  lemma {:induction false} DivInterval(a: int, d: nat, q: int)
    requires d > 0 && q * d <= a < q * d + d
    ensures a / d == q
  {
    DivModUnique(a, d, q, a - q * d);
  }

  lemma {:induction false} DivMonotone(a: int, b: int, d: nat)
    requires d > 0 && a <= b
    ensures a / d <= b / d
  {
    DivBounds(a, d);
    DivBounds(b, d);
    if a / d > b / d { MulGap(d, a / d, b / d); }
  }

  // The only row a tick can be drawn on.
  function RowOf(x: Inst, l: Layout, tw: nat, s: Stage): int
    requires tw > 0
  {
    if NumLines(x, l, tw) == 1 then 0 else (Tick(x, s) - BaseTick(x, tw)) / tw
  }

  lemma {:induction false} RowExists(x: Inst, l: Layout, tw: nat, s: Stage)
    requires tw > 0 && s in Stages(l.stores) && Tick(x, s) != 0 && Tick(x, s) >= BaseTick(x, tw)
    ensures 0 <= RowOf(x, l, tw, s) < NumLines(x, l, tw) && InRow(x, l, tw, RowOf(x, l, tw, s), s)
  {
    var t, b := Tick(x, s), BaseTick(x, tw);
    LastOfBounds(x, Stages(l.stores), s);
    DivBounds(x.fetch, tw);
    DivBounds(t - b, tw);
    DivMonotone(t - b, LastEvent(x, l) - b, tw);
    DivMonotone(0, t - b, tw);
    DivInterval(0, tw, 0);
    if NumLines(x, l, tw) == 1 && !Compact(x, l, tw) {
      DivBounds(LastEvent(x, l) - b, tw);
    }
  }

  lemma {:induction false} RowUnique(x: Inst, l: Layout, tw: nat, s: Stage, i: int)
    requires tw > 0 && 0 <= i < NumLines(x, l, tw) && InRow(x, l, tw, i, s)
    ensures i == RowOf(x, l, tw, s) && Tick(x, s) >= BaseTick(x, tw)
  {
    if NumLines(x, l, tw) != 1 {
      DivInterval(Tick(x, s) - BaseTick(x, tw), tw, i);
      if i > 0 { MulAtLeast(i, tw); }
    }
  }

  /** Every event at or after the tick where the first row starts is drawn on exactly
      one row; an earlier one is drawn on none. */
  lemma {:induction false} DrawnOnExactlyOneRow(x: Inst, l: Layout, tw: nat, s: Stage)
    requires tw > 0 && s in Stages(l.stores) && Tick(x, s) != 0
    ensures Tick(x, s) >= BaseTick(x, tw) <==> exists i :: 0 <= i < NumLines(x, l, tw) && InRow(x, l, tw, i, s)
    ensures forall i, j ::
              (0 <= i < NumLines(x, l, tw) && 0 <= j < NumLines(x, l, tw) && InRow(x, l, tw, i, s) && InRow(x, l, tw, j, s))
              ==> i == j
  {
    forall i | 0 <= i < NumLines(x, l, tw) && InRow(x, l, tw, i, s)
      ensures i == RowOf(x, l, tw, s) && Tick(x, s) >= BaseTick(x, tw)
    {
      RowUnique(x, l, tw, s, i);
    }
    if Tick(x, s) >= BaseTick(x, tw) { RowExists(x, l, tw, s); }
  }

  // No stage lies a row or more after fetch, so one row that wraps around is enough.
  ghost predicate Wraps(x: Inst, l: Layout) {
    forall s :: s in Stages(l.stores) ==> Tick(x, s) < x.fetch + RowTicks(l)
  }

  // Row i shows what happens at tick t.
  ghost predicate OnRow(x: Inst, l: Layout, i: int, t: int)
    requires RowTicks(l) > 0
  {
    var tw := RowTicks(l);
    if Wraps(x, l) then x.fetch / tw * tw <= t < x.fetch + tw else t / tw == x.fetch / tw + i
  }

  // A single row that wraps, or the rows from that of fetch to that of the last stage.
  ghost predicate RowNumber(n: nat, x: Inst, l: Layout)
    requires RowTicks(l) > 0
  {
    var tw := RowTicks(l);
    && n >= 1 && (n == 1 <==> Wraps(x, l))
    && (n > 1 ==> && (exists s :: s in Stages(l.stores) && Tick(x, s) / tw == x.fetch / tw + n - 1)
                  && (forall s :: s in Stages(l.stores) ==> Tick(x, s) / tw <= x.fetch / tw + n - 1))
  }

  lemma {:induction false} LastOfReached(x: Inst, stages: seq<Stage>) returns (s: Stage)
    requires stages != []
    ensures s in stages && Tick(x, s) == LastOf(x, stages)
  {
    s := stages[|stages| - 1];
    if |stages| > 1 && LastOf(x, stages) != Tick(x, s) { s := LastOfReached(x, stages[..|stages| - 1]); }
  }

  lemma {:induction false} ShiftedDiv(t: int, f: int, tw: nat)
    requires tw > 0
    ensures (t - f / tw * tw) / tw == t / tw - f / tw
  {
    DivBounds(t, tw);
    var q := t / tw - f / tw;
    assert q * tw == t / tw * tw - f / tw * tw;
    DivInterval(t - f / tw * tw, tw, q);
  }

  /** How many rows an instruction gets: one exactly if no stage lies a row or more after
      fetch, and otherwise those from the row of fetch to the row of its last stage. */
  lemma {:induction false} RowCount(x: Inst, l: Layout)
    requires RowTicks(l) > 0
    ensures NumLines(x, l, RowTicks(l)) >= 1 && RowNumber(NumLines(x, l, RowTicks(l)), x, l)
  {
    var tw, stages, last := RowTicks(l), Stages(l.stores), LastEvent(x, l);
    forall s | s in stages ensures Tick(x, s) <= last && Tick(x, s) / tw <= last / tw {
      LastOfBounds(x, stages, s);
      DivMonotone(Tick(x, s), last, tw);
    }
    var s := LastOfReached(x, stages);
    assert Wraps(x, l) <==> last - x.fetch < tw;
    ShiftedDiv(last, x.fetch, tw);
    if !Wraps(x, l) {
      DivBounds(x.fetch, tw);
      DivMonotone(tw, last - x.fetch / tw * tw, tw);
      DivInterval(tw, tw, 1);
    }
  }

  lemma {:induction false} DivWindow(t: int, tw: nat, q: int)
    requires tw > 0
    ensures t / tw == q <==> q * tw <= t < q * tw + tw
  {
    DivBounds(t, tw);
    if q * tw <= t < q * tw + tw { DivInterval(t, tw, q); }
  }

  lemma {:induction false} StartOfRow(x: Inst, tw: nat, i: int)
    requires tw > 0
    ensures RowStart(x, tw, i) == (x.fetch / tw + i) * tw
  {
    assert (x.fetch / tw + i) * tw == x.fetch / tw * tw + i * tw;
  }

  // The window of each row, in ticks.
  lemma {:induction false} RowWindow(x: Inst, l: Layout, tw: nat, i: int, s: Stage)
    requires tw == RowTicks(l) > 0 && 0 <= i < NumLines(x, l, tw)
    ensures InRow(x, l, tw, i, s) <==> Tick(x, s) != 0 && OnRow(x, l, i, Tick(x, s))
  {
    RowCount(x, l);
    StartOfRow(x, tw, i);
    if Wraps(x, l) {
      assert i == 0;
    } else {
      DivWindow(Tick(x, s), tw, x.fetch / tw + i);
    }
  }

  // ---------------------------------------------------------------- columns

  function Column(t: int, l: Layout, tw: nat): int
    requires tw > 0 && l.cycle > 0
  {
    t % tw / l.cycle
  }

  /** Two different ticks less than a row apart never share a position in the row, so
      neither the wrapped single row nor the rows of a long instruction mix them up. */
  lemma {:induction false} ResiduesDiffer(t: int, u: int, tw: nat)
    requires tw > 0 && t < u < t + tw
    ensures t % tw != u % tw
  {
    DivBounds(t, tw);
    DivBounds(u, tw);
    if t % tw == u % tw {
      assert u - t == u / tw * tw - t / tw * tw;
      if u / tw > t / tw { MulGap(tw, u / tw, t / tw); }
      if u / tw < t / tw { MulGap(tw, t / tw, u / tw); }
    }
  }

  lemma {:induction false} RowKeepsTicksApart(x: Inst, l: Layout, tw: nat, i: int, s: Stage, r: Stage)
    requires tw > 0 && InRow(x, l, tw, i, s) && InRow(x, l, tw, i, r) && Tick(x, s) != Tick(x, r)
    requires NumLines(x, l, tw) == 1 ==> i == 0 && Tick(x, s) >= x.fetch && Tick(x, r) >= x.fetch
    ensures Tick(x, s) % tw != Tick(x, r) % tw
  {
    if Tick(x, s) < Tick(x, r) {
      ResiduesDiffer(Tick(x, s), Tick(x, r), tw);
    } else {
      ResiduesDiffer(Tick(x, r), Tick(x, s), tw);
    }
  }

  // ---------------------------------------------------------------- events of a row

  datatype Event = Event(offset: int, stage: Stage)

  function EventsOf(x: Inst, l: Layout, tw: nat, i: int, stages: seq<Stage>): seq<Event>
    requires tw > 0
  {
    if stages == [] then []
    else
      var s := stages[|stages| - 1];
      EventsOf(x, l, tw, i, stages[..|stages| - 1]) + (if InRow(x, l, tw, i, s) then [Event(Tick(x, s) % tw, s)] else [])
  }

  predicate EventLe(a: Event, b: Event) {
    a.offset < b.offset || (a.offset == b.offset && StringLe(StageName(a.stage), StageName(b.stage)))
  }

  lemma {:induction false} EventOrder(a: Event, b: Event, c: Event)
    ensures EventLe(a, b) || EventLe(b, a)
    ensures EventLe(a, b) && EventLe(b, c) ==> EventLe(a, c)
  {
    StringOrder(StageName(a.stage), StageName(b.stage), StageName(c.stage));
  }

  function InsertEvent(es: seq<Event>, e: Event): seq<Event> {
    if es == [] || EventLe(es[|es| - 1], e) then es + [e]
    else InsertEvent(es[..|es| - 1], e) + [es[|es| - 1]]
  }

  // events.sort()
  function SortEvents(es: seq<Event>): seq<Event> {
    if es == [] then [] else InsertEvent(SortEvents(es[..|es| - 1]), es[|es| - 1])
  }

  ghost predicate InOrder(es: seq<Event>) { forall i, j :: 0 <= i < j < |es| ==> EventLe(es[i], es[j]) }

  lemma {:induction false} InsertEventPermutes(es: seq<Event>, e: Event)
    ensures multiset(InsertEvent(es, e)) == multiset(es + [e])
  {
    if es != [] && !EventLe(es[|es| - 1], e) {
      InsertEventPermutes(es[..|es| - 1], e);
      assert es == es[..|es| - 1] + [es[|es| - 1]];
    }
  }

  lemma {:induction false} InsertEventSorts(es: seq<Event>, e: Event)
    requires InOrder(es)
    ensures InOrder(InsertEvent(es, e))
  {
    if es == [] {
    } else if EventLe(es[|es| - 1], e) {
      forall i | 0 <= i < |es| ensures EventLe(es[i], e) {
        if i < |es| - 1 { EventOrder(es[i], es[|es| - 1], e); }
      }
    } else {
      var t, l := es[..|es| - 1], es[|es| - 1];
      InsertEventSorts(t, e);
      InsertEventPermutes(t, e);
      EventOrder(e, l, l);
      var r := InsertEvent(t, e);
      forall i | 0 <= i < |r| ensures EventLe(r[i], l) {
        assert r[i] in multiset(t + [e]);
      }
    }
  }

  lemma {:induction false} SortEventsCorrect(es: seq<Event>)
    ensures InOrder(SortEvents(es)) && multiset(SortEvents(es)) == multiset(es)
    ensures forall e :: e in SortEvents(es) <==> e in es
  {
    if es != [] {
      var t := es[..|es| - 1];
      SortEventsCorrect(t);
      InsertEventSorts(SortEvents(t), es[|es| - 1]);
      InsertEventPermutes(SortEvents(t), es[|es| - 1]);
      assert es == t + [es[|es| - 1]];
    }
    assert forall e :: e in SortEvents(es) <==> e in multiset(SortEvents(es));
    assert forall e :: e in es <==> e in multiset(es);
  }

  // ---------------------------------------------------------------- text of a row

  datatype Cell = Cell(column: int, letter: char)

  // Dispatch is not drawn when it coincides with issue.
  function Cells(x: Inst, l: Layout, es: seq<Event>): seq<Cell>
    requires l.cycle > 0
  {
    if es == [] then []
    else
      var e := es[|es| - 1];
      Cells(x, l, es[..|es| - 1]) +
      (if e.stage.Dispatch? && x.dispatch == x.issue then [] else [Cell(e.offset / l.cycle, Letter(e.stage))])
  }

  function Dots(n: int, dot: char): string { if n <= 0 then [] else Dots(n - 1, dot) + [dot] }

  // the variable pos after the given cells
  function Pos(cs: seq<Cell>): int { if cs == [] then 0 else cs[|cs| - 1].column + 1 }

  function Drawn(cs: seq<Cell>, dot: char): string {
    if cs == [] then []
    else
      var t, c := cs[..|cs| - 1], cs[|cs| - 1];
      Drawn(t, dot) + Dots(c.column - Pos(t), dot) + [c.letter]
  }

  function RowText(cs: seq<Cell>, width: nat, dot: char): string { Drawn(cs, dot) + Dots(width - Pos(cs), dot) }

  // cells that fall on the column of the one before them
  function Shared(cs: seq<Cell>): nat {
    if |cs| <= 1 then 0
    else Shared(cs[..|cs| - 1]) + if cs[|cs| - 1].column == cs[|cs| - 2].column then 1 else 0
  }

  ghost predicate LeftToRight(cs: seq<Cell>) {
    && (forall i :: 0 <= i < |cs| ==> 0 <= cs[i].column)
    && (forall i, j :: 0 <= i < j < |cs| ==> cs[i].column <= cs[j].column)
  }

  lemma {:induction false} DotsLength(n: int, dot: char)
    ensures |Dots(n, dot)| == if n <= 0 then 0 else n
  {
    if n > 0 { DotsLength(n - 1, dot); }
  }

  // The k-th letter stands at its column, shifted by the cells that shared one before it.
  lemma {:induction false} DrawnFacts(cs: seq<Cell>, dot: char)
    requires LeftToRight(cs)
    ensures |Drawn(cs, dot)| == Pos(cs) + Shared(cs)
    ensures cs != [] ==> Drawn(cs, dot)[|Drawn(cs, dot)| - 1] == cs[|cs| - 1].letter
  {
    if cs != [] {
      var t, c := cs[..|cs| - 1], cs[|cs| - 1];
      assert LeftToRight(t);
      DrawnFacts(t, dot);
      DotsLength(c.column - Pos(t), dot);
      if t != [] { assert t[|t| - 1] == cs[|cs| - 2] && cs[|cs| - 2].column <= c.column; }
    }
  }

  lemma {:induction false} DrawnPrefix(cs: seq<Cell>, k: nat, dot: char)
    requires k <= |cs|
    ensures Drawn(cs[..k], dot) <= Drawn(cs, dot)
  {
    if k == |cs| {
      assert cs[..k] == cs;
    } else {
      DrawnPrefix(cs[..|cs| - 1], k, dot);
      assert cs[..|cs| - 1][..k] == cs[..k];
    }
  }

  lemma {:induction false} SharedExactly(cs: seq<Cell>)
    requires LeftToRight(cs)
    ensures Shared(cs) == 0 <==> forall i, j :: 0 <= i < j < |cs| ==> cs[i].column < cs[j].column
  {
    if |cs| > 1 {
      var t := cs[..|cs| - 1];
      assert LeftToRight(t);
      SharedExactly(t);
      assert cs[|cs| - 2].column <= cs[|cs| - 1].column;
      if Shared(cs) == 0 {
        forall i, j | 0 <= i < j < |cs| ensures cs[i].column < cs[j].column {
          if j < |t| { assert t[i].column < t[j].column; } else if i < |cs| - 2 { assert t[i].column < t[|cs| - 2].column; }
        }
      }
      if forall i, j :: 0 <= i < j < |cs| ==> cs[i].column < cs[j].column {
        assert forall i, j :: 0 <= i < j < |t| ==> t[i].column < t[j].column;
      }
    }
  }

  ghost predicate Fits(cs: seq<Cell>, width: nat) {
    LeftToRight(cs) && forall i :: 0 <= i < |cs| ==> cs[i].column < width
  }

  /** Every row, drawn on or not, has one character per cycle exactly when no two drawn
      events fall in the same cycle; each further event of a cycle makes it one longer. */
  lemma {:induction false} RowTextExact(cs: seq<Cell>, width: nat, dot: char)
    requires Fits(cs, width)
    ensures var r := RowText(cs, width, dot);
            && |r| == width + Shared(cs)
            && (|r| == width <==> forall i, j :: 0 <= i < j < |cs| ==> cs[i].column < cs[j].column)
  {
    DrawnFacts(cs, dot);
    DotsLength(width - Pos(cs), dot);
    SharedExactly(cs);
  }

  /** The k-th event's letter stands at its own column, moved right by the earlier events
      that share one. */
  lemma {:induction false} RowTextLetter(cs: seq<Cell>, width: nat, dot: char, k: nat)
    requires Fits(cs, width) && k < |cs|
    ensures var r, at := RowText(cs, width, dot), cs[k].column + Shared(cs[..k + 1]);
            at < |r| && r[at] == cs[k].letter
  {
    var p := cs[..k + 1];
    assert LeftToRight(p) && p[|p| - 1] == cs[k];
    DrawnFacts(p, dot);
    DrawnPrefix(cs, k + 1, dot);
    var d := Drawn(p, dot);
    assert d <= RowText(cs, width, dot);
    assert d[|d| - 1] == RowText(cs, width, dot)[|d| - 1];
  }

  // Where the letter of cell k stands.
  function LetterAt(cs: seq<Cell>, k: nat): int
    requires k < |cs|
  {
    cs[k].column + Shared(cs[..k + 1])
  }

  ghost predicate HasLetter(cs: seq<Cell>, p: int) { exists k :: 0 <= k < |cs| && LetterAt(cs, k) == p }

  lemma {:induction false} DotsAll(n: int, dot: char, p: nat)
    requires p < |Dots(n, dot)|
    ensures Dots(n, dot)[p] == dot
  {
    if p < |Dots(n - 1, dot)| { DotsAll(n - 1, dot, p); }
  }

  lemma {:induction false} DrawnDots(cs: seq<Cell>, dot: char, p: nat)
    requires LeftToRight(cs) && p < |Drawn(cs, dot)| && !HasLetter(cs, p)
    ensures Drawn(cs, dot)[p] == dot
  {
    var t, c := cs[..|cs| - 1], cs[|cs| - 1];
    assert LeftToRight(t);
    DrawnFacts(cs, dot);
    assert cs[..|cs| - 1 + 1] == cs;
    assert LetterAt(cs, |cs| - 1) == |Drawn(cs, dot)| - 1 != p;
    if p < |Drawn(t, dot)| {
      forall k | 0 <= k < |t| ensures LetterAt(t, k) == LetterAt(cs, k) { assert t[..k + 1] == cs[..k + 1]; }
      DrawnDots(t, dot, p);
    } else {
      DotsAll(c.column - Pos(t), dot, p - |Drawn(t, dot)|);
    }
  }

  /** Everything else in a row is the dot. */
  lemma {:induction false} RowTextDots(cs: seq<Cell>, width: nat, dot: char, p: nat)
    requires Fits(cs, width) && p < |RowText(cs, width, dot)| && !HasLetter(cs, p)
    ensures RowText(cs, width, dot)[p] == dot
  {
    var d := Drawn(cs, dot);
    if p < |d| { DrawnDots(cs, dot, p); } else { DotsAll(width - Pos(cs), dot, p - |d|); }
  }

  // The text shows the cells: each letter in its place and dots everywhere else.
  ghost predicate Shows(text: string, cs: seq<Cell>, width: nat, dot: char) {
    && |text| == width + Shared(cs)
    && (forall k :: 0 <= k < |cs| ==> 0 <= LetterAt(cs, k) < |text| && text[LetterAt(cs, k)] == cs[k].letter)
    && (forall p :: 0 <= p < |text| && !HasLetter(cs, p) ==> text[p] == dot)
  }

  lemma {:induction false} RowTextShows(cs: seq<Cell>, width: nat, dot: char)
    requires Fits(cs, width)
    ensures Shows(RowText(cs, width, dot), cs, width, dot)
  {
    var text := RowText(cs, width, dot);
    RowTextExact(cs, width, dot);
    forall k | 0 <= k < |cs| ensures 0 <= LetterAt(cs, k) < |text| && text[LetterAt(cs, k)] == cs[k].letter {
      RowTextLetter(cs, width, dot, k);
    }
    forall p | 0 <= p < |text| && !HasLetter(cs, p) ensures text[p] == dot {
      RowTextDots(cs, width, dot, p);
    }
  }

  // ---------------------------------------------------------------- rows and events together

  function RowEvents(x: Inst, l: Layout, tw: nat, i: int): seq<Event>
    requires tw > 0
  {
    SortEvents(EventsOf(x, l, tw, i, Stages(l.stores)))
  }

  function RowCells(x: Inst, l: Layout, tw: nat, i: int): seq<Cell>
    requires tw > 0 && l.cycle > 0
  {
    Cells(x, l, RowEvents(x, l, tw, i))
  }

  lemma {:induction false} EventsMembers(x: Inst, l: Layout, tw: nat, i: int, stages: seq<Stage>, e: Event)
    requires tw > 0
    ensures e in EventsOf(x, l, tw, i, stages) <==>
            e.stage in stages && InRow(x, l, tw, i, e.stage) && e.offset == Tick(x, e.stage) % tw
  {
    if stages != [] {
      EventsMembers(x, l, tw, i, stages[..|stages| - 1], e);
      assert e.stage in stages <==> e.stage in stages[..|stages| - 1] || e.stage == stages[|stages| - 1];
    }
  }

  // A dispatch that coincides with issue is not drawn.
  predicate Visible(x: Inst, s: Stage) { !(s.Dispatch? && x.dispatch == x.issue) }

  ghost function VisibleOf(x: Inst, es: seq<Event>): seq<Event> {
    if es == [] then []
    else
      var e := es[|es| - 1];
      VisibleOf(x, es[..|es| - 1]) + if Visible(x, e.stage) then [e] else []
  }

  lemma {:induction false} VisibleMembers(x: Inst, es: seq<Event>, e: Event)
    ensures e in VisibleOf(x, es) <==> e in es && Visible(x, e.stage)
  {
    if es != [] {
      VisibleMembers(x, es[..|es| - 1], e);
      assert e in es <==> e in es[..|es| - 1] || e == es[|es| - 1];
    }
  }

  lemma {:induction false} VisibleInOrder(x: Inst, es: seq<Event>)
    requires InOrder(es) && Distinct(es)
    ensures InOrder(VisibleOf(x, es)) && Distinct(VisibleOf(x, es))
  {
    if es != [] {
      var t, e := es[..|es| - 1], es[|es| - 1];
      VisibleInOrder(x, t);
      var v := VisibleOf(x, t);
      forall k | 0 <= k < |v| ensures EventLe(v[k], e) && v[k] != e {
        VisibleMembers(x, t, v[k]);
        var i :| 0 <= i < |t| && t[i] == v[k];
        assert es[i] == t[i];
      }
    }
  }

  lemma {:induction false} CellsOfVisible(x: Inst, l: Layout, es: seq<Event>)
    requires l.cycle > 0
    ensures var cs, v := Cells(x, l, es), VisibleOf(x, es);
            |cs| == |v| && forall k :: 0 <= k < |v| ==> cs[k] == Cell(v[k].offset / l.cycle, Letter(v[k].stage))
  {
    if es != [] { CellsOfVisible(x, l, es[..|es| - 1]); }
  }

  ghost predicate OffsetsBelow(es: seq<Event>, bound: int) { forall k :: 0 <= k < |es| ==> 0 <= es[k].offset < bound }

  lemma {:induction false} ColumnBounds(offset: int, l: Layout)
    requires Positive(l) && 0 <= offset < RowTicks(l)
    ensures 0 <= offset / l.cycle < l.width
  {
    LastColumn(l);
    DivMonotone(offset, RowTicks(l) - 1, l.cycle);
    DivMonotone(0, offset, l.cycle);
    DivInterval(0, l.cycle, 0);
  }

  lemma {:induction false} EventsFit(es: seq<Event>, cs: seq<Cell>, l: Layout)
    requires Positive(l) && InOrder(es) && OffsetsBelow(es, RowTicks(l))
    requires |cs| == |es| && forall k :: 0 <= k < |es| ==> cs[k].column == es[k].offset / l.cycle
    ensures Fits(cs, l.width)
  {
    forall k | 0 <= k < |cs| ensures 0 <= cs[k].column < l.width { ColumnBounds(es[k].offset, l); }
    forall j, k | 0 <= j < k < |cs| ensures cs[j].column <= cs[k].column {
      assert EventLe(es[j], es[k]);
      DivMonotone(es[j].offset, es[k].offset, l.cycle);
    }
  }

  lemma {:induction false} EventsDistinct(x: Inst, l: Layout, tw: nat, i: int, stages: seq<Stage>)
    requires tw > 0 && Distinct(stages)
    ensures Distinct(EventsOf(x, l, tw, i, stages))
  {
    if stages != [] {
      var t, s := stages[..|stages| - 1], stages[|stages| - 1];
      EventsDistinct(x, l, tw, i, t);
      EventsMembers(x, l, tw, i, t, Event(Tick(x, s) % tw, s));
      assert s !in t;
    }
  }

  // The drawn events of a row: sorted, and exactly those of the visible stages in it.
  ghost function DrawnEvents(x: Inst, l: Layout, tw: nat, i: int): seq<Event>
    requires tw > 0
  {
    VisibleOf(x, RowEvents(x, l, tw, i))
  }

  lemma {:induction false} RowEventsDistinct(x: Inst, l: Layout, tw: nat, i: int)
    requires tw > 0
    ensures InOrder(RowEvents(x, l, tw, i)) && Distinct(RowEvents(x, l, tw, i))
  {
    var stages := AllStages(l.stores);
    EventsDistinct(x, l, tw, i, stages);
    SortEventsDistinct(EventsOf(x, l, tw, i, stages));
  }

  lemma {:induction false} AllStages(stores: bool) returns (stages: seq<Stage>)
    ensures stages == Stages(stores) && Distinct(stages)
  {
    stages := Stages(stores);
  }

  lemma {:induction false} SortEventsDistinct(es: seq<Event>)
    requires Distinct(es)
    ensures InOrder(SortEvents(es)) && Distinct(SortEvents(es))
  {
    SortEventsCorrect(es);
    DistinctPermuted(es, SortEvents(es));
  }

  lemma {:induction false} DrawnEventsFacts(x: Inst, l: Layout, tw: nat, i: int)
    requires tw > 0
    ensures InOrder(DrawnEvents(x, l, tw, i)) && Distinct(DrawnEvents(x, l, tw, i))
    ensures OffsetsBelow(DrawnEvents(x, l, tw, i), tw)
  {
    RowEventsDistinct(x, l, tw, i);
    VisibleInOrder(x, RowEvents(x, l, tw, i));
    var v := DrawnEvents(x, l, tw, i);
    forall k | 0 <= k < |v| ensures 0 <= v[k].offset < tw {
      DrawnEventsMembers(x, l, tw, i, v[k]);
    }
  }

  lemma {:induction false} DrawnEventsMembers(x: Inst, l: Layout, tw: nat, i: int, e: Event)
    requires tw > 0
    ensures e in DrawnEvents(x, l, tw, i) <==>
            && e.stage in Stages(l.stores) && Visible(x, e.stage) && InRow(x, l, tw, i, e.stage)
            && e.offset == Tick(x, e.stage) % tw
  {
    var raw := EventsOf(x, l, tw, i, Stages(l.stores));
    SortEventsCorrect(raw);
    EventsMembers(x, l, tw, i, Stages(l.stores), e);
    VisibleMembers(x, RowEvents(x, l, tw, i), e);
  }

  /** Every row is drawn left to right inside its width. */
  lemma {:induction false} RowOrdered(x: Inst, l: Layout, i: int)
    requires Positive(l) && RowTicks(l) > 0
    ensures Fits(RowCells(x, l, RowTicks(l), i), l.width)
  {
    var tw := RowTicks(l);
    DrawnEventsFacts(x, l, tw, i);
    CellsOfVisible(x, l, RowEvents(x, l, tw, i));
    EventsFit(DrawnEvents(x, l, tw, i), RowCells(x, l, tw, i), l);
  }

  lemma {:induction false} LastColumn(l: Layout)
    requires Positive(l) && RowTicks(l) > 0
    ensures (RowTicks(l) - 1) / l.cycle < l.width
  {
    var m := RowTicks(l) - 1;
    DivBounds(m, l.cycle);
    if m / l.cycle > l.width { MulGap(l.cycle, m / l.cycle, l.width); }
  }

  /** Each stage reached at or after the start of the first row is drawn, with its own
      letter and at its own column, on the one row that covers its tick (a dispatch
      that coincides with issue excepted). */
  lemma {:induction false} StageDrawn(x: Inst, l: Layout, s: Stage)
    requires Positive(l) && RowTicks(l) > 0 && s in Stages(l.stores)
    requires Tick(x, s) != 0 && Tick(x, s) >= BaseTick(x, RowTicks(l))
    requires !(s.Dispatch? && x.dispatch == x.issue)
    ensures var tw := RowTicks(l); var i := RowOf(x, l, tw, s);
            && 0 <= i < NumLines(x, l, tw)
            && Cell(Column(Tick(x, s), l, tw), Letter(s)) in RowCells(x, l, tw, i)
  {
    var tw := RowTicks(l);
    var i, e := RowOf(x, l, tw, s), Event(Tick(x, s) % tw, s);
    RowExists(x, l, tw, s);
    DrawnEventsMembers(x, l, tw, i, e);
    CellsOfVisible(x, l, RowEvents(x, l, tw, i));
    var k :| 0 <= k < |DrawnEvents(x, l, tw, i)| && DrawnEvents(x, l, tw, i)[k] == e;
    assert RowCells(x, l, tw, i)[k] == Cell(e.offset / l.cycle, Letter(s));
  }

  // The single row of a compact instruction has no events only if nothing was reached.
  lemma {:induction false} CompactRowEmpty(x: Inst, l: Layout, tw: nat)
    requires tw > 0 && Compact(x, l, tw) && forall s :: s in Stages(l.stores) ==> Tick(x, s) >= 0
    ensures RowEvents(x, l, tw, 0) == [] <==> forall s :: s in Stages(l.stores) ==> Tick(x, s) == 0
  {
    var raw := EventsOf(x, l, tw, 0, Stages(l.stores));
    SortEventsCorrect(raw);
    DivBounds(x.fetch, tw);
    assert Fetch in Stages(l.stores) && Tick(x, Fetch) == x.fetch >= 0;
    forall s | s in Stages(l.stores) && Tick(x, s) != 0 ensures raw != [] {
      var s' := if x.fetch > 0 then Fetch else s;
      RowExists(x, l, tw, s');
      EventsMembers(x, l, tw, 0, Stages(l.stores), Event(Tick(x, s') % tw, s'));
    }
    if raw != [] {
      EventsMembers(x, l, tw, 0, Stages(l.stores), raw[0]);
      assert Tick(x, raw[0].stage) != 0;
    }
  }

  // order lists the stages drawn on row i: those reached at a tick of the row, except a
  // dispatch that coincides with issue, by position in the row and then by name.
  ghost predicate DrawnOn(x: Inst, l: Layout, i: int, order: seq<Stage>)
    requires RowTicks(l) > 0
  {
    var tw := RowTicks(l);
    && Distinct(order)
    && (forall s :: s in order <==> && s in Stages(l.stores) && Tick(x, s) != 0 && OnRow(x, l, i, Tick(x, s))
                                    && !(s.Dispatch? && x.dispatch == x.issue))
    && (forall j, k :: 0 <= j < k < |order| ==>
          || Tick(x, order[j]) % tw < Tick(x, order[k]) % tw
          || (Tick(x, order[j]) % tw == Tick(x, order[k]) % tw && Precedes(StageName(order[j]), StageName(order[k]))))
  }

  // Each in the cycle of its tick, under its letter.
  ghost predicate CellsFor(cs: seq<Cell>, x: Inst, l: Layout, order: seq<Stage>)
    requires Positive(l) && RowTicks(l) > 0
  {
    && |cs| == |order|
    && forall k :: 0 <= k < |cs| ==> cs[k] == Cell(Tick(x, order[k]) % RowTicks(l) / l.cycle, Letter(order[k]))
  }

  lemma {:induction false} RowStages(x: Inst, l: Layout, tw: nat, i: int) returns (order: seq<Stage>)
    requires Positive(l) && tw == RowTicks(l) > 0 && 0 <= i < NumLines(x, l, tw)
    ensures DrawnOn(x, l, i, order) && CellsFor(RowCells(x, l, tw, i), x, l, order)
  {
    var v := DrawnEvents(x, l, tw, i);
    DrawnEventsFacts(x, l, tw, i);
    CellsOfVisible(x, l, RowEvents(x, l, tw, i));
    order := seq(|v|, k requires 0 <= k < |v| => v[k].stage);
    forall k | 0 <= k < |v| ensures v[k].offset == Tick(x, v[k].stage) % tw { DrawnEventsMembers(x, l, tw, i, v[k]); }
    StagesOfEvents(x, l, tw, i, v, order);
    forall j, k | 0 <= j < k < |order|
      ensures v[j].offset == v[k].offset ==> Precedes(StageName(order[j]), StageName(order[k]))
    {
      assert EventLe(v[j], v[k]);
      StringLeIsDictionary(StageName(order[j]), StageName(order[k]));
    }
    forall j, k | 0 <= j < k < |order| ensures order[j] != order[k] { assert v[j] != v[k]; }
  }

  lemma {:induction false} StagesOfEvents(x: Inst, l: Layout, tw: nat, i: int, v: seq<Event>, order: seq<Stage>)
    requires tw == RowTicks(l) > 0 && 0 <= i < NumLines(x, l, tw) && v == DrawnEvents(x, l, tw, i)
    requires |order| == |v| && forall k :: 0 <= k < |v| ==> order[k] == v[k].stage
    ensures forall s :: s in order <==> && s in Stages(l.stores) && Tick(x, s) != 0 && OnRow(x, l, i, Tick(x, s))
                                        && !(s.Dispatch? && x.dispatch == x.issue)
  {
    forall s ensures s in order <==> && s in Stages(l.stores) && Tick(x, s) != 0 && OnRow(x, l, i, Tick(x, s))
                                     && !(s.Dispatch? && x.dispatch == x.issue)
    {
      var e := Event(Tick(x, s) % tw, s);
      RowWindow(x, l, tw, i, s);
      DrawnEventsMembers(x, l, tw, i, e);
      if s in order {
        var k :| 0 <= k < |order| && order[k] == s;
        DrawnEventsMembers(x, l, tw, i, v[k]);
      }
      if e in v { var k :| 0 <= k < |v| && v[k] == e; assert order[k] == s; }
    }
  }

  // ---------------------------------------------------------------- the program

  datatype Row = Row(start: int, text: string)

  function Dot(x: Inst): char { if x.retire == 0 then '=' else '.' }

  function DrawnRow(x: Inst, l: Layout, tw: nat, i: int): Row
    requires tw > 0 && l.cycle > 0
  {
    Row(RowStart(x, tw, i), RowText(RowCells(x, l, tw, i), l.width, Dot(x)))
  }

  method CollectEvents(x: Inst, l: Layout, tw: nat, i: int) returns (es: seq<Event>)
    requires tw > 0
    ensures es == EventsOf(x, l, tw, i, Stages(l.stores))
  {
    var stages := Stages(l.stores);
    var start, end := RowStart(x, tw, i), RowEnd(x, l, tw, i);
    es := [];
    for k := 0 to |stages|
      invariant es == EventsOf(x, l, tw, i, stages[..k])
    {
      assert stages[..k + 1][..k] == stages[..k];
      var t := Tick(x, stages[k]);
      if t != 0 && start <= t < end {
        es := es + [Event(t % tw, stages[k])];
      }
    }
    assert stages[..|stages|] == stages;
  }

  lemma {:induction false} CellsStep(x: Inst, l: Layout, es: seq<Event>, k: nat)
    requires l.cycle > 0 && k < |es|
    ensures var e, cs := es[k], Cells(x, l, es[..k]);
            Cells(x, l, es[..k + 1]) == if e.stage.Dispatch? && x.dispatch == x.issue then cs
                                        else cs + [Cell(e.offset / l.cycle, Letter(e.stage))]
  {
    assert es[..k + 1][..k] == es[..k];
    assert Cells(x, l, es[..k]) + [] == Cells(x, l, es[..k]);
  }

  lemma {:induction false} DrawnStep(cs: seq<Cell>, c: Cell, dot: char)
    ensures Drawn(cs + [c], dot) == Drawn(cs, dot) + Dots(c.column - Pos(cs), dot) + [c.letter]
    ensures Pos(cs + [c]) == c.column + 1
  {
    assert (cs + [c])[..|cs + [c]| - 1] == cs;
  }

  // text and pos after the first k events
  ghost predicate Drawing(x: Inst, l: Layout, es: seq<Event>, k: nat, text: string, pos: int)
    requires l.cycle > 0 && k <= |es|
  {
    text == Drawn(Cells(x, l, es[..k]), Dot(x)) && pos == Pos(Cells(x, l, es[..k]))
  }

  lemma {:induction false} DrawingStep(x: Inst, l: Layout, es: seq<Event>, k: nat, text: string, pos: int)
    requires l.cycle > 0 && k < |es| && Drawing(x, l, es, k, text, pos)
    ensures var e := es[k]; var column := e.offset / l.cycle;
            if e.stage.Dispatch? && x.dispatch == x.issue then Drawing(x, l, es, k + 1, text, pos)
            else Drawing(x, l, es, k + 1, text + Dots(column - pos, Dot(x)) + [Letter(e.stage)], column + 1)
  {
    var e := es[k];
    CellsStep(x, l, es, k);
    DrawnStep(Cells(x, l, es[..k]), Cell(e.offset / l.cycle, Letter(e.stage)), Dot(x));
  }

  method DrawRow(x: Inst, l: Layout, es: seq<Event>) returns (text: string)
    requires l.cycle > 0
    ensures text == RowText(Cells(x, l, es), l.width, Dot(x))
  {
    var pos := 0;
    text := "";
    for k := 0 to |es|
      invariant Drawing(x, l, es, k, text, pos)
    {
      var e := es[k];
      DrawingStep(x, l, es, k, text, pos);
      if e.stage.Dispatch? && x.dispatch == x.issue {
        continue;
      }
      text := text + Dots(e.offset / l.cycle - pos, Dot(x)) + [Letter(e.stage)];
      pos := e.offset / l.cycle + 1;
    }
    assert es[..|es|] == es;
    text := text + Dots(l.width - pos, Dot(x));
  }

  // The stages drawn on row i and what it looks like.
  ghost predicate ShowsStages(row: Row, x: Inst, l: Layout, order: seq<Stage>, cs: seq<Cell>)
    requires Positive(l) && RowTicks(l) > 0
  {
    CellsFor(cs, x, l, order) && Shows(row.text, cs, l.width, if x.retire == 0 then '=' else '.')
  }

  ghost predicate RowShows(row: Row, x: Inst, l: Layout, i: int)
    requires Positive(l) && RowTicks(l) > 0
  {
    && row.start == (x.fetch / RowTicks(l) + i) * RowTicks(l)
    && exists order, cs :: DrawnOn(x, l, i, order) && ShowsStages(row, x, l, order, cs)
  }

  ghost predicate NothingReached(x: Inst, l: Layout)
    requires RowTicks(l) > 0
  {
    forall s :: s in Stages(l.stores) && Tick(x, s) != 0 ==> !OnRow(x, l, 0, Tick(x, s))
  }

  lemma {:induction false} RowLooks(x: Inst, l: Layout, tw: nat, i: int, order: seq<Stage>)
    requires Positive(l) && tw == RowTicks(l) > 0 && CellsFor(RowCells(x, l, tw, i), x, l, order)
    ensures ShowsStages(DrawnRow(x, l, tw, i), x, l, order, RowCells(x, l, tw, i))
  {
    RowOrdered(x, l, i);
    RowTextShows(RowCells(x, l, tw, i), l.width, Dot(x));
  }

  lemma {:induction false} DrawnRowShows(x: Inst, l: Layout, tw: nat, i: int, row: Row)
    requires Positive(l) && tw == RowTicks(l) > 0 && 0 <= i < NumLines(x, l, tw) && row == DrawnRow(x, l, tw, i)
    ensures RowShows(row, x, l, i)
  {
    var order := RowStages(x, l, tw, i);
    RowLooks(x, l, tw, i, order);
    StartOfRow(x, tw, i);
  }

  lemma {:induction false} EmptyRow(x: Inst, l: Layout, tw: nat)
    requires tw == RowTicks(l) > 0 && NumLines(x, l, tw) >= 1
    ensures RowEvents(x, l, tw, 0) == [] <==> NothingReached(x, l)
  {
    var raw := EventsOf(x, l, tw, 0, Stages(l.stores));
    SortEventsCorrect(raw);
    forall s | s in Stages(l.stores) && Tick(x, s) != 0 && OnRow(x, l, 0, Tick(x, s)) ensures raw != [] {
      RowWindow(x, l, tw, 0, s);
      EventsMembers(x, l, tw, 0, Stages(l.stores), Event(Tick(x, s) % tw, s));
    }
    if raw != [] {
      EventsMembers(x, l, tw, 0, Stages(l.stores), raw[0]);
      RowWindow(x, l, tw, 0, raw[0].stage);
    }
    assert raw == [] <==> RowEvents(x, l, tw, 0) == [] by {
      if raw != [] { assert raw[0] in SortEvents(raw); }
    }
  }

  // All rows of an instruction.
  ghost predicate ShowsInst(rows: seq<Row>, x: Inst, l: Layout)
    requires Positive(l) && RowTicks(l) > 0
  {
    RowNumber(|rows|, x, l) && forall i :: 0 <= i < |rows| ==> RowShows(rows[i], x, l, i)
  }

  lemma {:induction false} RowsShowInst(x: Inst, l: Layout, tw: nat, rows: seq<Row>)
    requires Positive(l) && tw == RowTicks(l) > 0 && |rows| == NumLines(x, l, tw)
    requires forall i :: 0 <= i < |rows| ==> rows[i] == DrawnRow(x, l, tw, i)
    ensures ShowsInst(rows, x, l)
  {
    RowCount(x, l);
    forall i | 0 <= i < |rows| ensures RowShows(rows[i], x, l, i) { DrawnRowShows(x, l, tw, i, rows[i]); }
  }

  lemma {:induction false} SingleRowEmpty(x: Inst, l: Layout, tw: nat)
    requires tw == RowTicks(l) > 0
    ensures NumLines(x, l, tw) >= 1
    ensures NumLines(x, l, tw) == 1 && RowEvents(x, l, tw, 0) == [] <==> Wraps(x, l) && NothingReached(x, l)
  {
    RowCount(x, l);
    EmptyRow(x, l, tw);
  }

  // The loop over the rows.
  method DrawRows(x: Inst, l: Layout, tw: nat) returns (rows: Option<seq<Row>>)
    requires l.cycle > 0 && tw > 0 && NumLines(x, l, tw) >= 1
    ensures rows.None? <==> NumLines(x, l, tw) == 1 && RowEvents(x, l, tw, 0) == []
    ensures rows.Some? ==>
              |rows.value| == NumLines(x, l, tw) && forall i :: 0 <= i < |rows.value| ==> rows.value[i] == DrawnRow(x, l, tw, i)
  {
    var n := NumLines(x, l, tw);
    var out: seq<Row> := [];
    var i := 0;
    while i < n
      invariant i == |out| && 0 <= i <= n
      invariant n == 1 && i == 1 ==> RowEvents(x, l, tw, 0) != []
      invariant forall k :: 0 <= k < |out| ==> out[k] == DrawnRow(x, l, tw, k)
    {
      var raw := CollectEvents(x, l, tw, i);
      var es := SortEvents(raw);
      if n == 1 && es == [] {
        return None;
      }
      var text := DrawRow(x, l, es);
      out := out + [Row(RowStart(x, tw, i), text)];
      i := i + 1;
    }
    rows := Some(out);
  }

  /** print_inst.  None is the exception on a single row without events. */
  method PrintInst(x: Inst, l: Layout) returns (rows: Option<seq<Row>>)
    requires Positive(l)
    ensures RowTicks(l) > 0
    ensures rows.None? <==> Wraps(x, l) && NothingReached(x, l)
    ensures rows.Some? ==> ShowsInst(rows.value, x, l)
  {
    var tw := RowTicks(l);
    SingleRowEmpty(x, l, tw);
    rows := DrawRows(x, l, tw);
    if rows.Some? { RowsShowInst(x, l, tw, rows.value); }
  }
}
