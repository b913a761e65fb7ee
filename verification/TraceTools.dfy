/** The two trace converters end to end: a framed protobuf trace to text and back.
    The protobuf serialiser is a parameter, assumed only to be inverted by its parser.
 */
module TraceTools {
  import opened Common
  import opened Framing
  import D = DepTrace

  type Serialiser = D.Record -> Message
  type Parser = Message -> Option<D.Record>

  // What the protobuf library promises for the records at hand, and a size that fits.
  ghost predicate Inverts(par: Parser, ser: Serialiser, rs: seq<D.Record>) {
    forall r :: r in rs ==> par(ser(r)) == Some(r) && 0 < |ser(r)| < TWO32
  }

  const MAGIC: seq<Byte> := [103, 101, 109, 53]  // "gem5"

  function Serialised(ser: Serialiser, rs: seq<D.Record>): seq<Message> {
    if rs == [] then [] else [ser(rs[0])] + Serialised(ser, rs[1..])
  }

  function Parsed(par: Parser, ms: seq<Message>): Option<seq<D.Record>> {
    if ms == [] then Some([])
    else
      var r, rest := par(ms[0]), Parsed(par, ms[1..]);
      if r.None? || rest.None? then None else Some([r.value] + rest.value)
  }

  // The output of the encoder: magic number, header, one frame per record.
  function TraceFile(header: Message, ser: Serialiser, rs: seq<D.Record>): seq<Byte> {
    MAGIC + Frame(header) + FrameAll(Serialised(ser, rs))
  }

  // The decoder: None if the magic number or a record cannot be read.  Whether there was
  // a header is not looked at.
  function ToText(par: Parser, file: seq<Byte>): Option<string> {
    if |file| < 4 || file[..4] != MAGIC then None
    else
      var rs := Parsed(par, ReadAll(After(file[4..])));
      if rs.None? then None else Some(D.PrintAll(rs.value))
  }

  /** The magic number alone decides whether a file is read; nothing behind it, there are
      no records. */
  lemma {:induction false} MagicDecides(par: Parser, file: seq<Byte>)
    ensures ToText(par, file).Some? ==> MAGIC <= file
    ensures file == MAGIC ==> ToText(par, file) == Some([])
  {
    if |file| >= 4 && file[..4] == MAGIC { assert file == MAGIC + file[4..]; }
  }

  // The encoder, given the header it makes up.
  function FromText(header: Message, ser: Serialiser, text: string): Option<seq<Byte>> {
    var rs := D.ParseLines(D.Lines(text));
    if rs.None? then None else Some(TraceFile(header, ser, rs.value))
  }

  lemma {:induction false} SerialisedSizes(par: Parser, ser: Serialiser, rs: seq<D.Record>)
    requires Inverts(par, ser, rs)
    ensures SizesOk(Serialised(ser, rs))
    ensures Parsed(par, Serialised(ser, rs)) == Some(rs)
  {
    if rs != [] {
      var ms := Serialised(ser, rs);
      assert rs[0] in rs;
      assert forall r :: r in rs[1..] ==> r in rs;
      SerialisedSizes(par, ser, rs[1..]);
      assert ms[1..] == Serialised(ser, rs[1..]) && ms[0] == ser(rs[0]);
      SizesOkTail(ms);
      assert rs == [rs[0]] + rs[1..];
    }
  }

  // What the protobuf library promises for all records.
  ghost predicate InvertsAll(par: Parser, ser: Serialiser) {
    forall r :: D.InRange(r) ==> par(ser(r)) == Some(r)
  }

  ghost predicate AllInRange(rs: seq<D.Record>) { forall r :: r in rs ==> D.InRange(r) }

  lemma {:induction false} SerialisedUnique(par: Parser, ser: Serialiser, rs: seq<D.Record>, qs: seq<D.Record>)
    requires InvertsAll(par, ser) && AllInRange(rs) && AllInRange(qs) && Serialised(ser, rs) == Serialised(ser, qs)
    ensures rs == qs
  {
    if rs != [] && qs != [] {
      assert Serialised(ser, rs)[0] == ser(rs[0]) && Serialised(ser, qs)[0] == ser(qs[0]);
      assert Serialised(ser, rs)[1..] == Serialised(ser, rs[1..]) && Serialised(ser, qs)[1..] == Serialised(ser, qs[1..]);
      assert par(ser(rs[0])) == Some(rs[0]) && par(ser(qs[0])) == Some(qs[0]);
      SerialisedUnique(par, ser, rs[1..], qs[1..]);
      assert rs == [rs[0]] + rs[1..] && qs == [qs[0]] + qs[1..];
    }
  }

  /** Two traces with the same file are the same trace. */
  lemma {:induction false} FileUnique(par: Parser, ser: Serialiser, header: Message, rs: seq<D.Record>, qs: seq<D.Record>)
    requires InvertsAll(par, ser) && AllInRange(rs) && AllInRange(qs)
    requires TraceFile(header, ser, rs) == TraceFile(header, ser, qs)
    ensures rs == qs
  {
    var n := |MAGIC + Frame(header)|;
    assert TraceFile(header, ser, rs)[n..] == FrameAll(Serialised(ser, rs));
    assert TraceFile(header, ser, qs)[n..] == FrameAll(Serialised(ser, qs));
    FramesUnique(Serialised(ser, rs), Serialised(ser, qs));
    SerialisedUnique(par, ser, rs, qs);
  }

  lemma {:induction false} FilledInRange(rs: seq<D.Record>)
    requires AllInRange(rs)
    ensures AllInRange(D.FilledAll(rs))
  {
    if rs != [] {
      FilledInRange(rs[1..]);
      assert D.InRange(rs[0]);
      assert D.InRange(D.Filled(rs[0]));
    }
  }

  lemma {:induction false} ParsedInRange(lines: seq<string>)
    ensures var rs := D.ParseLines(lines); rs.Some? ==> AllInRange(rs.value)
  {
    if lines != [] {
      ParsedInRange(lines[1..]);
      D.ParseSettles(lines[0]);
    }
  }

  /** Converting a trace to text reads every record.  Converting the text back produces
      the file of the same records with default pc and weight filled in exactly when
      every record is printable. */
  lemma {:induction false} ConvertersInvert(par: Parser, ser: Serialiser, header: Message, header': Message, rs: seq<D.Record>)
    requires Inverts(par, ser, rs) && 0 < |header| < TWO32 && AllInRange(rs)
    ensures ToText(par, TraceFile(header, ser, rs)) == Some(D.PrintAll(rs))
    ensures var back := FromText(header', ser, D.PrintAll(rs)) == Some(TraceFile(header', ser, D.FilledAll(rs)));
            (D.AllPrintable(rs) ==> back) && (InvertsAll(par, ser) && back ==> D.AllPrintable(rs))
  {
    var file, body := TraceFile(header, ser, rs), FrameAll(Serialised(ser, rs));
    assert file[..4] == MAGIC && file[4..] == Frame(header) + body;
    AfterFrame(header, body);
    SerialisedSizes(par, ser, rs);
    ReadBackExact(Serialised(ser, rs));
    D.TraceRoundTrip(rs);
    var qs := D.ParseLines(D.Lines(D.PrintAll(rs)));
    if InvertsAll(par, ser) && FromText(header', ser, D.PrintAll(rs)) == Some(TraceFile(header', ser, D.FilledAll(rs))) {
      ParsedInRange(D.Lines(D.PrintAll(rs)));
      FilledInRange(rs);
      FileUnique(par, ser, header', qs.value, D.FilledAll(rs));
    }
  }
}
