/** Length-prefixed messages in a byte file (util/protolib.py): base-128 varints and
    the encodeMessage/decodeMessage pair.  A message is the byte string that the
    protobuf library serialises it to.
 */
module Framing {
  import opened Common
  import opened Bits

  const TWO63 := 0x8000_0000_0000_0000
  const TWO70 := 0x40_0000_0000_0000_0000

  // ---------------------------------------------------------------- varints

  function Encode(n: nat): (s: seq<Byte>)
    ensures |s| >= 1
  {
    if n < 128 then [n] else [128 + n % 128] + Encode(n / 128)
  }

  /** The format: byte k holds the bits of weight 2^7k and up, seven of them, and a
      continuation bit on every byte but the last. */
  lemma {:induction false} EncodeByte(n: nat, k: nat)
    requires k < |Encode(n)|
    ensures Encode(n)[k] == n / Pow2(7 * k) % 128 + if k < |Encode(n)| - 1 then 128 else 0
  {
    if n >= 128 && k > 0 {
      EncodeByte(n / 128, k - 1);
      Pow2At7();
      Pow2Add(7, 7 * (k - 1));
      DivTwice(n, 128, Pow2(7 * (k - 1)));
      assert 7 + 7 * (k - 1) == 7 * k;
    } else {
      assert Pow2(7 * 0) == 1;
    }
  }

  // Eof: the file ended inside the varint.  TooLong: the IOError of the program.
  datatype Varint = Eof | TooLong | Value(v: int, size: nat)

  // x | ~0xffffffff on Python's two's complement integers
  function OrNotMask32(x: int): int { x % TWO32 - TWO32 }

  // The masking and sign adjustment of the collected bits.
  function Finish(bits: nat): int {
    if bits > TWO63 - 1 then OrNotMask32(bits - TWO64) else bits % TWO32
  }

  datatype Raw = RawEof | RawTooLong | RawBits(bits: nat, size: nat)

  // The decoder's loop after k bytes, with their bits in acc.
  function Collect(s: seq<Byte>, k: nat, acc: nat): Raw
    requires k < 10
    decreases |s|
  {
    if s == [] then RawEof
    else
      var a := acc + Shl(s[0] % 128, 7 * k);
      if s[0] < 128 then RawBits(a, k + 1)
      else if k + 1 == 10 then RawTooLong
      else Collect(s[1..], k + 1, a)
  }

  function Decode(s: seq<Byte>): Varint {
    match Collect(s, 0, 0)
    case RawEof => Eof
    case RawTooLong => TooLong
    case RawBits(bits, size) => Value(Finish(bits), size)
  }

  lemma {:induction false} EncodeLength(n: nat, j: nat)
    requires j >= 1
    ensures |Encode(n)| <= j <==> n < Pow2(7 * j)
  {
    Pow2At7();
    if n < 128 {
      if j > 1 { Pow2Monotone(7, 7 * j); }
    } else if j > 1 {
      EncodeLength(n / 128, j - 1);
      Pow2Add(7 * (j - 1), 7);
      assert 7 * (j - 1) + 7 == 7 * j;
    }
  }

  // Decoding what was encoded, from any point of the loop and whatever follows.
  lemma {:induction false} CollectEncoded(n: nat, rest: seq<Byte>, k: nat, acc: nat)
    requires k < 10
    ensures Collect(Encode(n) + rest, k, acc) ==
            if k + |Encode(n)| <= 10 then RawBits(acc + Shl(n, 7 * k), k + |Encode(n)|) else RawTooLong
    decreases 10 - k
  {
    var s := Encode(n) + rest;
    EncodeHead(n, rest);
    CollectStep(s, k, acc);
    if n >= 128 && k + 1 < 10 {
      ShiftedDigits(n, k);
      CollectEncoded(n / 128, rest, k + 1, acc + Shl(n % 128, 7 * k));
    }
  }

  lemma {:induction false} EncodeHead(n: nat, rest: seq<Byte>)
    ensures n < 128 ==> |Encode(n)| == 1 && (Encode(n) + rest)[0] == n
    ensures n >= 128 ==> var s, t := Encode(n) + rest, Encode(n / 128);
              s[0] >= 128 && s[0] % 128 == n % 128 && s[1..] == t + rest && |Encode(n)| == 1 + |t|
  {
    if n >= 128 {
      assert Encode(n) == [128 + n % 128] + Encode(n / 128);
      assert (Encode(n) + rest)[1..] == Encode(n / 128) + rest;
    }
  }

  lemma {:induction false} ShiftedDigits(n: nat, k: nat)
    ensures Shl(n % 128, 7 * k) + Shl(n / 128, 7 * (k + 1)) == Shl(n, 7 * k)
  {
    var p := Pow2(7 * k);
    Pow2At7();
    Pow2Add(7 * k, 7);
    assert 7 * (k + 1) == 7 * k + 7;
    assert (n / 128) * (p * 128) == ((n / 128) * 128) * p;
    assert (n % 128) * p + ((n / 128) * 128) * p == (n % 128 + (n / 128) * 128) * p;
  }

  lemma {:induction false} Pow2At70()
    ensures Pow2(70) == TWO70
  {
    Pow2At63();
    Pow2At7();
    Pow2Add(63, 7);
  }

  /** Decoding an encoded number, whatever bytes follow: the low 32 bits come back for
      numbers below 2^63, those bits minus 2^32 up to 2^70, and an error above. */
  lemma {:induction false} DecodeEncoded(n: nat, rest: seq<Byte>)
    ensures Decode(Encode(n) + rest) ==
            if n < TWO63 then Value(n % TWO32, |Encode(n)|)
            else if n < TWO70 then Value(n % TWO32 - TWO32, |Encode(n)|)
            else TooLong
  {
    CollectEncoded(n, rest, 0, 0);
    EncodeLength(n, 10);
    Pow2At70();
    assert Pow2(0) == 1;
    WrapMod(n);
  }

  lemma {:induction false} WrapMod(n: nat)
    ensures (n - TWO64) % TWO32 == n % TWO32
  {
    DivModUnique(n - TWO64, TWO32, n / TWO32 - TWO32, n % TWO32);
  }

  /** A varint comes back as itself exactly below 2^32. */
  lemma {:induction false} VarintRoundTrip(n: nat, rest: seq<Byte>)
    ensures Decode(Encode(n) + rest) == Value(n, |Encode(n)|) <==> n < TWO32
  {
    DecodeEncoded(n, rest);
  }

  // ---------------------------------------------------------------- messages

  type Message = seq<Byte>

  function Frame(m: Message): seq<Byte> { Encode(|m|) + m }

  function FrameAll(ms: seq<Message>): seq<Byte> {
    if ms == [] then [] else Frame(ms[0]) + FrameAll(ms[1..])
  }

  lemma {:induction false} EncodeUnique(m: nat, n: nat, x: seq<Byte>, y: seq<Byte>)
    requires Encode(m) + x == Encode(n) + y
    ensures m == n && x == y
  {
    EncodeHead(m, x);
    EncodeHead(n, y);
    if m >= 128 {
      EncodeUnique(m / 128, n / 128, x, y);
    } else {
      assert x == (Encode(m) + x)[1..] && y == (Encode(n) + y)[1..];
    }
  }

  lemma {:induction false} FrameUnique(m: Message, n: Message, x: seq<Byte>, y: seq<Byte>)
    requires Frame(m) + x == Frame(n) + y
    ensures m == n && x == y
  {
    assert Frame(m) + x == Encode(|m|) + (m + x) && Frame(n) + y == Encode(|n|) + (n + y);
    EncodeUnique(|m|, |n|, m + x, n + y);
    assert m == (m + x)[..|m|] && x == (m + x)[|m|..] && n == (n + y)[..|n|] && y == (n + y)[|n|..];
  }

  /** Different lists of messages never have the same frames, whatever their sizes. */
  lemma {:induction false} FramesUnique(ms: seq<Message>, ns: seq<Message>)
    requires FrameAll(ms) == FrameAll(ns)
    ensures ms == ns
  {
    if ms != [] && ns != [] {
      FrameUnique(ms[0], ns[0], FrameAll(ms[1..]), FrameAll(ns[1..]));
      FramesUnique(ms[1..], ns[1..]);
      assert ms == [ms[0]] + ms[1..] && ns == [ns[0]] + ns[1..];
    }
  }

  datatype Reading = Reading(message: Message, rest: seq<Byte>)

  // in_file.read(size): everything for a negative size, at most what is left otherwise
  function Take(s: seq<Byte>, size: int): Reading {
    if size < 0 || size > |s| then Reading(s, []) else Reading(s[..size], s[size..])
  }

  lemma {:induction false} DecodeSize(s: seq<Byte>, k: nat, acc: nat)
    requires k < 10 && Collect(s, k, acc).RawBits?
    ensures k < Collect(s, k, acc).size <= k + |s|
    decreases 10 - k
  {
    if s[0] >= 128 { DecodeSize(s[1..], k + 1, acc + Shl(s[0] % 128, 7 * k)); }
  }

  // decodeMessage on the bytes that are left; None when it returns False
  function Next(s: seq<Byte>): (r: Option<Reading>)
    ensures r.Some? ==> |r.value.rest| < |s|
  {
    var d := Decode(s);
    if !d.Value? || d.v == 0 then None
    else
      DecodeSize(s, 0, 0);
      Some(Take(s[d.size..], d.v))
  }

  // the bytes left after _DecodeVarint32, however it ends
  function VarintLeft(s: seq<Byte>): seq<Byte> {
    match Decode(s)
    case Eof => []
    case TooLong => if |s| >= 10 then s[10..] else []
    case Value(_, size) =>
      DecodeSize(s, 0, 0);
      s[size..]
  }

  // the bytes left after decodeMessage, whether or not it delivers a message
  function After(s: seq<Byte>): seq<Byte> {
    var d := Decode(s);
    if !d.Value? || d.v == 0 then VarintLeft(s) else Take(VarintLeft(s), d.v).rest
  }

  // what a loop of decodeMessage calls delivers before the first False
  function ReadAll(s: seq<Byte>): seq<Message>
    decreases |s|
  {
    var r := Next(s);
    if r.None? then [] else [r.value.message] + ReadAll(r.value.rest)
  }

  // The sizes for which the reader gets message i of ms back.
  ghost predicate SizeOk(ms: seq<Message>, i: nat)
    requires i < |ms|
  {
    0 < |ms[i]| < TWO32 || (TWO63 <= |ms[i]| < TWO70 && i == |ms| - 1)
  }

  ghost predicate SizesOk(ms: seq<Message>) {
    forall i :: 0 <= i < |ms| ==> SizeOk(ms, i)
  }

  lemma {:induction false} NextOfFrame(m: Message, rest: seq<Byte>)
    ensures var n, s := |m|, Frame(m) + rest;
            Next(s) == if n < TWO63 then (if n % TWO32 == 0 then None else Some(Take(m + rest, n % TWO32)))
                       else if n < TWO70 then Some(Reading(m + rest, [])) else None
  {
    var s := Frame(m) + rest;
    assert s == Encode(|m|) + (m + rest);
    DecodeEncoded(|m|, m + rest);
    assert s[|Encode(|m|)|..] == m + rest;
  }

  lemma {:induction false} AfterFrame(m: Message, rest: seq<Byte>)
    requires 0 < |m| < TWO32
    ensures After(Frame(m) + rest) == rest
  {
    var s, e := Frame(m) + rest, Encode(|m|);
    assert s == e + (m + rest);
    DecodeEncoded(|m|, m + rest);
    assert Decode(s) == Value(|m|, |e|);
    assert VarintLeft(s) == m + rest by { assert s[|e|..] == m + rest; }
    assert (m + rest)[|m|..] == rest;
  }

  lemma {:induction false} SizesOkTail(ms: seq<Message>)
    requires ms != []
    ensures SizesOk(ms) <==> SizeOk(ms, 0) && SizesOk(ms[1..])
  {
    if SizesOk(ms) {
      forall i | 0 <= i < |ms[1..]| ensures SizeOk(ms[1..], i) { assert SizeOk(ms, i + 1); }
    }
    if SizeOk(ms, 0) && SizesOk(ms[1..]) {
      forall i | 0 <= i < |ms| ensures SizeOk(ms, i) {
        if i > 0 { assert SizeOk(ms[1..], i - 1); }
      }
    }
  }

  /** Reading back a written file delivers exactly the messages written and then
      stops, if and only if no message is empty or has a size the varint reader
      mangles (2^32 and up; only a last message of 2^63 to 2^70 bytes survives that). */
  lemma {:induction false} ReadBackExact(ms: seq<Message>)
    ensures ReadAll(FrameAll(ms)) == ms <==> SizesOk(ms)
  {
    if ms != [] {
      var n := |ms[0]|;
      SizesOkTail(ms);
      if 0 < n < TWO32 {
        ReadBackExact(ms[1..]);
        ReadBackCarried(ms);
        ConsMessage(ms[0], ReadAll(FrameAll(ms[1..])), ms);
      } else if n < TWO63 {
        ReadBackMangled(ms);
      } else if n < TWO70 {
        ReadBackHuge(ms);
      } else {
        ReadBackTooLong(ms);
      }
    }
  }

  lemma {:induction false} ConsMessage(m: Message, t: seq<Message>, ms: seq<Message>)
    requires ms != [] && m == ms[0]
    ensures [m] + t == ms <==> t == ms[1..]
  {
    assert ms == [m] + ms[1..];
    assert ([m] + t)[1..] == t;
  }

  lemma {:induction false} ReadBackTooLong(ms: seq<Message>)
    requires ms != [] && |ms[0]| >= TWO70
    ensures ReadAll(FrameAll(ms)) != ms
  {
    NextOfFrame(ms[0], FrameAll(ms[1..]));
  }

  lemma {:induction false} ReadBackCarried(ms: seq<Message>)
    requires ms != [] && 0 < |ms[0]| < TWO32
    ensures ReadAll(FrameAll(ms)) == [ms[0]] + ReadAll(FrameAll(ms[1..]))
  {
    var m, tail := ms[0], FrameAll(ms[1..]);
    assert Next(Frame(m) + tail) == Some(Reading(m, tail)) by {
      NextOfFrame(m, tail);
    }
    ReadAllStep(Frame(m) + tail);
  }

  lemma {:induction false} ReadBackMangled(ms: seq<Message>)
    requires ms != [] && |ms[0]| < TWO63 && !(0 < |ms[0]| < TWO32)
    ensures ReadAll(FrameAll(ms)) != ms
  {
    var m, tail := ms[0], FrameAll(ms[1..]);
    NextOfFrame(m, tail);
    var size := |m| % TWO32;
    if size != 0 {
      ReadAllStep(Frame(m) + tail);
    }
  }

  lemma {:induction false} ReadAllStep(s: seq<Byte>)
    ensures Next(s).Some? ==> ReadAll(s) == [Next(s).value.message] + ReadAll(Next(s).value.rest)
  {
  }

  lemma {:induction false} ReadBackHuge(ms: seq<Message>)
    requires ms != [] && TWO63 <= |ms[0]| < TWO70
    ensures ReadAll(FrameAll(ms)) == ms <==> |ms| == 1
  {
    var m, tail := ms[0], FrameAll(ms[1..]);
    NextOfFrame(m, tail);
    assert ReadAll([]) == [];
    assert ReadAll(FrameAll(ms)) == [m + tail];
    if |ms| == 1 {
      assert tail == [] && m + tail == m;
      assert ms == [m];
    }
  }

  // ---------------------------------------------------------------- the program

  class ByteFile {
    var data: seq<Byte>
    var pos: nat

    ghost predicate Valid()
      reads this
    {
      pos <= |data|
    }

    constructor (bytes: seq<Byte>)
      ensures Valid() && data == bytes && pos == 0
    {
      data, pos := bytes, 0;
    }

    ghost function Left(): seq<Byte>
      requires Valid()
      reads this
    {
      data[pos..]
    }

    method Read(n: int) returns (s: seq<Byte>)
      requires Valid()
      modifies this`pos
      ensures Valid() && Reading(s, Left()) == Take(old(Left()), n)
    {
      if n < 0 || n > |data| - pos {
        s := data[pos..];
        pos := |data|;
      } else {
        s := data[pos..pos + n];
        pos := pos + n;
      }
    }

    method Write(s: seq<Byte>)
      requires Valid()
      modifies this`data
      ensures Valid() && data == old(data) + s
    {
      data := data + s;
    }
  }

  // bits = value & 0x7f
  method LowBits(value: nat) returns (bits: nat)
    ensures bits == value % 128
  {
    Pow2At7();
    AndMask(value, 7);
    bits := BitAnd(value, 0x7f);
  }

  // 0x80|bits
  method MoreFollows(bits: nat) returns (b: Byte)
    requires bits < 128
    ensures b == 128 + bits
  {
    Pow2At7();
    OrAdds(bits, 1, 7);
    BitOrCommutes(0x80, bits);
    b := BitOr(0x80, bits);
  }

  // _EncodeVarint32
  method EncodeVarint32(f: ByteFile, value: nat)
    requires f.Valid()
    modifies f`data
    ensures f.Valid() && f.data == old(f.data) + Encode(value)
  {
    var bits := LowBits(value);
    var v: nat := value / 128;
    ghost var n := value;
    while v != 0
      invariant bits == n % 128 && v == n / 128
      invariant f.Valid() && old(f.data) + Encode(value) == f.data + Encode(n)
      decreases v
    {
      var b := MoreFollows(bits);
      f.Write([b]);
      n := v;
      bits := LowBits(v);
      v := v / 128;
    }
    f.Write([bits]);
  }

  // c = in_file.read(1) and struct.unpack
  method ReadByte(f: ByteFile) returns (c: Option<Byte>)
    requires f.Valid()
    modifies f`pos
    ensures f.Valid()
    ensures c.None? <==> old(f.Left()) == []
    ensures c.None? ==> f.Left() == []
    ensures c.Some? ==> c.value == old(f.Left())[0] && f.Left() == old(f.Left())[1..]
  {
    var s := f.Read(1);
    c := if |s| == 0 then None else Some(s[0]);
  }

  // result |= ((c & 0x7f) << shift), and not (c & 0x80)
  method AddBits(acc: nat, c: Byte, ghost k: nat, shift: nat) returns (result: nat, last: bool)
    requires shift == 7 * k && acc < Pow2(7 * k)
    ensures result == acc + Shl(c % 128, 7 * k) && (last <==> c < 128)
  {
    CollectByte(acc, c, k);
    result := BitOr(acc, Shl(BitAnd(c, 0x7f), shift));
    last := BitAnd(c, 0x80) == 0;
  }

  // The loop of _DecodeVarint32, entered after k0 bytes.
  method CollectBits(f: ByteFile, k0: nat, acc0: nat) returns (r: Raw)
    requires f.Valid() && k0 < 10 && acc0 < Pow2(7 * k0)
    modifies f`pos
    ensures f.Valid() && r == Collect(old(f.Left()), k0, acc0)
    ensures Leaves(old(f.Left()), k0, r, f.Left())
  {
    var result: nat, shift: nat, k: nat := acc0, 7 * k0, k0;
    ghost var s := f.Left();
    while true
      invariant f.Valid() && shift == 7 * k
      invariant Collecting(s, k0, acc0, f.Left(), k, result)
      decreases 10 - k
    {
      ghost var left := f.Left();
      var c := ReadByte(f);
      if c.None? {
        return RawEof;
      }
      CollectingStep(s, k0, acc0, left, k, result);
      var last: bool;
      result, last := AddBits(result, c.value, k, shift);
      k := k + 1;
      if last {
        return RawBits(result, k);
      }
      shift := shift + 7;
      if shift >= 64 {
        return RawTooLong;
      }
    }
  }

  // What the loop, entered at s after k0 bytes, leaves in the file.
  ghost predicate Leaves(s: seq<Byte>, k0: nat, r: Raw, left: seq<Byte>)
    requires k0 < 10
  {
    match r
    case RawEof => left == []
    case RawTooLong => 10 - k0 <= |s| && left == s[10 - k0..]
    case RawBits(_, size) => k0 <= size <= k0 + |s| && left == s[size - k0..]
  }

  // The loop has used all of s but left, k bytes in all, and will do the rest.
  ghost predicate Collecting(s: seq<Byte>, k0: nat, acc0: nat, left: seq<Byte>, k: nat, acc: nat)
    requires k0 < 10
  {
    && k0 <= k < 10 && k - k0 <= |s| && left == s[k - k0..]
    && acc < Pow2(7 * k) && Collect(s, k0, acc0) == Collect(left, k, acc)
  }

  lemma {:induction false} CollectingStep(s: seq<Byte>, k0: nat, acc0: nat, left: seq<Byte>, k: nat, acc: nat)
    requires k0 < 10 && Collecting(s, k0, acc0, left, k, acc) && left != []
    ensures left[0] < 128 || k + 1 == 10 ==> Leaves(s, k0, Collect(s, k0, acc0), left[1..])
    ensures var a := acc + Shl(left[0] % 128, 7 * k);
            if left[0] < 128 then Collect(s, k0, acc0) == RawBits(a, k + 1)
            else if k + 1 == 10 then Collect(s, k0, acc0) == RawTooLong
            else Collecting(s, k0, acc0, left[1..], k + 1, a)
  {
    CollectStep(left, k, acc);
    CollectByte(acc, left[0], k);
  }

  lemma {:induction false} CollectStep(s: seq<Byte>, k: nat, acc: nat)
    requires k < 10 && s != []
    ensures var a := acc + Shl(s[0] % 128, 7 * k);
            Collect(s, k, acc) == if s[0] < 128 then RawBits(a, k + 1)
                                  else if k + 1 == 10 then RawTooLong
                                  else Collect(s[1..], k + 1, a)
  {
  }

  // _DecodeVarint32
  method DecodeVarint32(f: ByteFile) returns (r: Varint)
    requires f.Valid()
    modifies f`pos
    ensures f.Valid() && r == Decode(old(f.Left()))
    ensures f.Left() == VarintLeft(old(f.Left()))
  {
    var raw := CollectBits(f, 0, 0);
    match raw {
      case RawEof => r := Eof;
      case RawTooLong => r := TooLong;
      case RawBits(bits, size) =>
        var v := FinishVarint(bits);
        r := Value(v, size);
    }
  }

  // The sign adjustment and masking at the end of _DecodeVarint32.
  method FinishVarint(bits: nat) returns (v: int)
    ensures v == Finish(bits)
  {
    if bits > 0x7fff_ffff_ffff_ffff {
      v := OrNotMask32(bits - TWO64);
    } else {
      Pow2At32();
      AndMask(bits, 32);
      v := BitAnd(bits, 0xffff_ffff);
    }
  }

  lemma {:induction false} CollectByte(acc: nat, b: Byte, k: nat)
    requires acc < Pow2(7 * k)
    ensures BitAnd(b, 0x7f) == b % 128
    ensures BitOr(acc, Shl(b % 128, 7 * k)) == acc + Shl(b % 128, 7 * k) < Pow2(7 * (k + 1))
    ensures BitAnd(b, 0x80) == 0 <==> b < 128
  {
    Pow2At7();
    AndMask(b, 7);
    AndBit(b, 7);
    OrAdds(acc, b % 128, 7 * k);
    ShlBound(acc, b % 128, 7, 7 * k);
    assert 7 * (k + 1) == 7 * k + 7;
  }

  // encodeMessage
  method EncodeMessage(f: ByteFile, m: Message)
    requires f.Valid()
    modifies f`data
    ensures f.Valid() && f.data == old(f.data) + Frame(m)
  {
    EncodeVarint32(f, |m|);
    f.Write(m);
    assert old(f.data) + Encode(|m|) + m == old(f.data) + Frame(m);
  }

  // decodeMessage
  method DecodeMessage(f: ByteFile) returns (r: Option<Message>)
    requires f.Valid()
    modifies f`pos
    ensures f.Valid()
    ensures r == match Next(old(f.Left())) case None => None case Some(rd) => Some(rd.message)
    ensures f.Left() == After(old(f.Left()))
  {
    var size := DecodeVarint32(f);
    if !size.Value? || size.v == 0 {
      return None;
    }
    var buf := f.Read(size.v);
    r := Some(buf);
  }

  // A writer's loop over its messages.
  method EncodeAll(f: ByteFile, ms: seq<Message>)
    requires f.Valid()
    modifies f`data
    ensures f.Valid() && f.data == old(f.data) + FrameAll(ms)
  {
    for i := 0 to |ms|
      invariant f.Valid() && old(f.data) + FrameAll(ms) == f.data + FrameAll(ms[i..])
    {
      EncodeMessage(f, ms[i]);
    }
  }

  lemma {:induction false} ReadAllFrom(got: seq<Message>, s: seq<Byte>)
    ensures var r := Next(s);
            && got + ReadAll(s) == (if r.None? then got else got + [r.value.message] + ReadAll(r.value.rest))
            && (r.Some? ==> r.value.rest == After(s))
  {
    var r := Next(s);
    if r.Some? { assert got + ([r.value.message] + ReadAll(r.value.rest)) == got + [r.value.message] + ReadAll(r.value.rest); }
  }

  // A reader's loop up to the first False.
  method DecodeAll(f: ByteFile) returns (got: seq<Message>)
    requires f.Valid()
    modifies f`pos
    ensures got == ReadAll(old(f.Left()))
  {
    got := [];
    while true
      invariant f.Valid() && ReadAll(old(f.Left())) == got + ReadAll(f.Left())
      decreases |f.Left()|
    {
      ReadAllFrom(got, f.Left());
      var m := DecodeMessage(f);
      if m.None? {
        return;
      }
      got := got + [m.value];
    }
  }

  /** The writer's and the reader's loops over a whole file: what is read is what was
      written, exactly when all sizes are ones the format carries. */
  method WriteThenRead(ms: seq<Message>) returns (got: seq<Message>)
    ensures got == ms <==> SizesOk(ms)
  {
    var f := new ByteFile([]);
    EncodeAll(f, ms);
    assert f.Left() == FrameAll(ms);
    got := DecodeAll(f);
    ReadBackExact(ms);
  }
}
