/** How the checkpoint aggregator renames the sections of each checkpoint
    (util/checkpoint_aggregator.py): the zero-padded checkpoint number is inserted
    after every "cpu" in the name.
 */
module SectionNames {
  import opened Common
  import opened Text

  const CPU: string := "cpu"

  predicate StartsCpu(s: string) { |s| >= 3 && s[0] == 'c' && s[1] == 'p' && s[2] == 'u' }

  // re.compile("cpu").search(s)
  predicate HasCpu(s: string) { s != [] && (StartsCpu(s) || HasCpu(s[1..])) }

  // re.sub("cpu", "cpu" + tag, s)
  function Rename(s: string, tag: string): string {
    if s == [] then []
    else if StartsCpu(s) then CPU + tag + Rename(s[3..], tag)
    else [s[0]] + Rename(s[1..], tag)
  }

  lemma {:induction false} RenameHead(s: string, tag: string)
    requires s != []
    ensures Rename(s, tag) != [] && Rename(s, tag)[0] == s[0]
  {
  }

  // A renamed string starts with "cpu" only where the original does.
  lemma {:induction false} RenameStarts(s: string, tag: string)
    ensures StartsCpu(Rename(s, tag)) <==> StartsCpu(s)
  {
    var r := Rename(s, tag);
    if StartsCpu(s) {
      assert r[..3] == CPU;
      assert r[0] == CPU[0] && r[1] == CPU[1] && r[2] == CPU[2];
    } else if s != [] {
      var r1 := Rename(s[1..], tag);
      assert r == [s[0]] + r1;
      if StartsCpu(r) {
        assert r1[0] == 'p' && r1[1] == 'u';
        assert s[1..] != [];
        RenameHead(s[1..], tag);
        var r2 := Rename(s[2..], tag);
        assert s[1..][1..] == s[2..] && r1 == [s[1]] + r2;
        assert r2[0] == 'u';
        assert s[2..] != [];
        RenameHead(s[2..], tag);
      }
    }
  }

  lemma {:induction false} RenameCpu(s: string, tag: string)
    requires StartsCpu(s)
    ensures Rename(s, tag)[..3] == CPU && |Rename(s, tag)| >= 3 + |tag|
    ensures Rename(s, tag)[3..3 + |tag|] == tag && Rename(s, tag)[3 + |tag|..] == Rename(s[3..], tag)
  {
  }

  /** Renaming is injective in the number and in the section name: two renamed names
      are equal only if the names were, and the numbers too if there was a "cpu". */
  lemma {:induction false} RenameInjective(s: string, t: string, u: string, v: string)
    requires |t| == |v| && Rename(s, t) == Rename(u, v)
    ensures s == u && (HasCpu(s) ==> t == v)
    decreases |s|
  {
    RenameStarts(s, t);
    RenameStarts(u, v);
    if s == [] {
      if u != [] { RenameHead(u, v); }
    } else if u == [] {
      RenameHead(s, t);
    } else if StartsCpu(s) {
      RenameCpu(s, t);
      RenameCpu(u, v);
      RenameInjective(s[3..], t, u[3..], v);
    } else {
      RenameHead(s, t);
      RenameHead(u, v);
      assert Rename(s, t)[1..] == Rename(s[1..], t) && Rename(u, v)[1..] == Rename(u[1..], v);
      RenameInjective(s[1..], t, u[1..], v);
      assert s == [s[0]] + s[1..] && u == [u[0]] + u[1..];
    }
  }

  lemma {:induction false} RenameKeepsCpu(s: string, tag: string)
    requires HasCpu(s)
    ensures HasCpu(Rename(s, tag))
  {
    RenameStarts(s, tag);
    if !StartsCpu(s) {
      RenameKeepsCpu(s[1..], tag);
      assert Rename(s, tag)[1..] == Rename(s[1..], tag);
    }
  }

  ghost predicate CpuAt(s: string, k: nat) { k + 3 <= |s| && s[k..k + 3] == CPU }

  lemma {:induction false} CpuAtStart(s: string)
    ensures StartsCpu(s) <==> CpuAt(s, 0)
  {
    if |s| >= 3 {
      assert s[0..3][0] == s[0] && s[0..3][1] == s[1] && s[0..3][2] == s[2];
      if StartsCpu(s) { assert s[0..3] == CPU; } else { assert s[0..3] != CPU; }
    }
  }

  lemma {:induction false} CpuAtLater(s: string, k: nat)
    requires s != []
    ensures CpuAt(s, k + 1) <==> CpuAt(s[1..], k)
  {
    if k + 4 <= |s| { assert s[k + 1..k + 4] == s[1..][k..k + 3]; }
  }

  /** "cpu" occurs in a name exactly if it stands somewhere in it. */
  lemma {:induction false} HasCpuExact(s: string)
    ensures HasCpu(s) <==> exists k: nat :: CpuAt(s, k)
  {
    if s != [] {
      HasCpuExact(s[1..]);
      CpuAtStart(s);
      if k: nat :| CpuAt(s[1..], k) { CpuAtLater(s, k); }
      if k: nat :| CpuAt(s, k) { if k > 0 { CpuAtLater(s, k - 1); } }
    }
  }

  /** Renaming puts the tag behind the first "cpu" and goes on behind it; p is what
      precedes that "cpu". */
  lemma {:induction false} RenameExact(p: string, rest: string, tag: string)
    requires forall k: nat :: CpuAt(p + CPU + rest, k) ==> k >= |p|
    ensures Rename(p + CPU + rest, tag) == p + CPU + tag + Rename(rest, tag)
  {
    var s, q := p + CPU + rest, CPU + rest;
    CpuAtStart(s);
    if p == [] {
      assert s == q && s[0..3] == CPU && s[3..] == rest;
    } else {
      var t := p[1..];
      assert !CpuAt(s, 0) && s[1..] == t + CPU + rest;
      forall k: nat | CpuAt(t + CPU + rest, k) ensures k >= |t| { CpuAtLater(s, k); }
      RenameExact(t, rest, tag);
      RenameStep(s, tag);
      assert [p[0]] + (t + CPU + tag + Rename(rest, tag)) == p + CPU + tag + Rename(rest, tag);
    }
  }

  lemma {:induction false} RenameStep(s: string, tag: string)
    requires s != [] && !StartsCpu(s)
    ensures Rename(s, tag) == [s[0]] + Rename(s[1..], tag)
  {
  }

  lemma {:induction false} RenameNothing(s: string, tag: string)
    requires !HasCpu(s)
    ensures Rename(s, tag) == s
  {
    if s != [] { RenameNothing(s[1..], tag); }
  }

  // ---------------------------------------------------------------- the number

  function Zeros(n: nat): string { if n == 0 then [] else "0" + Zeros(n - 1) }

  // str(i).zfill(width)
  function Zfill(i: nat, width: nat): string {
    var s := Decimal(i);
    if |s| >= width then s else Zeros(width - |s|) + s
  }

  lemma {:induction false} ZerosLength(n: nat)
    ensures |Zeros(n)| == n
  {
    if n > 0 { ZerosLength(n - 1); }
  }

  lemma {:induction false} LeadingZero(s: string)
    requires s != []
    ensures ParseNat("0" + s) == ParseNat(s)
  {
    var z := "0" + s;
    if |s| == 1 {
      assert z[..1] == "0" && z[1] == s[0];
      assert ParseNat("0") == Some(0);
    } else {
      assert z[..|z| - 1] == "0" + s[..|s| - 1] && z[|z| - 1] == s[|s| - 1];
      LeadingZero(s[..|s| - 1]);
    }
  }

  lemma {:induction false} LeadingZeros(n: nat, s: string)
    requires s != []
    ensures ParseNat(Zeros(n) + s) == ParseNat(s)
  {
    if n == 0 {
      assert Zeros(n) + s == s;
    } else {
      LeadingZeros(n - 1, s);
      LeadingZero(Zeros(n - 1) + s);
      OneMoreZero(n, s);
    }
  }

  lemma {:induction false} OneMoreZero(n: nat, s: string)
    requires n > 0
    ensures Zeros(n) + s == "0" + (Zeros(n - 1) + s)
  {
  }

  lemma {:induction false} DecimalLonger(i: nat, j: nat)
    requires i <= j
    ensures |Decimal(i)| <= |Decimal(j)|
  {
    if i >= 10 { DecimalLonger(i / 10, j / 10); }
  }

  // len(str(len(cpts) - 1)) for n checkpoints
  function NumDigits(n: nat): nat
    requires n > 0
  {
    |Decimal(n - 1)|
  }

  lemma {:induction false} ZfillIs(i: nat, width: nat, s: string)
    requires s == Decimal(i) && |s| <= width
    ensures Zfill(i, width) == Zeros(width - |s|) + s
  {
    if |s| == width { assert Zeros(0) + s == s; }
  }

  lemma {:induction false} ZfillPadded(i: nat, width: nat)
    requires |Decimal(i)| <= width
    ensures |Zfill(i, width)| == width && ParseNat(Zfill(i, width)) == Some(i)
  {
    var s := Decimal(i);
    ParseDecimal(i);
    ZfillIs(i, width, s);
    PadNumber(s, width - |s|);
  }

  lemma {:induction false} PadNumber(s: string, n: nat)
    requires s != []
    ensures |Zeros(n) + s| == n + |s| && ParseNat(Zeros(n) + s) == ParseNat(s)
  {
    ZerosLength(n);
    LeadingZeros(n, s);
  }

  lemma {:induction false} ZfillFacts(i: nat, n: nat)
    requires i < n
    ensures |Zfill(i, NumDigits(n))| == NumDigits(n)
    ensures ParseNat(Zfill(i, NumDigits(n))) == Some(i)
  {
    DecimalLonger(i, n - 1);
    ZfillPadded(i, NumDigits(n));
  }

  /** No two sections with "cpu" in their name, of the same or of different
      checkpoints, get the same name, however many checkpoints there are. */
  lemma {:induction false} NoCollision(n: nat, i: nat, s: string, j: nat, u: string)
    requires i < n && j < n && HasCpu(s)
    requires Rename(s, Zfill(i, NumDigits(n))) == Rename(u, Zfill(j, NumDigits(n)))
    ensures i == j && s == u
  {
    ZfillFacts(i, n);
    ZfillFacts(j, n);
    RenameInjective(s, Zfill(i, NumDigits(n)), u, Zfill(j, NumDigits(n)));
  }
}
