/** Dotted-decimal text: ip_to_binary reads blocks, the last lines of get_cidrs print them. */
module CidrText {
  import opened Options
  import opened Texts
  import opened Prefixes
  import opened CidrBlocks

  // ----- numbers in binary

  function Pow2(w: nat): (p: nat)
    ensures p >= 1
  {
    if w == 0 then 1 else 2 * Pow2(w - 1)
  }

  /** int(b, 2) */
  function Value(b: Bits): (v: nat)
    ensures v < Pow2(|b|)
  {
    if b == [] then 0 else 2 * Value(b[..|b| - 1]) + if b[|b| - 1] then 1 else 0
  }

  lemma {:induction false} PowAdds(k: nat, w: nat)
    ensures Pow2(k + w) == Pow2(k) * Pow2(w)
    decreases w
  {
    if w > 0 { PowAdds(k, w - 1); }
  }

  lemma ValuePush(b: Bits, x: bool)
    ensures Value(b + [x]) == 2 * Value(b) + if x then 1 else 0
  {
    assert (b + [x])[..|b|] == b;
  }

  /** The bits of b stand |c| places higher. */
  lemma {:induction false} ValueConcat(b: Bits, c: Bits)
    ensures Value(b + c) == Value(b) * Pow2(|c|) + Value(c)
    decreases |c|
  {
    if c == [] {
      assert b + c == b;
    } else {
      var init, last := c[..|c| - 1], c[|c| - 1];
      assert c == init + [last] && b + c == (b + init) + [last];
      ValueConcat(b, init);
      ValuePush(b + init, last);
      ValuePush(init, last);
      Doubled(Value(b), Pow2(|init|));
    }
  }

  lemma Doubled(x: nat, y: nat)
    ensures 2 * (x * y) == x * (2 * y)
  {
  }

  lemma ValueCons(x: bool, b: Bits)
    ensures Value([x] + b) == (if x then Pow2(|b|) else 0) + Value(b)
  {
    ValueConcat([x], b);
    OneBit(x);
    var p := Pow2(|b|);
    assert Value([x]) * p == if x then p else 0;
  }

  lemma OneBit(x: bool)
    ensures Value([x]) == if x then 1 else 0
  {
    ValuePush([], x);
    assert [] + [x] == [x];
  }

  /** The order of strings of one length is that of the numbers they write. */
  lemma {:induction false} LexValue(a: Bits, b: Bits)
    requires |a| == |b|
    ensures Lex(a, b) <==> Value(a) < Value(b)
    decreases |a|
  {
    if a != [] {
      LexValue(a[1..], b[1..]);
      assert a == [a[0]] + a[1..] && b == [b[0]] + b[1..];
      ValueCons(a[0], a[1..]);
      ValueCons(b[0], b[1..]);
    }
  }

  /** bin(n)[2:] */
  function Bin(n: nat): Bits {
    if n < 2 then [n == 1] else Bin(n / 2) + [n % 2 == 1]
  }

  function Zeros(k: int): Bits {
    seq(if k < 0 then 0 else k, _ => false)
  }

  /** b.zfill(8) */
  function ZFill8(b: Bits): Bits {
    Zeros(8 - |b|) + b
  }

  /** The w-bit form of n. */
  function Fixed(n: nat, w: nat): (b: Bits)
    ensures |b| == w
  {
    if w == 0 then [] else Fixed(n / 2, w - 1) + [n % 2 == 1]
  }

  lemma {:induction false} FixedValue(b: Bits)
    ensures Fixed(Value(b), |b|) == b
  {
    if b != [] {
      var init := b[..|b| - 1];
      FixedValue(init);
      assert Value(b) / 2 == Value(init);
      assert b == init + [b[|b| - 1]];
    }
  }

  lemma {:induction false} ValueFixed(n: nat, w: nat)
    requires n < Pow2(w)
    ensures Value(Fixed(n, w)) == n
  {
    if w > 0 {
      ValueFixed(n / 2, w - 1);
      assert Fixed(n, w)[..w - 1] == Fixed(n / 2, w - 1);
    }
  }

  lemma {:induction false} FixedZero(w: nat)
    ensures Fixed(0, w) == Zeros(w)
  {
    if w > 0 { FixedZero(w - 1); }
  }

  /** bin and zfill together give the fixed-width form. */
  lemma {:induction false} BinFills(n: nat, w: nat)
    requires w >= 1 && n < Pow2(w)
    ensures |Bin(n)| <= w && Zeros(w - |Bin(n)|) + Bin(n) == Fixed(n, w)
  {
    if n < 2 {
      FixedZero(w - 1);
    } else {
      assert Pow2(1) == 2 * Pow2(0);
      BinFills(n / 2, w - 1);
      var low := [n % 2 == 1];
      assert Bin(n) == Bin(n / 2) + low && Fixed(n, w) == Fixed(n / 2, w - 1) + low;
      assert Zeros(w - |Bin(n)|) + (Bin(n / 2) + low) == (Zeros(w - |Bin(n)|) + Bin(n / 2)) + low;
    }
  }

  // ----- reading a block

  /** The bits of the dotted octets, each padded to eight; None when one is not a number. */
  function OctetBits(octets: seq<string>): Option<Bits> {
    if octets == [] then Some([]) else
      var front := OctetBits(octets[..|octets| - 1]);
      var last := ParseNat(octets[|octets| - 1]);
      if front == None || last == None then None
      else Some(front.value + ZFill8(Bin(last.value)))
  }

  /** Python's b[:k] */
  function Take(b: Bits, k: nat): Bits {
    if k <= |b| then b[..k] else b
  }

  /** One turn of ip_to_binary; None when it raises. */
  function ParseBlock(s: string): Option<Bits> {
    var parts := Split(s, '/');
    if |parts| != 2 then None else
      var octets, bits := OctetBits(Split(parts[0], '.')), ParseNat(parts[1]);
      if octets == None || bits == None then None else Some(Take(octets.value, bits.value))
  }

  /** The inner loop of ip_to_binary. */
  method ReadOctets(octets: seq<string>) returns (binaryIp: Option<Bits>)
    ensures binaryIp == OctetBits(octets)
  {
    var bits := [];
    for j := 0 to |octets|
      invariant OctetBits(octets[..j]) == Some(bits)
    {
      assert octets[..j + 1][..j] == octets[..j];
      var octet := ParseNat(octets[j]);
      if octet == None {
        OctetFails(octets, j);
        return None;
      }
      bits := bits + ZFill8(Bin(octet.value));
    }
    assert octets[..|octets|] == octets;
    binaryIp := Some(bits);
  }

  method IpToBinary(ipList: seq<string>) returns (binaryList: Option<seq<Bits>>)
    ensures binaryList.Some? <==> forall i :: 0 <= i < |ipList| ==> ParseBlock(ipList[i]).Some?
    ensures binaryList.Some? ==> |binaryList.value| == |ipList|
    ensures binaryList.Some? ==> forall i :: 0 <= i < |ipList| ==> Some(binaryList.value[i]) == ParseBlock(ipList[i])
  {
    var list := [];
    for i := 0 to |ipList|
      invariant |list| == i
      invariant forall j :: 0 <= j < i ==> ParseBlock(ipList[j]) == Some(list[j])
    {
      var parts := Split(ipList[i], '/');
      if |parts| != 2 {
        return None;
      }
      var binaryIp := ReadOctets(Split(parts[0], '.'));
      if binaryIp == None {
        return None;
      }
      var bits := ParseNat(parts[1]);
      if bits == None {
        return None;
      }
      list := list + [Take(binaryIp.value, bits.value)];
    }
    binaryList := Some(list);
  }

  lemma {:induction false} OctetFails(octets: seq<string>, j: nat)
    requires j < |octets| && ParseNat(octets[j]) == None
    ensures OctetBits(octets) == None
    decreases |octets|
  {
    if j < |octets| - 1 { OctetFails(octets[..|octets| - 1], j); }
  }

  // ----- printing a block

  /** The block filled up with zeros to 32 bits. */
  function Padded(b: Bits): (x: Bits)
    ensures |x| >= 32
  {
    b + Zeros(32 - |b|)
  }

  /** int(x[8i:8i+8], 2) */
  function Octet(b: Bits, i: nat): nat
    requires i < 4
  {
    Value(Padded(b)[8 * i..8 * i + 8])
  }

  /** The dotted form of four octets and a prefix length. */
  function Dotted(octets: seq<nat>, k: nat): string
    requires |octets| == 4
  {
    Join([Decimal(octets[0]), Decimal(octets[1]), Decimal(octets[2]), Decimal(octets[3])], '.') + ['/'] + Decimal(k)
  }

  function Octets(b: Bits): seq<nat> {
    seq(4, i requires 0 <= i < 4 => Octet(b, i))
  }

  function PrintBlock(b: Bits): string {
    Dotted(Octets(b), |b|)
  }

  lemma DecimalPlain(n: nat)
    ensures '.' !in Decimal(n) && '/' !in Decimal(n)
  {
    DecimalDigits(n);
  }

  lemma {:induction false} JoinPlain(parts: seq<string>)
    requires parts != [] && forall i :: 0 <= i < |parts| ==> '/' !in parts[i]
    ensures '/' !in Join(parts, '.')
    decreases |parts|
  {
    if |parts| > 1 { JoinPlain(parts[1..]); }
  }

  /** The 32 bits of four octets. */
  function Bits32(o: seq<nat>): (x: Bits)
    requires |o| == 4
    ensures |x| == 32
  {
    Fixed(o[0], 8) + Fixed(o[1], 8) + Fixed(o[2], 8) + Fixed(o[3], 8)
  }

  /** Reading a dotted block gives its four octets in binary, cut to the prefix length. */
  lemma ParseDotted(octets: seq<nat>, k: nat)
    requires |octets| == 4 && forall i :: 0 <= i < 4 ==> octets[i] < 256
    ensures ParseBlock(Dotted(octets, k)) == Some(Take(Bits32(octets), k))
  {
    var parts := [Decimal(octets[0]), Decimal(octets[1]), Decimal(octets[2]), Decimal(octets[3])];
    forall i | 0 <= i < 4
      ensures '.' !in parts[i] && '/' !in parts[i]
    {
      DecimalPlain(octets[i]);
    }
    JoinPlain(parts);
    SplitUnbroken(Join(parts, '.'), '/', Decimal(k));
    DecimalPlain(k);
    SplitUnbroken(Decimal(k), '/', []);
    SplitJoin(parts, '.');
    DecimalParses(k);
    OctetsRead(octets);
  }

  lemma OctetsRead(octets: seq<nat>)
    requires |octets| == 4 && forall i :: 0 <= i < 4 ==> octets[i] < 256
    ensures OctetBits([Decimal(octets[0]), Decimal(octets[1]), Decimal(octets[2]), Decimal(octets[3])]) ==
            Some(Bits32(octets))
  {
    var d0, d1, d2, d3 := Decimal(octets[0]), Decimal(octets[1]), Decimal(octets[2]), Decimal(octets[3]);
    var b0 := [] + Fixed(octets[0], 8);
    OctetRead([], octets[0], []);
    OctetRead([] + [d0], octets[1], b0);
    OctetRead([] + [d0] + [d1], octets[2], b0 + Fixed(octets[1], 8));
    OctetRead([] + [d0] + [d1] + [d2], octets[3], b0 + Fixed(octets[1], 8) + Fixed(octets[2], 8));
    assert [] + [d0] + [d1] + [d2] + [d3] == [d0, d1, d2, d3];
    assert b0 == Fixed(octets[0], 8);
  }

  lemma OctetRead(front: seq<string>, n: nat, bits: Bits)
    requires OctetBits(front) == Some(bits) && n < 256
    ensures OctetBits(front + [Decimal(n)]) == Some(bits + Fixed(n, 8))
  {
    DecimalParses(n);
    EightBits(n);
    OctetBitsPush(front, Decimal(n), bits, n);
  }

  lemma EightBits(n: nat)
    requires n < 256
    ensures ZFill8(Bin(n)) == Fixed(n, 8)
  {
    EightPow();
    BinFills(n, 8);
  }

  lemma EightPow()
    ensures Pow2(8) == 256
  {
    assert Pow2(4) == 16;
  }

  lemma OctetBitsPush(front: seq<string>, octet: string, bits: Bits, n: nat)
    requires OctetBits(front) == Some(bits) && ParseNat(octet) == Some(n)
    ensures OctetBits(front + [octet]) == Some(bits + ZFill8(Bin(n)))
  {
    var all := front + [octet];
    assert all[..|all| - 1] == front && all[|all| - 1] == octet;
  }

  /** Four octets of a 32-bit string, back in one. */
  lemma OctetsJoin(x: Bits)
    requires |x| == 32
    ensures Fixed(Value(x[0..8]), 8) + Fixed(Value(x[8..16]), 8) +
            Fixed(Value(x[16..24]), 8) + Fixed(Value(x[24..32]), 8) == x
  {
    FixedValue(x[0..8]);
    FixedValue(x[8..16]);
    FixedValue(x[16..24]);
    FixedValue(x[24..32]);
    SlicesJoin(x);
  }

  lemma SlicesJoin(x: Bits)
    requires |x| == 32
    ensures x[0..8] + x[8..16] + x[16..24] + x[24..32] == x
  {
  }

  lemma OctetSmall(b: Bits, i: nat)
    requires i < 4
    ensures Octet(b, i) < 256
  {
    EightPow();
  }

  /** Printing a block of at most 32 bits and reading it back gives the block. */
  lemma ParsePrint(b: Bits)
    requires |b| <= 32
    ensures ParseBlock(PrintBlock(b)) == Some(b)
  {
    forall i: nat | i < 4
      ensures Octet(b, i) < 256
    {
      OctetSmall(b, i);
    }
    ParseDotted(Octets(b), |b|);
    OctetsJoin(Padded(b));
    assert Padded(b)[..|b|] == b;
  }

  lemma {:induction false} ZerosValue(k: nat)
    ensures Value(Zeros(k)) == 0
  {
    if k > 0 {
      ZerosValue(k - 1);
      assert Zeros(k)[..k - 1] == Zeros(k - 1);
    }
  }

  /** The dotted form: four numbers with points between them, a slash and the length. */
  lemma DottedText(o: seq<nat>, k: nat)
    requires |o| == 4
    ensures Dotted(o, k) ==
            Decimal(o[0]) + "." + (Decimal(o[1]) + "." + (Decimal(o[2]) + "." + Decimal(o[3]))) + "/" + Decimal(k)
  {
    JoinFour(Decimal(o[0]), Decimal(o[1]), Decimal(o[2]), Decimal(o[3]));
  }

  lemma JoinFour(a: string, b: string, c: string, d: string)
    ensures Join([a, b, c, d], '.') == a + "." + (b + "." + (c + "." + d))
  {
    assert [a, b, c, d][1..] == [b, c, d] && [b, c, d][1..] == [c, d] && [c, d][1..] == [d];
    assert Join([c, d], '.') == c + "." + d;
  }

  /** The number that four octets write, the first one highest. */
  function Address(o: seq<nat>): nat
    requires |o| == 4
  {
    ((o[0] * 256 + o[1]) * 256 + o[2]) * 256 + o[3]
  }

  lemma Bits32Value(o: seq<nat>)
    requires |o| == 4 && forall i :: 0 <= i < 4 ==> o[i] < 256
    ensures Value(Bits32(o)) == Address(o)
  {
    EightPow();
    var a, b, c, d := Fixed(o[0], 8), Fixed(o[1], 8), Fixed(o[2], 8), Fixed(o[3], 8);
    ValueFixed(o[0], 8);
    ValueFixed(o[1], 8);
    ValueFixed(o[2], 8);
    ValueFixed(o[3], 8);
    ValueConcat(a, b);
    ValueConcat(a + b, c);
    ValueConcat(a + b + c, d);
  }

  lemma OctetsBits(b: Bits, k: nat)
    requires |b| + k == 32
    ensures Bits32(Octets(b)) == b + Zeros(k)
  {
    var x := Padded(b);
    OctetsJoin(x);
    assert Octets(b)[0] == Value(x[0..8]) && Octets(b)[1] == Value(x[8..16]);
    assert Octets(b)[2] == Value(x[16..24]) && Octets(b)[3] == Value(x[24..32]);
  }

  lemma OctetsSmall(b: Bits)
    ensures forall i :: 0 <= i < 4 ==> Octets(b)[i] < 256
  {
    forall i: nat | i < 4
      ensures Octets(b)[i] < 256
    {
      OctetSmall(b, i);
    }
  }

  lemma ShiftedValue(b: Bits, k: nat)
    ensures Value(b + Zeros(k)) == Value(b) * Pow2(k)
  {
    var z := Zeros(k);
    assert |z| == k;
    ZerosValue(k);
    ValueConcat(b, z);
  }

  /** The octets printed for a block make up the address of its first bits, all others zero. */
  lemma OctetsValue(b: Bits, k: nat)
    requires |b| + k == 32
    ensures Address(Octets(b)) == Value(b) * Pow2(k)
  {
    OctetsSmall(b);
    OctetsBits(b, k);
    Bits32Value(Octets(b));
    ShiftedValue(b, k);
  }

  /** What is printed for a block: that address in four numbers, and its length. */
  lemma PrintedAddress(b: Bits) returns (o: seq<nat>)
    requires |b| <= 32
    ensures |o| == 4 && (forall i :: 0 <= i < 4 ==> o[i] < 256) && Address(o) == Value(b) * Pow2(32 - |b|)
    ensures PrintBlock(b) ==
            Decimal(o[0]) + "." + (Decimal(o[1]) + "." + (Decimal(o[2]) + "." + Decimal(o[3]))) + "/" + Decimal(|b|)
  {
    o := Octets(b);
    OctetsSmall(b);
    OctetsValue(b, 32 - |b|);
    DottedText(o, |b|);
  }

  /** What is read from four numbers and a length: the first bits of the address. */
  lemma ReadAddress(o: seq<nat>, k: nat) returns (b: Bits)
    requires |o| == 4 && k <= 32 && forall i :: 0 <= i < 4 ==> o[i] < 256
    ensures ParseBlock(Decimal(o[0]) + "." + (Decimal(o[1]) + "." + (Decimal(o[2]) + "." + Decimal(o[3]))) + "/" +
                       Decimal(k)) == Some(b)
    ensures |b| == k && Value(b) * Pow2(32 - k) <= Address(o) < Value(b) * Pow2(32 - k) + Pow2(32 - k)
  {
    b := Take(Bits32(o), k);
    ParseDotted(o, k);
    DottedText(o, k);
    Bits32Value(o);
    SplitValue(Bits32(o), k);
  }

  lemma SplitValue(x: Bits, k: nat)
    requires k <= |x|
    ensures Value(x[..k]) * Pow2(|x| - k) <= Value(x) < Value(x[..k]) * Pow2(|x| - k) + Pow2(|x| - k)
  {
    var rest := x[k..];
    assert x == x[..k] + rest;
    ValueConcat(x[..k], rest);
  }

  // ----- host bits

  /** How many of the bits of octet i belong to a prefix of length k. */
  function Kept(k: nat, i: nat): nat {
    if k <= 8 * i then 0 else if k >= 8 * i + 8 then 8 else k - 8 * i
  }

  /** A number with its j low bits cleared. */
  function Cleared(n: nat, j: nat): nat {
    if j == 0 then n else 2 * Cleared(n / 2, j - 1)
  }

  lemma {:induction false} ClearedValue(n: nat, w: nat, keep: nat)
    requires keep <= w && n < Pow2(w)
    ensures Value(Fixed(n, w)[..keep] + Zeros(w - keep)) == Cleared(n, w - keep)
    decreases w
  {
    if keep == w {
      ValueFixed(n, w);
      assert Fixed(n, w)[..keep] + Zeros(0) == Fixed(n, w);
    } else {
      ClearedValue(n / 2, w - 1, keep);
      var b := Fixed(n, w)[..keep] + Zeros(w - keep);
      assert b[..w - 1] == Fixed(n / 2, w - 1)[..keep] + Zeros(w - 1 - keep);
    }
  }

  lemma CutOctet(x: Bits, k: nat, i: nat)
    requires |x| == 32 && k <= 32 && i < 4
    ensures Padded(x[..k])[8 * i..8 * i + 8] == x[8 * i..8 * i + 8][..Kept(k, i)] + Zeros(8 - Kept(k, i))
  {
    var cut := Padded(x[..k])[8 * i..8 * i + 8];
    var octet := x[8 * i..8 * i + 8];
    forall j | 0 <= j < 8
      ensures cut[j] == if j < Kept(k, i) then octet[j] else Zeros(8 - Kept(k, i))[j - Kept(k, i)]
    {
      assert cut[j] == Padded(x[..k])[8 * i + j];
      assert octet[j] == x[8 * i + j];
    }
  }

  lemma CutOctetValue(x: Bits, k: nat, i: nat, octet: nat)
    requires |x| == 32 && k <= 32 && i < 4 && octet < 256 && x[8 * i..8 * i + 8] == Fixed(octet, 8)
    ensures Octet(x[..k], i) == Cleared(octet, 8 - Kept(k, i))
  {
    EightPow();
    CutOctet(x, k, i);
    ClearedValue(octet, 8, Kept(k, i));
  }

  /** The dotted block with its host bits zeroed. */
  function HostCleared(o: seq<nat>, k: nat): seq<nat>
    requires |o| == 4
  {
    seq(4, i requires 0 <= i < 4 => Cleared(o[i], 8 - Kept(k, i)))
  }

  /** Printing a well-formed block that was read gives the block with its host bits zeroed. */
  lemma PrintParse(octets: seq<nat>, k: nat)
    requires |octets| == 4 && k <= 32 && forall i :: 0 <= i < 4 ==> octets[i] < 256
    ensures ParseBlock(Dotted(octets, k)).Some?
    ensures PrintBlock(ParseBlock(Dotted(octets, k)).value) == Dotted(HostCleared(octets, k), k)
  {
    ParseDotted(octets, k);
    OctetsCut(octets, k);
  }

  lemma OctetsCut(o: seq<nat>, k: nat)
    requires |o| == 4 && k <= 32 && forall i :: 0 <= i < 4 ==> o[i] < 256
    ensures |Take(Bits32(o), k)| == k && Octets(Take(Bits32(o), k)) == HostCleared(o, k)
  {
    var b := Take(Bits32(o), k);
    forall i | 0 <= i < 4
      ensures Octets(b)[i] == HostCleared(o, k)[i]
    {
      ThisOctetCut(o, k, i);
    }
    assert |Octets(b)| == |HostCleared(o, k)|;
  }

  lemma ThisOctetCut(o: seq<nat>, k: nat, i: nat)
    requires |o| == 4 && k <= 32 && i < 4 && o[i] < 256
    ensures Octet(Take(Bits32(o), k), i) == Cleared(o[i], 8 - Kept(k, i))
  {
    Bits32Slice(o, i);
    CutOctetValue(Bits32(o), k, i, o[i]);
  }

  lemma Bits32Slice(o: seq<nat>, i: nat)
    requires |o| == 4 && i < 4
    ensures Bits32(o)[8 * i..8 * i + 8] == Fixed(o[i], 8)
  {
    SliceOf([Fixed(o[0], 8), Fixed(o[1], 8), Fixed(o[2], 8), Fixed(o[3], 8)], i);
  }

  lemma SliceOf(parts: seq<Bits>, i: nat)
    requires |parts| == 4 && i < 4 && forall j :: 0 <= j < 4 ==> |parts[j]| == 8
    ensures var x := parts[0] + parts[1] + parts[2] + parts[3]; |x| == 32 && x[8 * i..8 * i + 8] == parts[i]
  {
    assert i == 0 || i == 1 || i == 2 || i == 3;
  }

  // ----- get_cidrs on text, and the addresses it covers

  datatype Result = Printed(cidrs: seq<string>) | Raised(error: Outcome)

  /** The blocks printed one by one, or the error raised again. */
  ghost predicate Prints(r: Result, o: Outcome) {
    match r
    case Printed(cidrs) =>
      o.Blocks? && |cidrs| == |o.blocks| && forall i :: 0 <= i < |cidrs| ==> cidrs[i] == PrintBlock(o.blocks[i])
    case Raised(e) => o == e && !o.Blocks?
  }

  method PrintBlocks(blocks: seq<Bits>) returns (cidrs: seq<string>)
    ensures |cidrs| == |blocks| && forall i :: 0 <= i < |cidrs| ==> cidrs[i] == PrintBlock(blocks[i])
  {
    cidrs := [];
    for i := 0 to |blocks|
      invariant |cidrs| == i && forall j :: 0 <= j < i ==> cidrs[j] == PrintBlock(blocks[j])
    {
      var printed := PrintBlock(blocks[i]);
      cidrs := cidrs + [printed];
    }
  }

  /** get_cidrs: the merged blocks, padded and printed. */
  method GetCidrs(binaryIps: seq<Bits>, n: int) returns (r: Result)
    ensures exists o :: Specified(Given(binaryIps), n, o) && Prints(r, o)
  {
    var blocks := Aggregate(binaryIps, n);
    if !blocks.Blocks? {
      assert Prints(Raised(blocks), blocks);
      return Raised(blocks);
    }
    var cidrs := PrintBlocks(blocks.blocks);
    r := Printed(cidrs);
    assert Prints(r, blocks);
  }
}
