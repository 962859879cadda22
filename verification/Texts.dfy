/** Python's str, int, split and join, on the strings the programs read and write. */
module Texts {
  import opened Options

  predicate IsDigit(c: char) {
    '0' <= c <= '9'
  }

  function Decimal(n: nat): (s: string) {
    (if n < 10 then [] else Decimal(n / 10)) + ['0' + (n % 10) as char]
  }

  /** int(s) on a string of digits; anything else raises. */
  function ParseNat(s: string): Option<nat> {
    if s == [] || !IsDigit(s[|s| - 1]) then None
    else
      var low := (s[|s| - 1] - '0') as nat;
      if |s| == 1 then Some(low) else
        var high := ParseNat(s[..|s| - 1]);
        if high == None then None else Some(10 * high.value + low)
  }

  /** A string reads as a number when it is not empty and has digits only. */
  lemma {:induction false} ParseNatIff(s: string)
    ensures ParseNat(s).Some? <==> s != "" && forall i :: 0 <= i < |s| ==> s[i] in "0123456789"
    decreases |s|
  {
    DigitsAre();
    if |s| > 1 { ParseNatIff(s[..|s| - 1]); }
  }

  lemma DigitsAre()
    ensures forall c: char :: c in "0123456789" <==> IsDigit(c)
  {
    var digits := "0123456789";
    forall c: char
      ensures c in digits <==> IsDigit(c)
    {
      if IsDigit(c) { assert digits[c as int - '0' as int] == c; }
    }
  }

  /** Reading a printed number gives the number back. */
  lemma {:induction false} DecimalParses(n: nat)
    ensures ParseNat(Decimal(n)) == Some(n)
  {
    var s := Decimal(n);
    if n >= 10 {
      DecimalParses(n / 10);
      assert s[..|s| - 1] == Decimal(n / 10);
    }
  }

  lemma DecimalDigit(d: nat)
    requires d < 10
    ensures Decimal(d) == ["0123456789"[d]]
  {
    assert d == 0 || d == 1 || d == 2 || d == 3 || d == 4 || d == 5 || d == 6 || d == 7 || d == 8 || d == 9;
  }

  /** The last digit of a number comes after the digits of the rest. */
  lemma DecimalPush(n: nat, d: nat)
    requires d < 10 && n > 0
    ensures Decimal(10 * n + d) == Decimal(n) + Decimal(d)
  {
    assert (10 * n + d) / 10 == n && (10 * n + d) % 10 == d;
  }

  lemma {:induction false} DecimalDigits(n: nat)
    ensures Decimal(n) != [] && forall i :: 0 <= i < |Decimal(n)| ==> IsDigit(Decimal(n)[i])
  {
    if n >= 10 { DecimalDigits(n / 10); }
  }

  // ----- split strings

  /** s.split(sep) */
  function Split(s: string, sep: char): (parts: seq<string>)
    ensures |parts| >= 1
  {
    if s == [] then [[]]
    else
      var rest := Split(s[1..], sep);
      if s[0] == sep then [[]] + rest else [[s[0]] + rest[0]] + rest[1..]
  }

  /** sep.join(parts) */
  function Join(parts: seq<string>, sep: char): string {
    if parts == [] then []
    else if |parts| == 1 then parts[0]
    else parts[0] + [sep] + Join(parts[1..], sep)
  }

  /** The text p occurs in s. */
  ghost predicate Occurs(p: string, s: string) {
    exists a, b :: s == a + p + b
  }

  lemma OccursIn(p: string, s: string, a: string, b: string)
    requires Occurs(p, s)
    ensures Occurs(p, a + s + b)
  {
    var x, y :| s == x + p + y;
    assert a + s + b == (a + x) + p + (y + b);
  }

  /** Every part occurs in the joined text. */
  lemma {:induction false} JoinHolds(parts: seq<string>, sep: char, i: nat)
    requires i < |parts|
    ensures Occurs(parts[i], Join(parts, sep))
    decreases |parts|
  {
    var s := Join(parts, sep);
    if |parts| == 1 {
      assert s == [] + parts[0] + [];
    } else if i == 0 {
      assert s == [] + parts[0] + ([sep] + Join(parts[1..], sep));
    } else {
      JoinHolds(parts[1..], sep, i - 1);
      OccursIn(parts[i], Join(parts[1..], sep), parts[0] + [sep], []);
      assert s == (parts[0] + [sep]) + Join(parts[1..], sep) + [];
    }
  }

  lemma {:induction false} SplitUnbroken(s: string, sep: char, tail: string)
    requires sep !in s
    ensures Split(s, sep) == [s]
    ensures Split(s + [sep] + tail, sep) == [s] + Split(tail, sep)
  {
    if s == [] {
      assert ([sep] + tail)[1..] == tail;
      assert s + [sep] + tail == [sep] + tail;
    } else {
      SplitUnbroken(s[1..], sep, tail);
      assert (s + [sep] + tail)[1..] == s[1..] + [sep] + tail;
      assert [s[0]] + s[1..] == s;
    }
  }

  lemma {:induction false} SplitJoin(parts: seq<string>, sep: char)
    requires parts != [] && forall i :: 0 <= i < |parts| ==> sep !in parts[i]
    ensures Split(Join(parts, sep), sep) == parts
    decreases |parts|
  {
    if |parts| == 1 {
      SplitUnbroken(parts[0], sep, []);
      assert parts == [parts[0]];
    } else {
      SplitJoin(parts[1..], sep);
      SplitUnbroken(parts[0], sep, Join(parts[1..], sep));
      assert parts == [parts[0]] + parts[1..];
    }
  }
}
