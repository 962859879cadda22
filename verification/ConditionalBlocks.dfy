/** Stripping or keeping tagged blocks of a template, and exactly when two passes commute. */
module ConditionalBlocks {
  import opened Texts
  import opened Sequences

  /** c.isspace() */
  predicate IsSpace(c: char) {
    || c == ' ' || '\t' <= c <= '\r' || '\U{001c}' <= c <= '\U{001f}' || c == '\U{0085}' || c == '\U{00a0}'
    || c == '\U{1680}' || '\U{2000}' <= c <= '\U{200a}' || c == '\U{2028}' || c == '\U{2029}'
    || c == '\U{202f}' || c == '\U{205f}' || c == '\U{3000}'
  }

  /** line.strip() */
  function Strip(s: string): string {
    if s != [] && IsSpace(s[0]) then Strip(s[1..])
    else if s != [] && IsSpace(s[|s| - 1]) then Strip(s[..|s| - 1])
    else s
  }

  predicate AllSpace(s: string) {
    forall i :: 0 <= i < |s| ==> IsSpace(s[i])
  }

  /** No white space at either end. */
  predicate Stripped(s: string) {
    s != [] ==> !IsSpace(s[0]) && !IsSpace(s[|s| - 1])
  }

  /** The text s is t with white space before and after it. */
  ghost predicate Around(s: string, a: string, t: string, b: string) {
    s == a + t + b && AllSpace(a) && AllSpace(b)
  }

  lemma AroundFront(s: string, a: string, t: string, b: string)
    requires s != [] && IsSpace(s[0]) && Around(s[1..], a, t, b)
    ensures Around(s, [s[0]] + a, t, b)
  {
    assert s == [s[0]] + s[1..];
    assert [s[0]] + (a + t + b) == ([s[0]] + a) + t + b;
  }

  lemma AroundBack(s: string, a: string, t: string, b: string)
    requires s != [] && IsSpace(s[|s| - 1]) && Around(s[..|s| - 1], a, t, b)
    ensures Around(s, a, t, b + [s[|s| - 1]])
  {
    assert s == s[..|s| - 1] + [s[|s| - 1]];
    assert (a + t + b) + [s[|s| - 1]] == a + t + (b + [s[|s| - 1]]);
  }

  /** What is stripped is white space, and no more could be. */
  lemma {:induction false} StripIs(s: string) returns (a: string, b: string)
    ensures Around(s, a, Strip(s), b) && Stripped(Strip(s))
    decreases |s|
  {
    if s != [] && IsSpace(s[0]) {
      a, b := StripIs(s[1..]);
      AroundFront(s, a, Strip(s), b);
      a := [s[0]] + a;
    } else if s != [] && IsSpace(s[|s| - 1]) {
      a, b := StripIs(s[..|s| - 1]);
      AroundBack(s, a, Strip(s), b);
      b := b + [s[|s| - 1]];
    } else {
      a, b := [], [];
      assert s == [] + s + [];
    }
  }

  lemma StripFront(c: char, s: string)
    requires IsSpace(c)
    ensures Strip([c] + s) == Strip(s)
  {
    assert ([c] + s)[1..] == s;
  }

  lemma StripBack(s: string, c: char)
    requires IsSpace(c) && s != [] && !IsSpace(s[0])
    ensures Strip(s + [c]) == Strip(s)
  {
    assert (s + [c])[..|s|] == s;
  }

  /** White space after a text is stripped off, */
  lemma {:induction false} StripAfter(m: string, b: string)
    requires AllSpace(b) && Stripped(m) && m != []
    ensures Strip(m + b) == m
    decreases |b|
  {
    if b == [] {
      assert m + b == m;
    } else {
      var init, last := b[..|b| - 1], b[|b| - 1];
      StripAfter(m, init);
      assert m + b == (m + init) + [last];
      StripBack(m + init, last);
    }
  }

  /** and so is white space before it. */
  lemma {:induction false} StripAround(a: string, m: string, b: string)
    requires AllSpace(a) && AllSpace(b) && Stripped(m) && m != []
    ensures Strip(a + m + b) == m
    decreases |a|
  {
    if a == [] {
      StripAfter(m, b);
      assert a + m + b == m + b;
    } else {
      StripAround(a[1..], m, b);
      assert a + m + b == [a[0]] + (a[1..] + m + b);
      StripFront(a[0], a[1..] + m + b);
    }
  }

  /** The line is this text with nothing but white space around it. */
  ghost predicate Indented(line: string, text: string) {
    exists a, b :: Around(line, a, text, b)
  }

  lemma StripsTo(line: string, text: string)
    requires text != [] && Stripped(text)
    ensures Strip(line) == text <==> Indented(line, text)
  {
    var a, b := StripIs(line);
    if x, y :| Around(line, x, text, y) {
      StripAround(x, text, y);
    }
  }

  /** A line is a marker when it holds the marker and white space around it; a tag that ends in white space
      has none. */
  lemma MarkersAre(tag: string, line: string)
    ensures IsBegin(tag, line) <==> Stripped("# BEGIN_" + tag) && Indented(line, "# BEGIN_" + tag)
    ensures IsEnd(tag, line) <==> Stripped("# END_" + tag) && Indented(line, "# END_" + tag)
  {
    var a, b := StripIs(line);
    if Stripped("# BEGIN_" + tag) { StripsTo(line, "# BEGIN_" + tag); }
    if Stripped("# END_" + tag) { StripsTo(line, "# END_" + tag); }
  }

  predicate IsBegin(tag: string, line: string) {
    Strip(line) == "# BEGIN_" + tag
  }

  predicate IsEnd(tag: string, line: string) {
    Strip(line) == "# END_" + tag
  }

  predicate IsMarker(tag: string, line: string) {
    IsBegin(tag, line) || IsEnd(tag, line)
  }

  /** The inside flag after one line. */
  function Flag(tag: string, inside: bool, line: string): bool {
    if IsBegin(tag, line) then true else if IsEnd(tag, line) then false else inside
  }

  /** Whether one line is kept. */
  predicate Keeps(tag: string, keep: bool, inside: bool, line: string) {
    !IsMarker(tag, line) && (keep || !inside)
  }

  /** What one pass leaves of some lines, entering them inside a block or not. */
  function Pass(lines: seq<string>, tag: string, keep: bool, inside: bool): seq<string> {
    if lines == [] then []
    else (if Keeps(tag, keep, inside, lines[0]) then [lines[0]] else []) +
         Pass(lines[1..], tag, keep, Flag(tag, inside, lines[0]))
  }

  /** Looking at one more line. */
  lemma PassFrom(filtered: seq<string>, lines: seq<string>, i: nat, tag: string, keep: bool, inside: bool)
    requires i < |lines|
    ensures filtered + Pass(lines[i..], tag, keep, inside) ==
            (if Keeps(tag, keep, inside, lines[i]) then filtered + [lines[i]] else filtered) +
            Pass(lines[i + 1..], tag, keep, Flag(tag, inside, lines[i]))
  {
    assert lines[i..][0] == lines[i] && lines[i..][1..] == lines[i + 1..];
    var kept := if Keeps(tag, keep, inside, lines[i]) then [lines[i]] else [];
    ConcatAssociates(filtered, kept, Pass(lines[i + 1..], tag, keep, Flag(tag, inside, lines[i])));
    assert filtered + [] == filtered;
  }

  /** The loop of strip_conditional_block. */
  method FilterLines(lines: seq<string>, tag: string, keep: bool) returns (filtered: seq<string>)
    ensures filtered == Pass(lines, tag, keep, false)
  {
    filtered := [];
    var inside := false;
    for i := 0 to |lines|
      invariant filtered + Pass(lines[i..], tag, keep, inside) == Pass(lines, tag, keep, false)
    {
      var line := lines[i];
      PassFrom(filtered, lines, i, tag, keep, inside);
      if IsBegin(tag, line) {
        inside := true;
        continue;
      }
      if IsEnd(tag, line) {
        inside := false;
        continue;
      }
      if !keep && inside {
        continue;
      }
      filtered := filtered + [line];
    }
    assert filtered + [] == filtered;
  }

  method StripConditionalBlock(content: string, tag: string, keep: bool) returns (r: string)
    ensures r == StripText(content, tag, keep)
  {
    var lines := Split(content, '\n');
    var filtered := FilterLines(lines, tag, keep);
    r := Join(filtered, '\n');
  }

  function StripText(content: string, tag: string, keep: bool): string {
    Join(Pass(Split(content, '\n'), tag, keep, false), '\n')
  }

  // ----- one pass

  /** Line i stands in a block: the last marker before it opens one. */
  ghost predicate InBlock(lines: seq<string>, tag: string, i: nat)
    requires i <= |lines|
  {
    exists j :: Opens(lines, tag, i, j)
  }

  ghost predicate Opens(lines: seq<string>, tag: string, i: nat, j: int)
    requires i <= |lines|
  {
    0 <= j < i && IsBegin(tag, lines[j]) && forall k :: j < k < i ==> !IsEnd(tag, lines[k])
  }

  function FlagAfter(lines: seq<string>, tag: string, inside: bool): bool {
    if lines == [] then inside else Flag(tag, FlagAfter(lines[..|lines| - 1], tag, inside), lines[|lines| - 1])
  }

  lemma NotBoth(tag: string, line: string)
    ensures !(IsBegin(tag, line) && IsEnd(tag, line))
  {
    assert ("# BEGIN_" + tag)[2] == 'B' && ("# END_" + tag)[2] == 'E';
  }

  /** A block goes on through a line that does not end it, and starts after one that begins it. */
  lemma InBlockNext(lines: seq<string>, tag: string, i: nat)
    requires i < |lines|
    ensures InBlock(lines, tag, i + 1) <==> Flag(tag, InBlock(lines, tag, i), lines[i])
  {
    var next := i + 1;
    NotBoth(tag, lines[i]);
    if j :| Opens(lines, tag, i, j) {
      assert !IsEnd(tag, lines[i]) ==> Opens(lines, tag, next, j);
    }
    if IsBegin(tag, lines[i]) { assert Opens(lines, tag, next, i); }
    if j :| Opens(lines, tag, next, j) {
      assert j < i ==> Opens(lines, tag, i, j);
    }
  }

  lemma {:induction false} FlagIsInBlock(lines: seq<string>, tag: string, i: nat)
    requires i <= |lines|
    ensures FlagAfter(lines[..i], tag, false) <==> InBlock(lines, tag, i)
    decreases i
  {
    if i > 0 {
      FlagIsInBlock(lines, tag, i - 1);
      assert lines[..i][..i - 1] == lines[..i - 1] && lines[..i][i - 1] == lines[i - 1];
      InBlockNext(lines, tag, i - 1);
    }
  }

  lemma {:induction false} PassPush(lines: seq<string>, line: string, tag: string, keep: bool, inside: bool)
    ensures Pass(lines + [line], tag, keep, inside) ==
            Pass(lines, tag, keep, inside) +
            if Keeps(tag, keep, FlagAfter(lines, tag, inside), line) then [line] else []
    decreases |lines|
  {
    if lines == [] {
      assert lines + [line] == [line] && [line][1..] == [];
    } else {
      var next := Flag(tag, inside, lines[0]);
      assert (lines + [line])[1..] == lines[1..] + [line];
      PassPush(lines[1..], line, tag, keep, next);
      FlagFront(lines, tag, inside);
      var first := if Keeps(tag, keep, inside, lines[0]) then [lines[0]] else [];
      ConcatAssociates(first, Pass(lines[1..], tag, keep, next),
                       if Keeps(tag, keep, FlagAfter(lines, tag, inside), line) then [line] else []);
    }
  }

  lemma {:induction false} FlagFront(lines: seq<string>, tag: string, inside: bool)
    requires lines != []
    ensures FlagAfter(lines, tag, inside) == FlagAfter(lines[1..], tag, Flag(tag, inside, lines[0]))
    decreases |lines|
  {
    if |lines| > 1 {
      var m := |lines| - 1;
      FlagFront(lines[..m], tag, inside);
      assert lines[..m][1..] == lines[1..][..m - 1];
    }
  }

  /** Line by line: a pass keeps a line unless it is a marker, or stands in a block that is to be dropped. */
  lemma KeptLine(lines: seq<string>, tag: string, keep: bool, i: nat)
    requires i < |lines|
    ensures Pass(lines[..0], tag, keep, false) == []
    ensures Pass(lines[..|lines|], tag, keep, false) == Pass(lines, tag, keep, false)
    ensures var kept := !IsBegin(tag, lines[i]) && !IsEnd(tag, lines[i]) && (keep || !InBlock(lines, tag, i));
            Pass(lines[..i + 1], tag, keep, false) ==
            Pass(lines[..i], tag, keep, false) + if kept then [lines[i]] else []
  {
    FlagIsInBlock(lines, tag, i);
    assert lines[..i + 1] == lines[..i] + [lines[i]];
    PassPush(lines[..i], lines[i], tag, keep, false);
    assert lines[..|lines|] == lines;
  }

  predicate Clean(lines: seq<string>, tag: string) {
    forall i :: 0 <= i < |lines| ==> !IsMarker(tag, lines[i])
  }

  /** A pass leaves no marker of its tag and only lines it was given. */
  lemma {:induction false} PassClean(lines: seq<string>, tag: string, keep: bool, inside: bool)
    ensures Clean(Pass(lines, tag, keep, inside), tag)
    ensures forall line :: line in Pass(lines, tag, keep, inside) ==> line in lines
    decreases |lines|
  {
    if lines != [] { PassClean(lines[1..], tag, keep, Flag(tag, inside, lines[0])); }
  }

  /** A pass over lines without its markers, entered outside, changes nothing. */
  lemma {:induction false} PassNothing(lines: seq<string>, tag: string, keep: bool)
    requires Clean(lines, tag)
    ensures Pass(lines, tag, keep, false) == lines
    decreases |lines|
  {
    if lines != [] {
      PassNothing(lines[1..], tag, keep);
      assert lines == [lines[0]] + lines[1..];
    }
  }

  /** Dropping the blocks leaves a subsequence of what keeping them leaves. */
  lemma {:induction false} DroppedWithinKept(lines: seq<string>, tag: string, inside: bool)
    ensures Subsequence(Pass(lines, tag, false, inside), Pass(lines, tag, true, inside))
    decreases |lines|
  {
    if lines != [] {
      var next := Flag(tag, inside, lines[0]);
      DroppedWithinKept(lines[1..], tag, next);
      var d, k := Pass(lines[1..], tag, false, next), Pass(lines[1..], tag, true, next);
      assert ([lines[0]] + k)[1..] == k && ([lines[0]] + d)[1..] == d;
      assert [] + k == k && [] + d == d;
      assert Subsequence(d, [lines[0]] + k);
    }
  }

  // ----- two passes

  predicate IsPlain(a: string, b: string, line: string) {
    !IsMarker(a, line) && !IsMarker(b, line)
  }

  lemma MarkersTell(a: string, b: string)
    ensures "# BEGIN_" + a != "# END_" + b
    ensures "# BEGIN_" + a == "# BEGIN_" + b ==> a == b
    ensures "# END_" + a == "# END_" + b ==> a == b
  {
    assert ("# BEGIN_" + a)[2] == 'B' && ("# END_" + b)[2] == 'E';
    assert ("# BEGIN_" + a)[8..] == a && ("# BEGIN_" + b)[8..] == b;
    assert ("# END_" + a)[6..] == a && ("# END_" + b)[6..] == b;
  }

  /** A line marks at most one tag, and at most one end of it. */
  lemma DifferentMarkers(a: string, b: string, line: string)
    ensures IsMarker(a, line) && IsMarker(b, line) ==> a == b
    ensures !(IsBegin(a, line) && IsEnd(b, line)) && !(IsEnd(a, line) && IsBegin(b, line))
  {
    MarkersTell(a, b);
    MarkersTell(b, a);
  }

  /** The flag of the second pass, for b, after one line: it sees the lines that the first pass leaves. */
  function SeenFlag(b: string, keepA: bool, insideA: bool, seenB: bool, line: string): bool {
    if keepA || !insideA then Flag(b, seenB, line) else seenB
  }

  /** Whether a line is left by a pass for a and then one for b. */
  predicate Stays(a: string, keepA: bool, b: string, keepB: bool, insideA: bool, seenB: bool, line: string) {
    IsPlain(a, b, line) && (keepA || !insideA) && (keepB || !seenB)
  }

  /** Both passes at once. */
  function Both(lines: seq<string>, a: string, keepA: bool, b: string, keepB: bool, insideA: bool, seenB: bool)
    : seq<string>
  {
    if lines == [] then []
    else
      (if Stays(a, keepA, b, keepB, insideA, seenB, lines[0]) then [lines[0]] else []) +
      Both(lines[1..], a, keepA, b, keepB, Flag(a, insideA, lines[0]), SeenFlag(b, keepA, insideA, seenB, lines[0]))
  }

  lemma PassCons(line: string, rest: seq<string>, tag: string, keep: bool, inside: bool)
    ensures Pass([line] + rest, tag, keep, inside) ==
            (if Keeps(tag, keep, inside, line) then [line] else []) + Pass(rest, tag, keep, Flag(tag, inside, line))
  {
    assert ([line] + rest)[1..] == rest;
  }

  /** One pass after the other does both at once, whatever the blocks look like. */
  lemma {:induction false} TwoPasses(lines: seq<string>, a: string, keepA: bool, b: string, keepB: bool,
                                     insideA: bool, seenB: bool)
    requires a != b
    ensures Pass(Pass(lines, a, keepA, insideA), b, keepB, seenB) == Both(lines, a, keepA, b, keepB, insideA, seenB)
    decreases |lines|
  {
    if lines != [] {
      var line := lines[0];
      var first := Pass(lines[1..], a, keepA, Flag(a, insideA, line));
      DifferentMarkers(a, b, line);
      TwoPasses(lines[1..], a, keepA, b, keepB, Flag(a, insideA, line), SeenFlag(b, keepA, insideA, seenB, line));
      if Keeps(a, keepA, insideA, line) {
        PassCons(line, first, b, keepB, seenB);
      } else {
        assert [] + first == first;
      }
    }
  }

  // ----- when the order does not matter

  /** At every plain line the two orders decide alike. Each order has the flag of its first pass and that
      of its second, which sees only the markers the first pass leaves. */
  predicate Agree(lines: seq<string>, a: string, keepA: bool, b: string, keepB: bool,
                  insideA: bool, seenB: bool, insideB: bool, seenA: bool)
    decreases |lines|
  {
    lines == [] ||
    var line := lines[0];
    && (IsPlain(a, b, line) ==>
          ((keepA || !insideA) && (keepB || !seenB) <==> (keepB || !insideB) && (keepA || !seenA)))
    && Agree(lines[1..], a, keepA, b, keepB, Flag(a, insideA, line), SeenFlag(b, keepA, insideA, seenB, line),
             Flag(b, insideB, line), SeenFlag(a, keepB, insideB, seenA, line))
  }

  lemma {:induction false} AgreeSuffices(lines: seq<string>, a: string, keepA: bool, b: string, keepB: bool,
                                         insideA: bool, seenB: bool, insideB: bool, seenA: bool)
    requires Agree(lines, a, keepA, b, keepB, insideA, seenB, insideB, seenA)
    ensures Both(lines, a, keepA, b, keepB, insideA, seenB) == Both(lines, b, keepB, a, keepA, insideB, seenA)
    decreases |lines|
  {
    if lines != [] {
      var line := lines[0];
      AgreeSuffices(lines[1..], a, keepA, b, keepB, Flag(a, insideA, line), SeenFlag(b, keepA, insideA, seenB, line),
                    Flag(b, insideB, line), SeenFlag(a, keepB, insideB, seenA, line));
    }
  }

  /** No plain line occurs twice. */
  ghost predicate PlainDistinct(lines: seq<string>, a: string, b: string) {
    forall i, j :: 0 <= i < j < |lines| && IsPlain(a, b, lines[i]) ==> lines[i] != lines[j]
  }

  lemma {:induction false} BothWithin(lines: seq<string>, a: string, keepA: bool, b: string, keepB: bool,
                                      insideA: bool, seenB: bool, line: string)
    requires line in Both(lines, a, keepA, b, keepB, insideA, seenB)
    ensures line in lines && IsPlain(a, b, line)
    decreases |lines|
  {
    if !(Stays(a, keepA, b, keepB, insideA, seenB, lines[0]) && line == lines[0]) {
      BothWithin(lines[1..], a, keepA, b, keepB, Flag(a, insideA, lines[0]),
                 SeenFlag(b, keepA, insideA, seenB, lines[0]), line);
    }
  }

  /** A line kept by one order only would have to occur again. */
  lemma SameFirst(line: string, stays: bool, stays': bool, left: seq<string>, left': seq<string>)
    requires (if stays then [line] else []) + left == (if stays' then [line] else []) + left'
    requires line !in left && line !in left'
    ensures stays == stays' && left == left'
  {
    var front, front' := if stays then [line] else [], if stays' then [line] else [];
    assert line in front + left <==> stays;
    assert line in front' + left' <==> stays';
    assert (front + left)[|front|..] == left && (front' + left')[|front'|..] == left';
  }

  lemma {:induction false} AgreeNeeded(lines: seq<string>, a: string, keepA: bool, b: string, keepB: bool,
                                       insideA: bool, seenB: bool, insideB: bool, seenA: bool)
    requires PlainDistinct(lines, a, b)
    requires Both(lines, a, keepA, b, keepB, insideA, seenB) == Both(lines, b, keepB, a, keepA, insideB, seenA)
    ensures Agree(lines, a, keepA, b, keepB, insideA, seenB, insideB, seenA)
    decreases |lines|
  {
    if lines != [] {
      var line, rest := lines[0], lines[1..];
      var insideA', seenB' := Flag(a, insideA, line), SeenFlag(b, keepA, insideA, seenB, line);
      var insideB', seenA' := Flag(b, insideB, line), SeenFlag(a, keepB, insideB, seenA, line);
      var left := Both(rest, a, keepA, b, keepB, insideA', seenB');
      var left' := Both(rest, b, keepB, a, keepA, insideB', seenA');
      if IsPlain(a, b, line) {
        assert line !in rest;
        if line in left { BothWithin(rest, a, keepA, b, keepB, insideA', seenB', line); }
        if line in left' { BothWithin(rest, b, keepB, a, keepA, insideB', seenA', line); }
        SameFirst(line, Stays(a, keepA, b, keepB, insideA, seenB, line),
                  Stays(b, keepB, a, keepA, insideB, seenA, line), left, left');
      } else {
        assert [] + left == left && [] + left' == left';
      }
      AgreeNeeded(rest, a, keepA, b, keepB, insideA', seenB', insideB', seenA');
    }
  }

  /** For lines whose plain ones are all different: both orders leave the same lines exactly when they
      decide alike at every plain line. */
  lemma LinesCommuteIff(lines: seq<string>, a: string, keepA: bool, b: string, keepB: bool)
    requires a != b && PlainDistinct(lines, a, b)
    ensures Pass(Pass(lines, a, keepA, false), b, keepB, false) ==
            Pass(Pass(lines, b, keepB, false), a, keepA, false) <==>
            Agree(lines, a, keepA, b, keepB, false, false, false, false)
  {
    TwoPasses(lines, a, keepA, b, keepB, false, false);
    TwoPasses(lines, b, keepB, a, keepA, false, false);
    if Agree(lines, a, keepA, b, keepB, false, false, false, false) {
      AgreeSuffices(lines, a, keepA, b, keepB, false, false, false, false);
    } else if Both(lines, a, keepA, b, keepB, false, false) == Both(lines, b, keepB, a, keepA, false, false) {
      AgreeNeeded(lines, a, keepA, b, keepB, false, false, false, false);
    }
  }

  /** When the blocks of a are kept the orders always decide alike. */
  lemma {:induction false} KeptAgrees(lines: seq<string>, a: string, keepA: bool, b: string, keepB: bool,
                                      insideA: bool, seenB: bool, insideB: bool, seenA: bool)
    requires a != b && (keepA || keepB)
    requires (keepA ==> seenB == insideB) && (keepB ==> seenA == insideA)
    ensures Agree(lines, a, keepA, b, keepB, insideA, seenB, insideB, seenA)
    decreases |lines|
  {
    if lines != [] {
      var line := lines[0];
      KeptAgrees(lines[1..], a, keepA, b, keepB, Flag(a, insideA, line), SeenFlag(b, keepA, insideA, seenB, line),
                 Flag(b, insideB, line), SeenFlag(a, keepB, insideB, seenA, line));
    }
  }

  /** Where a line stands in blocks of two tags that are opened and closed properly and do not
      cross: outside, in one of them, or in one nested in the other. */
  datatype Place = Outside | InA | InB | BInA | AInB | Broken

  function Move(a: string, b: string, place: Place, line: string): Place {
    if IsBegin(a, line) then (if place.Outside? then InA else if place.InB? then AInB else Broken)
    else if IsEnd(a, line) then (if place.InA? then Outside else if place.AInB? then InB else Broken)
    else if IsBegin(b, line) then (if place.Outside? then InB else if place.InA? then BInA else Broken)
    else if IsEnd(b, line) then (if place.InB? then Outside else if place.BInA? then InA else Broken)
    else place
  }

  /** The blocks of the two tags are well formed and do not cross. */
  predicate Nested(a: string, b: string, place: Place, lines: seq<string>)
    decreases |lines|
  {
    if lines == [] then place.Outside?
    else place != Broken && Nested(a, b, Move(a, b, place, lines[0]), lines[1..])
  }

  predicate InsideA(place: Place) {
    place.InA? || place.BInA? || place.AInB?
  }

  predicate InsideB(place: Place) {
    place.InB? || place.BInA? || place.AInB?
  }

  /** What a second pass for b knows of its blocks when the first one dropped or kept those of a. */
  predicate SeesB(place: Place, keepA: bool) {
    place.InB? || place.AInB? || (place.BInA? && keepA)
  }

  predicate SeesA(place: Place, keepB: bool) {
    place.InA? || place.BInA? || (place.AInB? && keepB)
  }

  /** They also do when the blocks are well formed and do not cross. */
  lemma {:induction false} NestedAgrees(lines: seq<string>, a: string, keepA: bool, b: string, keepB: bool,
                                        place: Place)
    requires a != b && Nested(a, b, place, lines)
    ensures Agree(lines, a, keepA, b, keepB, InsideA(place), SeesB(place, keepA), InsideB(place), SeesA(place, keepB))
    decreases |lines|
  {
    if lines != [] {
      DifferentMarkers(a, b, lines[0]);
      var next := Move(a, b, place, lines[0]);
      NextPlace(lines[1..], a, b, next);
      NestedAgrees(lines[1..], a, keepA, b, keepB, next);
    }
  }

  /** Lines that are still well nested are not in a broken place. */
  lemma NextPlace(lines: seq<string>, a: string, b: string, place: Place)
    requires Nested(a, b, place, lines)
    ensures place != Broken
  {
  }

  // ----- on texts

  lemma {:induction false} SplitLines(s: string)
    ensures forall i :: 0 <= i < |Split(s, '\n')| ==> '\n' !in Split(s, '\n')[i]
    decreases |s|
  {
    if s != [] { SplitLines(s[1..]); }
  }

  lemma PassLines(lines: seq<string>, tag: string, keep: bool)
    requires forall i :: 0 <= i < |lines| ==> '\n' !in lines[i]
    ensures forall i :: 0 <= i < |Pass(lines, tag, keep, false)| ==> '\n' !in Pass(lines, tag, keep, false)[i]
  {
    PassClean(lines, tag, keep, false);
    forall i | 0 <= i < |Pass(lines, tag, keep, false)|
      ensures '\n' !in Pass(lines, tag, keep, false)[i]
    {
      assert Pass(lines, tag, keep, false)[i] in lines;
    }
  }

  lemma EmptyIsNoMarker(tag: string)
    ensures !IsMarker(tag, "")
  {
    assert |"# BEGIN_" + tag| > 0 && |"# END_" + tag| > 0;
  }

  /** Stripping a text that was already stripped for another tag works on the lines that were left. */
  lemma StripAgain(content: string, a: string, keepA: bool, b: string, keepB: bool)
    ensures StripText(StripText(content, a, keepA), b, keepB) ==
            Join(Pass(Pass(Split(content, '\n'), a, keepA, false), b, keepB, false), '\n')
  {
    var lines := Split(content, '\n');
    var first := Pass(lines, a, keepA, false);
    if first == [] {
      EmptyIsNoMarker(b);
      assert Split("", '\n') == [""];
      assert [""][1..] == [];
      assert Pass([""], b, keepB, false) == [""];
    } else {
      SplitLines(content);
      PassLines(lines, a, keepA);
      SplitJoin(first, '\n');
    }
  }

  /** Two orders that decide alike at every plain line leave the same text. */
  lemma AgreeingPasses(content: string, a: string, keepA: bool, b: string, keepB: bool)
    requires a != b && Agree(Split(content, '\n'), a, keepA, b, keepB, false, false, false, false)
    ensures StripText(StripText(content, a, keepA), b, keepB) == StripText(StripText(content, b, keepB), a, keepA)
  {
    var lines := Split(content, '\n');
    StripAgain(content, a, keepA, b, keepB);
    StripAgain(content, b, keepB, a, keepA);
    TwoPasses(lines, a, keepA, b, keepB, false, false);
    TwoPasses(lines, b, keepB, a, keepA, false, false);
    AgreeSuffices(lines, a, keepA, b, keepB, false, false, false, false);
  }

  /** Two tags of which at least one is kept can be stripped in either order, in any text at all. */
  lemma KeptPassesCommute(content: string, a: string, keepA: bool, b: string, keepB: bool)
    requires a != b && (keepA || keepB)
    ensures StripText(StripText(content, a, keepA), b, keepB) == StripText(StripText(content, b, keepB), a, keepA)
  {
    KeptAgrees(Split(content, '\n'), a, keepA, b, keepB, false, false, false, false);
    AgreeingPasses(content, a, keepA, b, keepB);
  }

  /** Well-formed blocks of two tags that do not cross can be stripped in either order, whichever
      of them are kept. */
  lemma PassesCommute(content: string, a: string, keepA: bool, b: string, keepB: bool)
    requires a != b && Nested(a, b, Outside, Split(content, '\n'))
    ensures StripText(StripText(content, a, keepA), b, keepB) == StripText(StripText(content, b, keepB), a, keepA)
  {
    NestedAgrees(Split(content, '\n'), a, keepA, b, keepB, Outside);
    AgreeingPasses(content, a, keepA, b, keepB);
  }

  // ----- the exact condition, whatever the plain lines say

  /** The same markers in the same places. */
  ghost predicate SameMarkers(lines: seq<string>, other: seq<string>, a: string, b: string) {
    && |lines| == |other|
    && forall i :: 0 <= i < |lines| ==>
         if IsPlain(a, b, lines[i]) then IsPlain(a, b, other[i]) else other[i] == lines[i]
  }

  lemma {:induction false} SameAgree(lines: seq<string>, other: seq<string>,
                                     a: string, keepA: bool, b: string, keepB: bool,
                                     insideA: bool, seenB: bool, insideB: bool, seenA: bool)
    requires SameMarkers(lines, other, a, b)
    ensures Agree(lines, a, keepA, b, keepB, insideA, seenB, insideB, seenA) <==>
            Agree(other, a, keepA, b, keepB, insideA, seenB, insideB, seenA)
    decreases |lines|
  {
    if lines != [] {
      var line := lines[0];
      assert SameMarkers(lines[1..], other[1..], a, b);
      SameAgree(lines[1..], other[1..], a, keepA, b, keepB, Flag(a, insideA, line),
                SeenFlag(b, keepA, insideA, seenB, line), Flag(b, insideB, line),
                SeenFlag(a, keepB, insideB, seenA, line));
    }
  }

  /** A line of k plus one letters. */
  function Letters(k: nat): string {
    seq(k + 1, _ => 'x')
  }

  lemma LettersPlain(k: nat, tag: string)
    ensures !IsMarker(tag, Letters(k))
  {
    assert Letters(k)[0] == 'x' && Letters(k)[k] == 'x';
    assert ("# BEGIN_" + tag)[0] == '#' && ("# END_" + tag)[0] == '#';
  }

  /** The lines with their plain ones made all different. */
  function Lettered(lines: seq<string>, a: string, b: string): seq<string> {
    seq(|lines|, i requires 0 <= i < |lines| => if IsPlain(a, b, lines[i]) then Letters(i) else lines[i])
  }

  lemma LetteredDistinct(lines: seq<string>, a: string, b: string)
    requires forall i :: 0 <= i < |lines| ==> '\n' !in lines[i]
    ensures SameMarkers(lines, Lettered(lines, a, b), a, b) && PlainDistinct(Lettered(lines, a, b), a, b)
    ensures forall i :: 0 <= i < |lines| ==> '\n' !in Lettered(lines, a, b)[i] && Lettered(lines, a, b)[i] != ""
  {
    forall i | 0 <= i < |lines|
      ensures IsPlain(a, b, Letters(i)) && (!IsPlain(a, b, lines[i]) ==> lines[i] != "")
    {
      LettersPlain(i, a);
      LettersPlain(i, b);
      EmptyIsNoMarker(a);
      EmptyIsNoMarker(b);
    }
    forall i, j | 0 <= i < j < |lines| && IsPlain(a, b, Lettered(lines, a, b)[i])
      ensures Lettered(lines, a, b)[i] != Lettered(lines, a, b)[j]
    {
      assert |Letters(i)| == i + 1 && |Letters(j)| == j + 1;
    }
  }

  /** Different lists of non-empty lines make different texts. */
  lemma JoinTells(p: seq<string>, q: seq<string>)
    requires forall i :: 0 <= i < |p| ==> '\n' !in p[i] && p[i] != ""
    requires forall i :: 0 <= i < |q| ==> '\n' !in q[i] && q[i] != ""
    requires Join(p, '\n') == Join(q, '\n')
    ensures p == q
  {
    assert Split("", '\n') == [""];
    if p != [] { SplitJoin(p, '\n'); }
    if q != [] { SplitJoin(q, '\n'); }
  }

  ghost predicate Commute(content: string, a: string, keepA: bool, b: string, keepB: bool) {
    StripText(StripText(content, a, keepA), b, keepB) == StripText(StripText(content, b, keepB), a, keepA)
  }

  /** A text of different non-empty plain lines commutes only when the orders decide alike. */
  lemma CommuteDecides(content: string, a: string, keepA: bool, b: string, keepB: bool)
    requires a != b && PlainDistinct(Split(content, '\n'), a, b) && Commute(content, a, keepA, b, keepB)
    requires forall i :: 0 <= i < |Split(content, '\n')| ==> Split(content, '\n')[i] != ""
    ensures Agree(Split(content, '\n'), a, keepA, b, keepB, false, false, false, false)
  {
    var lines := Split(content, '\n');
    var p := Pass(Pass(lines, a, keepA, false), b, keepB, false);
    var q := Pass(Pass(lines, b, keepB, false), a, keepA, false);
    StripAgain(content, a, keepA, b, keepB);
    StripAgain(content, b, keepB, a, keepA);
    SplitLines(content);
    PassesWithin(lines, a, keepA, b, keepB);
    PassesWithin(lines, b, keepB, a, keepA);
    JoinTells(p, q);
    LinesCommuteIff(lines, a, keepA, b, keepB);
  }

  lemma PassesWithin(lines: seq<string>, a: string, keepA: bool, b: string, keepB: bool)
    ensures var p := Pass(Pass(lines, a, keepA, false), b, keepB, false);
            forall i :: 0 <= i < |p| ==> p[i] in lines
  {
    PassClean(lines, a, keepA, false);
    PassClean(Pass(lines, a, keepA, false), b, keepB, false);
  }

  /** The order of two passes never matters for texts with these markers, whatever their plain lines,
      exactly when both orders decide alike at every plain line of this one. */
  lemma CommuteIff(content: string, a: string, keepA: bool, b: string, keepB: bool)
    requires a != b
    ensures (forall other :: SameMarkers(Split(content, '\n'), Split(other, '\n'), a, b) ==>
               Commute(other, a, keepA, b, keepB)) <==>
            Agree(Split(content, '\n'), a, keepA, b, keepB, false, false, false, false)
  {
    var lines := Split(content, '\n');
    if Agree(lines, a, keepA, b, keepB, false, false, false, false) {
      forall other | SameMarkers(lines, Split(other, '\n'), a, b)
        ensures Commute(other, a, keepA, b, keepB)
      {
        SameAgree(lines, Split(other, '\n'), a, keepA, b, keepB, false, false, false, false);
        AgreeingPasses(other, a, keepA, b, keepB);
      }
    } else {
      var different := LetteredText(content, a, b);
      if Commute(different, a, keepA, b, keepB) {
        CommuteDecides(different, a, keepA, b, keepB);
        SameAgree(lines, Split(different, '\n'), a, keepA, b, keepB, false, false, false, false);
        assert false;
      }
    }
  }

  /** A text with the same markers whose plain lines are different and not empty. */
  lemma LetteredText(content: string, a: string, b: string) returns (other: string)
    ensures SameMarkers(Split(content, '\n'), Split(other, '\n'), a, b) && PlainDistinct(Split(other, '\n'), a, b)
    ensures forall i :: 0 <= i < |Split(other, '\n')| ==> Split(other, '\n')[i] != ""
  {
    var lines := Split(content, '\n');
    SplitLines(content);
    LetteredDistinct(lines, a, b);
    other := Join(Lettered(lines, a, b), '\n');
    SplitJoin(Lettered(lines, a, b), '\n');
  }

  /** A second pass for the same tag changes nothing. */
  lemma StripTwice(content: string, tag: string, keep: bool, again: bool)
    ensures StripText(StripText(content, tag, keep), tag, again) == StripText(content, tag, keep)
  {
    var lines := Split(content, '\n');
    StripAgain(content, tag, keep, tag, again);
    PassClean(lines, tag, keep, false);
    PassNothing(Pass(lines, tag, keep, false), tag, again);
  }

  /** An example with crossing blocks, both dropped: the order decides whether the line x stays. */
  lemma CrossingMatters(a: string, beginA: string, endA: string, b: string, beginB: string, endB: string, x: string)
    requires a != b && IsBegin(a, beginA) && IsEnd(a, endA) && IsBegin(b, beginB) && IsEnd(b, endB)
    requires !IsMarker(a, x) && !IsMarker(b, x)
    ensures var lines := [beginA] + ([beginB] + ([endA] + ([x] + ([endB] + []))));
            && Pass(Pass(lines, a, false, false), b, false, false) == [x]
            && Pass(Pass(lines, b, false, false), a, false, false) == []
  {
    DifferentMarkers(a, b, beginA);
    DifferentMarkers(a, b, endA);
    DifferentMarkers(a, b, beginB);
    DifferentMarkers(a, b, endB);
    var l5: seq<string> := [];
    var l4 := [endB] + l5;
    var l3 := [x] + l4;
    var l2 := [endA] + l3;
    var l1 := [beginB] + l2;
    PassCons(endB, l5, a, false, false);
    PassCons(x, l4, a, false, false);
    PassCons(endA, l3, a, false, true);
    PassCons(beginB, l2, a, false, true);
    PassCons(beginA, l1, a, false, false);
    assert Pass([beginA] + l1, a, false, false) == [x] + [endB];
    PassCons(x, [endB], b, false, false);
    PassCons(endB, [], b, false, true);
    PassCons(endB, [], b, false, false);
    assert [endB] == [endB] + [];
    PassCons(endB, l5, b, false, true);
    PassCons(x, l4, b, false, true);
    PassCons(endA, l3, b, false, true);
    PassCons(beginB, l2, b, false, false);
    PassCons(beginA, l1, b, false, false);
    assert Pass([beginA] + l1, b, false, false) == [beginA] + [];
    PassCons(beginA, [], a, false, false);
  }
}
