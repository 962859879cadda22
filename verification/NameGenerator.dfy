/** Turning a user's name into a DNS label, on ASCII strings. A label has at most 63
    characters (section 2.3.4 of RFC 1035). */
module NameGenerator {
  import opened Options
  import opened Sequences
  import opened Texts

  const MAX_LABEL := 63

  /** The last place in a label where a hyphen can stand. */
  const LAST_HYPHEN := MAX_LABEL - 2

  predicate IsLower(c: char) {
    'a' <= c <= 'z'
  }

  predicate IsNameChar(c: char) {
    IsLower(c) || IsDigit(c)
  }

  ghost predicate NoDouble(s: string) {
    forall i, j :: 0 <= i < j < |s| && j == i + 1 ==> !(s[i] == '-' && s[j] == '-')
  }

  predicate IsValidName(name: string) {
    && 1 <= |name| <= MAX_LABEL
    && name[0] != '-' && name[|name| - 1] != '-'
    && !HasDouble(name)
    && forall i :: 0 <= i < |name| ==> IsNameChar(name[i]) || name[i] == '-'
  }

  /** '--' in s */
  predicate HasDouble(s: string)
    ensures HasDouble(s) <==> !NoDouble(s)
  {
    exists i, j :: 0 <= i < |s| && 0 <= j < |s| && j == i + 1 && s[i] == '-' && s[j] == '-'
  }

  lemma LetterAt(k: nat)
    requires k < 26
    ensures "abcdefghijklmnopqrstuvwxyz"[k] as int == 'a' as int + k
  {
  }

  lemma LettersAre(c: char)
    ensures IsLower(c) <==> c in "abcdefghijklmnopqrstuvwxyz"
  {
    var letters := "abcdefghijklmnopqrstuvwxyz";
    if IsLower(c) {
      LetterAt(c as int - 'a' as int);
      assert letters[c as int - 'a' as int] == c;
    }
    if c in letters {
      var k :| 0 <= k < |letters| && letters[k] == c;
      LetterAt(k);
    }
  }

  lemma NameCharsAre(c: char)
    ensures IsNameChar(c) <==> c in "abcdefghijklmnopqrstuvwxyz" || c in "0123456789"
  {
    LettersAre(c);
    DigitsAre();
  }

  // ----- the steps of sanitize_name

  function Lower(c: char): char {
    if 'A' <= c <= 'Z' then 'a' + (c - 'A') else c
  }

  /** Capital letters become small, everything else stays. */
  lemma LowerIs(c: char)
    ensures 'A' <= c <= 'Z' ==> Lower(c) == "abcdefghijklmnopqrstuvwxyz"[c as int - 'A' as int]
    ensures !('A' <= c <= 'Z') ==> Lower(c) == c
  {
  }

  /** What one character of the input contributes. */
  function Piece(c: char): string {
    var l := Lower(c);
    if IsNameChar(l) then [l] else if l == ' ' || l == '_' || l == '.' then "-" else ""
  }

  lemma PieceIs(c: char)
    ensures IsNameChar(Lower(c)) ==> Piece(c) == [Lower(c)]
    ensures c in " _." ==> Piece(c) == "-"
    ensures !IsNameChar(Lower(c)) && c !in " _." ==> Piece(c) == ""
  {
    assert " _."[0] == ' ' && " _."[1] == '_' && " _."[2] == '.';
  }

  function Pieces(name: string): string {
    if name == [] then [] else Pieces(name[..|name| - 1]) + Piece(name[|name| - 1])
  }

  /** s.replace('--', '-') */
  function Replace(s: string): (r: string)
    ensures |r| <= |s|
  {
    if |s| >= 2 && s[0] == '-' && s[1] == '-' then ['-'] + Replace(s[2..])
    else if s == [] then []
    else [s[0]] + Replace(s[1..])
  }

  /** Every run of hyphens cut down to one. */
  function Squeeze(s: string): string {
    if |s| >= 2 && s[0] == '-' && s[1] == '-' then Squeeze(s[1..])
    else if s == [] then []
    else [s[0]] + Squeeze(s[1..])
  }

  function RStrip(s: string): (r: string)
    ensures r <= s && (r != [] ==> r[|r| - 1] != '-')
  {
    if s != [] && s[|s| - 1] == '-' then RStrip(s[..|s| - 1]) else s
  }

  function LStrip(s: string): (r: string)
    ensures r != [] ==> r[0] != '-'
  {
    if s != [] && s[0] == '-' then LStrip(s[1..]) else s
  }

  function Shorten(s: string): string {
    if |s| > MAX_LABEL then RStrip(s[..MAX_LABEL]) else s
  }

  function Sanitized(name: string): string {
    Shorten(RStrip(LStrip(Squeeze(Pieces(name)))))
  }

  lemma {:induction false} ReplaceShrinks(s: string)
    requires HasDouble(s)
    ensures |Replace(s)| < |s|
    decreases |s|
  {
    if !(s[0] == '-' && s[1] == '-') {
      var i, j :| 0 <= i < j < |s| && j == i + 1 && s[i] == '-' && s[j] == '-';
      assert s[1..][i - 1] == '-' && s[1..][j - 1] == '-';
      ReplaceShrinks(s[1..]);
    }
  }

  /** Putting a character in front, as far as squeezing goes. */
  lemma SqueezeCons(c: char, s: string)
    ensures Squeeze([c] + s) == if c == '-' && s != [] && s[0] == '-' then Squeeze(s) else [c] + Squeeze(s)
  {
    assert ([c] + s)[1..] == s;
  }

  lemma {:induction false} ReplaceHead(s: string)
    ensures Replace(s) == [] <==> s == []
    ensures s != [] ==> Replace(s)[0] == s[0]
  {
  }

  /** Replacing pairs of hyphens does not change what squeezing gives. */
  lemma {:induction false} ReplaceSqueezes(s: string)
    ensures Squeeze(Replace(s)) == Squeeze(s)
    decreases |s|
  {
    if |s| >= 2 && s[0] == '-' && s[1] == '-' {
      ReplaceSqueezes(s[2..]);
      ReplaceHead(s[2..]);
      SqueezeCons('-', Replace(s[2..]));
      SqueezeCons('-', s[2..]);
      assert s[1..] == ['-'] + s[2..];
    } else if s != [] {
      ReplaceSqueezes(s[1..]);
      ReplaceHead(s[1..]);
      SqueezeCons(s[0], Replace(s[1..]));
      SqueezeCons(s[0], s[1..]);
      assert s == [s[0]] + s[1..];
    }
  }

  lemma {:induction false} SqueezeNothing(s: string)
    requires NoDouble(s)
    ensures Squeeze(s) == s
    decreases |s|
  {
    if s != [] {
      assert NoDouble(s[1..]);
      SqueezeNothing(s[1..]);
      assert s == [s[0]] + s[1..];
    }
  }

  lemma {:induction false} SqueezeNoDouble(s: string)
    ensures NoDouble(Squeeze(s))
    ensures s != [] ==> Squeeze(s) != [] && Squeeze(s)[0] == s[0]
    ensures forall c :: c in Squeeze(s) ==> c in s
    decreases |s|
  {
    if s != [] { SqueezeNoDouble(s[1..]); }
  }

  method SanitizeName(name: string) returns (sanitized: string)
    ensures sanitized == Sanitized(name)
  {
    if name == [] {
      return "";
    }
    sanitized := "";
    for i := 0 to |name|
      invariant sanitized == Pieces(name[..i])
    {
      assert name[..i + 1][..i] == name[..i];
      var c := Lower(name[i]);
      if IsLower(c) || IsDigit(c) {
        sanitized := sanitized + [c];
      } else if c == ' ' || c == '_' || c == '.' {
        sanitized := sanitized + "-";
      }
    }
    assert name[..|name|] == name;
    while HasDouble(sanitized)
      invariant Squeeze(sanitized) == Squeeze(Pieces(name))
      decreases |sanitized|
    {
      ReplaceShrinks(sanitized);
      ReplaceSqueezes(sanitized);
      sanitized := Replace(sanitized);
    }
    SqueezeNothing(sanitized);
    sanitized := RStrip(LStrip(sanitized));
    if |sanitized| > MAX_LABEL {
      sanitized := RStrip(sanitized[..MAX_LABEL]);
    }
  }

  // ----- what comes out

  predicate Plain(s: string) {
    forall i :: 0 <= i < |s| ==> IsNameChar(s[i]) || s[i] == '-'
  }

  lemma {:induction false} PiecesPlain(name: string)
    ensures Plain(Pieces(name))
    decreases |name|
  {
    if name != [] { PiecesPlain(name[..|name| - 1]); }
  }

  lemma PrefixKeeps(s: string, r: string)
    requires Plain(s) && NoDouble(s) && r <= s
    ensures Plain(r) && NoDouble(r)
  {
    assert forall i :: 0 <= i < |r| ==> r[i] == s[i];
  }

  lemma TailKeeps(s: string)
    requires Plain(s) && NoDouble(s) && s != []
    ensures Plain(s[1..]) && NoDouble(s[1..])
  {
    assert forall i :: 0 <= i < |s| - 1 ==> s[1..][i] == s[i + 1];
  }

  lemma {:induction false} LStripKeeps(s: string)
    requires Plain(s) && NoDouble(s)
    ensures Plain(LStrip(s)) && NoDouble(LStrip(s))
    decreases |s|
  {
    if s != [] && s[0] == '-' {
      TailKeeps(s);
      LStripKeeps(s[1..]);
    }
  }

  /** A name that starts and ends with other characters and has no two hyphens together. */
  ghost predicate Trimmed(t: string) {
    NoDouble(t) && (t != [] ==> t[0] != '-' && t[|t| - 1] != '-')
  }

  lemma StripKeeps(s: string)
    requires Plain(s) && NoDouble(s)
    ensures Plain(RStrip(LStrip(s))) && Trimmed(RStrip(LStrip(s)))
  {
    var l := LStrip(s);
    LStripKeeps(s);
    PrefixKeeps(l, RStrip(l));
  }

  lemma ShortenPrefix(t: string)
    ensures Shorten(t) <= t && |Shorten(t)| <= MAX_LABEL
  {
    var r := Shorten(t);
    if |t| > MAX_LABEL { assert t[..MAX_LABEL][..|r|] == t[..|r|]; }
  }

  lemma ShortenValid(t: string)
    requires Plain(t) && Trimmed(t)
    ensures Shorten(t) == "" || IsValidName(Shorten(t))
  {
    ShortenPrefix(t);
    PrefixKeeps(t, Shorten(t));
  }

  lemma SqueezePlain(p: string)
    requires Plain(p)
    ensures Plain(Squeeze(p)) && NoDouble(Squeeze(p))
  {
    SqueezeNoDouble(p);
    forall i | 0 <= i < |Squeeze(p)|
      ensures Squeeze(p)[i] in p
    {
      assert Squeeze(p)[i] in Squeeze(p);
    }
  }

  /** A sanitised name is empty or valid. */
  lemma SanitizedValid(name: string)
    ensures Sanitized(name) == "" || IsValidName(Sanitized(name))
  {
    var p := Pieces(name);
    PiecesPlain(name);
    SqueezePlain(p);
    StripKeeps(Squeeze(p));
    ShortenValid(RStrip(LStrip(Squeeze(p))));
  }

  function Unhyphened(s: string): string {
    if s == [] then [] else Unhyphened(s[..|s| - 1]) + if s[|s| - 1] == '-' then [] else [s[|s| - 1]]
  }

  lemma {:induction false} PiecesUnhyphened(s: string)
    requires Plain(s)
    ensures Pieces(s) == Unhyphened(s) && |Unhyphened(s)| <= |s|
    ensures Hyphenless(Unhyphened(s))
    decreases |s|
  {
    if s != [] { PiecesUnhyphened(s[..|s| - 1]); }
  }

  predicate Hyphenless(s: string) {
    forall i :: 0 <= i < |s| ==> IsNameChar(s[i])
  }

  lemma NothingToStrip(s: string)
    requires s == [] || (s[0] != '-' && s[|s| - 1] != '-')
    ensures RStrip(LStrip(s)) == s
  {
  }

  lemma HyphenlessSqueezed(s: string)
    requires Hyphenless(s)
    ensures Squeeze(s) == s
  {
    assert NoDouble(s);
    SqueezeNothing(s);
  }

  lemma NoHyphens(s: string)
    requires Hyphenless(s) && |s| <= MAX_LABEL
    ensures Shorten(RStrip(LStrip(Squeeze(s)))) == s
  {
    HyphenlessSqueezed(s);
    assert s == [] || (IsNameChar(s[0]) && IsNameChar(s[|s| - 1]));
    NothingToStrip(s);
  }

  /** Sanitising a sanitised name takes its hyphens out, and a third time changes nothing. */
  lemma SanitizedAgain(name: string)
    ensures Sanitized(Sanitized(name)) == Unhyphened(Sanitized(name))
    ensures Sanitized(Sanitized(Sanitized(name))) == Sanitized(Sanitized(name))
  {
    var s := Sanitized(name);
    SanitizedValid(name);
    PiecesUnhyphened(s);
    var u := Unhyphened(s);
    NoHyphens(u);
    PiecesUnhyphened(u);
    UnhyphenedTwice(u);
  }

  lemma {:induction false} UnhyphenedTwice(u: string)
    requires Hyphenless(u)
    ensures Unhyphened(u) == u
    decreases |u|
  {
    if u != [] {
      UnhyphenedTwice(u[..|u| - 1]);
      assert u == u[..|u| - 1] + [u[|u| - 1]];
    }
  }

  // ----- which characters come out

  /** The letters and digits of a name, in lower case. */
  function Kept(name: string): string {
    if name == [] then []
    else Kept(name[..|name| - 1]) + if IsNameChar(Lower(name[|name| - 1])) then [Lower(name[|name| - 1])] else []
  }

  lemma UnhyphenedPush(s: string, c: char)
    ensures Unhyphened(s + [c]) == Unhyphened(s) + if c == '-' then [] else [c]
  {
    assert (s + [c])[..|s|] == s;
  }

  lemma {:induction false} UnhyphenedConcat(a: string, b: string)
    ensures Unhyphened(a + b) == Unhyphened(a) + Unhyphened(b)
    decreases |b|
  {
    if b == [] {
      assert a + b == a;
    } else {
      var init, last := b[..|b| - 1], b[|b| - 1];
      assert b == init + [last];
      UnhyphenedConcat(a, init);
      ConcatAssociates(a, init, [last]);
      UnhyphenedPush(a + init, last);
      UnhyphenedPush(init, last);
      ConcatAssociates(Unhyphened(a), Unhyphened(init), if last == '-' then [] else [last]);
    }
  }

  lemma UnhyphenedCons(c: char, s: string)
    ensures Unhyphened([c] + s) == (if c == '-' then [] else [c]) + Unhyphened(s)
  {
    UnhyphenedConcat([c], s);
    UnhyphenedPush([], c);
    assert [] + [c] == [c];
  }

  lemma PieceUnhyphened(c: char)
    ensures Unhyphened(Piece(c)) == if IsNameChar(Lower(c)) then [Lower(c)] else []
  {
    UnhyphenedPush([], Lower(c));
    UnhyphenedPush([], '-');
    assert [] + [Lower(c)] == [Lower(c)] && [] + ['-'] == "-";
  }

  lemma {:induction false} PiecesKept(name: string)
    ensures Unhyphened(Pieces(name)) == Kept(name)
    decreases |name|
  {
    if name != [] {
      var init, last := name[..|name| - 1], name[|name| - 1];
      PiecesKept(init);
      UnhyphenedConcat(Pieces(init), Piece(last));
      PieceUnhyphened(last);
    }
  }

  lemma {:induction false} SqueezeUnhyphened(s: string)
    ensures Unhyphened(Squeeze(s)) == Unhyphened(s)
    decreases |s|
  {
    if s != [] {
      SqueezeUnhyphened(s[1..]);
      assert s == [s[0]] + s[1..];
      UnhyphenedCons(s[0], s[1..]);
      UnhyphenedCons(s[0], Squeeze(s[1..]));
      SqueezeCons(s[0], s[1..]);
    }
  }

  lemma {:induction false} LStripUnhyphened(s: string)
    ensures Unhyphened(LStrip(s)) == Unhyphened(s)
    decreases |s|
  {
    if s != [] && s[0] == '-' {
      LStripUnhyphened(s[1..]);
      assert s == [s[0]] + s[1..];
      UnhyphenedCons(s[0], s[1..]);
    }
  }

  lemma {:induction false} RStripUnhyphened(s: string)
    ensures Unhyphened(RStrip(s)) == Unhyphened(s)
    decreases |s|
  {
    if s != [] && s[|s| - 1] == '-' { RStripUnhyphened(s[..|s| - 1]); }
  }

  lemma CutLength(t: string)
    requires NoDouble(t) && |t| > 63
    ensures 62 <= |Shorten(t)| <= 63
  {
    var cut := t[..63];
    if cut[62] == '-' {
      assert t[61] != '-' && cut[..62][61] == t[61];
      assert RStrip(cut[..62]) == cut[..62];
    }
  }

  /** Apart from hyphens the result is the letters and digits given, in lower case and in order: all of them
      when the name is not cut, and the first of them when it is. */
  lemma SanitizedKeeps(name: string)
    ensures Unhyphened(Sanitized(name)) <= Kept(name)
    ensures |RStrip(LStrip(Squeeze(Pieces(name))))| <= 63 ==> Unhyphened(Sanitized(name)) == Kept(name)
    ensures |RStrip(LStrip(Squeeze(Pieces(name))))| > 63 ==> 62 <= |Sanitized(name)| <= 63
  {
    var p := Pieces(name);
    var t := RStrip(LStrip(Squeeze(p)));
    PiecesKept(name);
    SqueezeUnhyphened(p);
    LStripUnhyphened(Squeeze(p));
    RStripUnhyphened(LStrip(Squeeze(p)));
    ShortenPrefix(t);
    var r := Shorten(t);
    assert t == r + t[|r|..];
    UnhyphenedConcat(r, t[|r|..]);
    PiecesPlain(name);
    SqueezePlain(p);
    StripKeeps(Squeeze(p));
    if |t| > 63 { CutLength(t); }
  }

  // ----- when a second pass changes nothing

  /** How many characters are not hyphens. */
  function Letters(s: string): nat {
    if s == [] then 0 else Letters(s[..|s| - 1]) + if s[|s| - 1] == '-' then 0 else 1
  }

  lemma LettersPush(s: string, c: char)
    ensures Letters(s + [c]) == Letters(s) + if c == '-' then 0 else 1
  {
    assert (s + [c])[..|s|] == s;
  }

  lemma {:induction false} LettersConcat(a: string, b: string)
    ensures Letters(a + b) == Letters(a) + Letters(b)
    decreases |b|
  {
    if b == [] {
      assert a + b == a;
    } else {
      var init, last := b[..|b| - 1], b[|b| - 1];
      assert b == init + [last];
      LettersConcat(a, init);
      ConcatAssociates(a, init, [last]);
      LettersPush(a + init, last);
      LettersPush(init, last);
    }
  }

  lemma LettersCons(c: char, s: string)
    ensures Letters([c] + s) == Letters(s) + if c == '-' then 0 else 1
  {
    LettersConcat([c], s);
    assert [c][..0] == [];
  }

  /** There is a hyphen with lo to hi other characters before it and at least one after it. */
  predicate Hyphenated(s: string, lo: int, hi: int) {
    s != [] &&
    if s[0] != '-' then Hyphenated(s[1..], lo - 1, hi - 1)
    else (lo <= 0 <= hi && Letters(s[1..]) >= 1) || Hyphenated(s[1..], lo, hi)
  }

  lemma HyphenatedCons(c: char, s: string, lo: int, hi: int)
    ensures Hyphenated([c] + s, lo, hi) <==>
            if c != '-' then Hyphenated(s, lo - 1, hi - 1)
            else (lo <= 0 <= hi && Letters(s) >= 1) || Hyphenated(s, lo, hi)
  {
    assert ([c] + s)[1..] == s;
  }

  ghost predicate HyphenAt(s: string, i: int, lo: int, hi: int) {
    0 <= i < |s| && s[i] == '-' && lo <= Letters(s[..i]) <= hi && Letters(s[i + 1..]) >= 1
  }

  lemma HyphenAtCons(s: string, i: nat, lo: int, hi: int)
    requires s != []
    ensures HyphenAt(s, 0, lo, hi) <==> s[0] == '-' && lo <= 0 <= hi && Letters(s[1..]) >= 1
    ensures HyphenAt(s, i + 1, lo, hi) <==>
            if s[0] == '-' then HyphenAt(s[1..], i, lo, hi) else HyphenAt(s[1..], i, lo - 1, hi - 1)
  {
    if i + 1 < |s| {
      assert s[..i + 1] == [s[0]] + s[1..][..i] && s[i + 2..] == s[1..][i + 1..];
      LettersCons(s[0], s[1..][..i]);
    }
  }

  lemma {:induction false} HyphenatedIff(s: string, lo: int, hi: int)
    ensures Hyphenated(s, lo, hi) <==> exists i :: HyphenAt(s, i, lo, hi)
    decreases |s|
  {
    if s != [] {
      var lo', hi' := if s[0] == '-' then lo else lo - 1, if s[0] == '-' then hi else hi - 1;
      HyphenatedIff(s[1..], lo', hi');
      HyphenAtCons(s, 0, lo, hi);
      if Hyphenated(s, lo, hi) && !HyphenAt(s, 0, lo, hi) {
        var i :| HyphenAt(s[1..], i, lo', hi');
        HyphenAtCons(s, i, lo, hi);
        assert HyphenAt(s, i + 1, lo, hi);
      }
      if i :| HyphenAt(s, i, lo, hi) {
        if i > 0 {
          HyphenAtCons(s, i - 1, lo, hi);
          assert HyphenAt(s[1..], i - 1, lo', hi');
        }
      }
    }
  }

  /** Squeezing keeps it. */
  lemma {:induction false} SqueezeHyphenated(s: string, lo: int, hi: int)
    ensures Letters(Squeeze(s)) == Letters(s)
    ensures Hyphenated(Squeeze(s), lo, hi) <==> Hyphenated(s, lo, hi)
    decreases |s|
  {
    if s != [] {
      var lo', hi' := if s[0] == '-' then lo else lo - 1, if s[0] == '-' then hi else hi - 1;
      SqueezeHyphenated(s[1..], lo', hi');
      assert s == [s[0]] + s[1..];
      LettersCons(s[0], s[1..]);
      SqueezeCons(s[0], s[1..]);
      if s[0] == '-' && |s| >= 2 && s[1] == '-' {
        assert s[1..] == ['-'] + s[2..];
        LettersCons('-', s[2..]);
        HyphenatedCons('-', s[2..], lo, hi);
      } else {
        LettersCons(s[0], Squeeze(s[1..]));
        HyphenatedCons(s[0], Squeeze(s[1..]), lo, hi);
      }
    }
  }

  /** So does stripping hyphens at the ends, when it asks for a character before the hyphen. */
  lemma {:induction false} LStripHyphenated(s: string, lo: int, hi: int)
    requires lo >= 1
    ensures Hyphenated(LStrip(s), lo, hi) <==> Hyphenated(s, lo, hi)
    decreases |s|
  {
    if s != [] && s[0] == '-' { LStripHyphenated(s[1..], lo, hi); }
  }

  lemma {:induction false} HyphenatedPush(s: string, lo: int, hi: int)
    ensures Hyphenated(s + ['-'], lo, hi) <==> Hyphenated(s, lo, hi)
    decreases |s|
  {
    if s == [] {
      assert s + ['-'] == ['-'] + [];
      HyphenatedCons('-', [], lo, hi);
    } else {
      HyphenatedPush(s[1..], if s[0] == '-' then lo else lo - 1, if s[0] == '-' then hi else hi - 1);
      assert s + ['-'] == [s[0]] + (s[1..] + ['-']);
      HyphenatedCons(s[0], s[1..] + ['-'], lo, hi);
      LettersConcat(s[1..], ['-']);
      assert ['-'][..0] == [];
    }
  }

  lemma {:induction false} RStripHyphenated(s: string, lo: int, hi: int)
    ensures Hyphenated(RStrip(s), lo, hi) <==> Hyphenated(s, lo, hi)
    decreases |s|
  {
    if s != [] && s[|s| - 1] == '-' {
      RStripHyphenated(s[..|s| - 1], lo, hi);
      HyphenatedPush(s[..|s| - 1], lo, hi);
      assert s == s[..|s| - 1] + ['-'];
    }
  }

  /** The index of the first hyphen, or the length. */
  function FirstHyphen(s: string): (k: nat)
    ensures k <= |s| && (k < |s| ==> s[k] == '-') && forall i :: 0 <= i < k ==> s[i] != '-'
  {
    if s == [] || s[0] == '-' then 0 else 1 + FirstHyphen(s[1..])
  }

  lemma {:induction false} AllLetters(s: string)
    requires forall i :: 0 <= i < |s| ==> s[i] != '-'
    ensures Letters(s) == |s|
    decreases |s|
  {
    if s != [] { AllLetters(s[..|s| - 1]); }
  }

  lemma SomeLetter(s: string, i: nat)
    requires i < |s| && s[i] != '-'
    ensures Letters(s) >= 1
  {
    assert s == s[..i] + ([s[i]] + s[i + 1..]);
    LettersConcat(s[..i], [s[i]] + s[i + 1..]);
    LettersCons(s[i], s[i + 1..]);
  }

  lemma {:induction false} RStripReaches(s: string, i: nat)
    requires i < |s| && s[i] != '-'
    ensures i < |RStrip(s)|
    decreases |s|
  {
    if s[|s| - 1] == '-' { RStripReaches(s[..|s| - 1], i); }
  }

  lemma ShortenReaches(t: string, i: nat)
    requires i < |t| && i < MAX_LABEL && t[i] != '-'
    ensures i < |Shorten(t)|
  {
    if |t| > MAX_LABEL {
      assert t[..MAX_LABEL][i] == t[i];
      RStripReaches(t[..MAX_LABEL], i);
    }
  }

  lemma AfterHyphen(t: string, k: nat)
    requires Trimmed(t) && k < |t| && t[k] == '-'
    ensures 1 <= k && k + 1 < |t| && t[k + 1] != '-'
  {
    if k + 1 < |t| && t[k + 1] == '-' { assert false; }
  }

  lemma HyphenStays(t: string, k: nat)
    requires Trimmed(t) && k < |t| && t[k] == '-' && k <= LAST_HYPHEN
    ensures '-' in Shorten(t)
  {
    AfterHyphen(t, k);
    ShortenPrefix(t);
    ShortenReaches(t, k + 1);
    assert Shorten(t)[k] == '-';
  }

  lemma HyphenWasEarly(t: string)
    requires Trimmed(t) && '-' in Shorten(t)
    ensures FirstHyphen(t) < |t| && FirstHyphen(t) <= LAST_HYPHEN
  {
    var r := Shorten(t);
    ShortenPrefix(t);
    var i :| 0 <= i < |r| && r[i] == '-';
    assert t[i] == '-' && r[|r| - 1] != '-';
    assert FirstHyphen(t) <= i < |r| - 1;
  }

  lemma FirstIsHyphenAt(t: string, k: nat)
    requires Trimmed(t) && k == FirstHyphen(t) && k < |t| && k <= LAST_HYPHEN
    ensures HyphenAt(t, k, 1, LAST_HYPHEN)
  {
    AllLetters(t[..k]);
    AfterHyphen(t, k);
    SomeLetter(t[k + 1..], 0);
  }

  /** A hyphen comes after at least as many characters as the first one does. */
  lemma HyphenAtBound(t: string, i: nat)
    requires HyphenAt(t, i, 1, LAST_HYPHEN)
    ensures FirstHyphen(t) <= i && FirstHyphen(t) <= LAST_HYPHEN
  {
    var k := FirstHyphen(t);
    AllLetters(t[..k]);
    LettersConcat(t[..k], t[k..i]);
    assert t[..i] == t[..k] + t[k..i];
  }

  /** A trimmed name keeps a hyphen through the cut to 63 characters exactly when there is one between
      characters, after at most 61 of them. */
  lemma ShortenHyphen(t: string)
    requires Trimmed(t)
    ensures '-' in Shorten(t) <==> Hyphenated(t, 1, LAST_HYPHEN)
  {
    HyphenatedIff(t, 1, LAST_HYPHEN);
    if '-' in Shorten(t) {
      HyphenWasEarly(t);
      FirstIsHyphenAt(t, FirstHyphen(t));
    }
    if i :| HyphenAt(t, i, 1, LAST_HYPHEN) {
      HyphenAtBound(t, i);
      HyphenStays(t, FirstHyphen(t));
    }
  }

  // ----- the same on the characters the user gave

  predicate IsSeparator(c: char) {
    c == ' ' || c == '_' || c == '.'
  }

  /** How many characters of a name are kept as they are, but for their case. */
  function NameChars(name: string): nat {
    if name == [] then 0 else NameChars(name[..|name| - 1]) + if IsNameChar(Lower(name[|name| - 1])) then 1 else 0
  }

  lemma {:induction false} PiecesLetters(name: string)
    ensures Letters(Pieces(name)) == NameChars(name)
    decreases |name|
  {
    if name != [] {
      var init, last := name[..|name| - 1], name[|name| - 1];
      PiecesLetters(init);
      LettersConcat(Pieces(init), Piece(last));
      PieceLetters(last);
    }
  }

  lemma PieceLetters(c: char)
    ensures Letters(Piece(c)) == if IsNameChar(Lower(c)) then 1 else 0
  {
    LettersCons(Lower(c), []);
    LettersCons('-', []);
    assert [Lower(c)] + [] == [Lower(c)] && ['-'] + [] == "-";
  }

  lemma PiecesPush(name: string, c: char)
    ensures Pieces(name + [c]) == Pieces(name) + Piece(c)
  {
    assert (name + [c])[..|name|] == name;
  }

  lemma {:induction false} PiecesConcat(a: string, b: string)
    ensures Pieces(a + b) == Pieces(a) + Pieces(b)
    decreases |b|
  {
    if b == [] {
      assert a + b == a;
    } else {
      var init, last := b[..|b| - 1], b[|b| - 1];
      assert b == init + [last];
      PiecesConcat(a, init);
      ConcatAssociates(a, init, [last]);
      PiecesPush(a + init, last);
      PiecesPush(init, last);
      ConcatAssociates(Pieces(a), Pieces(init), Piece(last));
    }
  }

  /** Splitting a name at one character. */
  lemma PiecesAt(name: string, j: nat)
    requires j < |name|
    ensures Pieces(name) == Pieces(name[..j]) + Piece(name[j]) + Pieces(name[j + 1..])
  {
    CutAt(name, j);
    PiecesConcat(name[..j] + [name[j]], name[j + 1..]);
    PiecesPush(name[..j], name[j]);
  }

  lemma CutAt(s: string, j: nat)
    requires j < |s|
    ensures s == (s[..j] + [s[j]]) + s[j + 1..]
  {
  }

  /** The character of the name that a piece comes from. */
  lemma {:induction false} PieceOrigin(name: string, q: nat) returns (j: nat)
    requires q < |Pieces(name)|
    ensures j < |name| && Piece(name[j]) == [Pieces(name)[q]] && |Pieces(name[..j])| == q
    decreases |name|
  {
    var n := |name| - 1;
    if q < |Pieces(name[..n])| {
      j := PieceOrigin(name[..n], q);
      assert name[..n][..j] == name[..j];
    } else {
      j := n;
    }
  }

  /** A separator stands between characters that are kept, after at most 61 of them. */
  ghost predicate Separated(name: string) {
    exists j :: SeparatorAt(name, j)
  }

  ghost predicate SeparatorAt(name: string, j: int) {
    && 0 <= j < |name| && IsSeparator(Lower(name[j]))
    && 1 <= NameChars(name[..j]) <= LAST_HYPHEN && NameChars(name[j + 1..]) >= 1
  }

  lemma SeparatorIsHyphen(name: string, j: nat, q: nat)
    requires j < |name| && Piece(name[j]) == "-" && |Pieces(name[..j])| == q
    ensures SeparatorAt(name, j) <==> HyphenAt(Pieces(name), q, 1, LAST_HYPHEN)
  {
    var p := Pieces(name);
    PiecesAt(name, j);
    assert p[..q] == Pieces(name[..j]) && p[q] == '-' && p[q + 1..] == Pieces(name[j + 1..]);
    PiecesLetters(name[..j]);
    PiecesLetters(name[j + 1..]);
  }

  lemma SeparatedIff(name: string)
    ensures Separated(name) <==> Hyphenated(Pieces(name), 1, LAST_HYPHEN)
  {
    var p := Pieces(name);
    HyphenatedIff(p, 1, LAST_HYPHEN);
    if j :| SeparatorAt(name, j) {
      SeparatorIsHyphen(name, j, |Pieces(name[..j])|);
      assert HyphenAt(p, |Pieces(name[..j])|, 1, LAST_HYPHEN);
    }
    if q :| HyphenAt(p, q, 1, LAST_HYPHEN) {
      var j := PieceOrigin(name, q);
      SeparatorIsHyphen(name, j, q);
      assert SeparatorAt(name, j);
    }
  }

  /** Sanitising leaves a hyphen exactly when such a separator is given. */
  lemma HyphenLeftIff(name: string)
    ensures '-' in Sanitized(name) <==> Separated(name)
  {
    var p := Pieces(name);
    var s := Squeeze(p);
    var t := RStrip(LStrip(s));
    PiecesPlain(name);
    SqueezePlain(p);
    StripKeeps(s);
    ShortenHyphen(t);
    RStripHyphenated(LStrip(s), 1, LAST_HYPHEN);
    LStripHyphenated(s, 1, LAST_HYPHEN);
    SqueezeHyphenated(p, 1, LAST_HYPHEN);
    SeparatedIff(name);
  }

  lemma {:induction false} UnhyphenedSame(s: string)
    ensures |Unhyphened(s)| <= |s|
    ensures Unhyphened(s) == s <==> '-' !in s
    decreases |s|
  {
    if s != [] {
      UnhyphenedSame(s[..|s| - 1]);
      assert s == s[..|s| - 1] + [s[|s| - 1]];
    }
  }

  /** A second pass changes nothing exactly when no separator stands between kept characters, after at
      most 61 of them. */
  lemma SanitizedOnceIff(name: string)
    ensures Sanitized(Sanitized(name)) == Sanitized(name) <==> !Separated(name)
  {
    SanitizedAgain(name);
    UnhyphenedSame(Sanitized(name));
    HyphenLeftIff(name);
  }

  // ----- generate_unique_name

  function Candidate(base: string, i: nat): string {
    base + "-" + Decimal(i)
  }

  lemma CandidateValid(base: string, i: nat)
    requires IsValidName(base) && |Candidate(base, i)| <= MAX_LABEL
    ensures IsValidName(Candidate(base, i))
  {
    var c := Candidate(base, i);
    DecimalDigits(i);
    forall k | 0 <= k < |c| - 1
      ensures !(c[k] == '-' && c[k + 1] == '-')
    {
      assert k > |base| ==> c[k] == Decimal(i)[k - |base| - 1];
      assert k + 1 > |base| ==> c[k + 1] == Decimal(i)[k - |base|];
    }
    assert c[|c| - 1] == Decimal(i)[|Decimal(i)| - 1];
    assert NoDouble(c);
  }

  /** The i-th variation is short enough and not in use. */
  predicate Free(base: string, i: nat, existingNames: seq<string>) {
    var name := base + "-" + Decimal(i);
    |name| <= 63 && name !in existingNames
  }

  /** The i-th variation can be used and none before it can. */
  ghost predicate IsFirstFree(base: string, i: nat, existingNames: seq<string>) {
    2 <= i < 1000 && Free(base, i, existingNames) && forall j :: 2 <= j < i ==> !Free(base, j, existingNames)
  }

  /** There is no name to give: nothing preferred, nothing left of it, or everything taken. */
  predicate NoName(existingNames: seq<string>, preferredName: Option<string>) {
    preferredName.None? ||
    var base := Sanitized(preferredName.value);
    base == "" || (base in existingNames && forall i :: 2 <= i < 1000 ==> !Free(base, i, existingNames))
  }

  /** Numbered variations, the first that is short enough and free. */
  method TryNumbered(base: string, existingNames: seq<string>) returns (r: Option<string>)
    requires IsValidName(base)
    ensures r.Some? ==> IsValidName(r.value) && r.value !in existingNames
    ensures r.Some? ==> exists i :: IsFirstFree(base, i, existingNames) && r.value == base + "-" + Decimal(i)
    ensures r.None? <==> forall i :: 2 <= i < 1000 ==> !Free(base, i, existingNames)
  {
    for i := 2 to 1000
      invariant forall j :: 2 <= j < i ==> !Free(base, j, existingNames)
    {
      var candidate := Candidate(base, i);
      if |candidate| <= MAX_LABEL && candidate !in existingNames {
        CandidateValid(base, i);
        assert IsFirstFree(base, i, existingNames);
        return Some(candidate);
      }
    }
    r := None;
  }

  /** A name not in use: the sanitised one or a numbered variation; None stands for the errors raised. */
  method GenerateUniqueName(existingNames: seq<string>, preferredName: Option<string>) returns (r: Option<string>)
    ensures r.Some? ==> IsValidName(r.value) && r.value !in existingNames
    ensures r.None? <==> NoName(existingNames, preferredName)
    ensures preferredName.Some? ==>
              var base := Sanitized(preferredName.value);
              && (base != "" && base !in existingNames ==> r == Some(base))
              && (r.Some? && base in existingNames ==>
                    exists i :: IsFirstFree(base, i, existingNames) && r.value == base + "-" + Decimal(i))
  {
    if preferredName == None || preferredName.value == "" {
      return None;
    }
    var base := SanitizeName(preferredName.value);
    if base == "" {
      return None;
    }
    SanitizedValid(preferredName.value);
    if base !in existingNames {
      return Some(base);
    }
    r := TryNumbered(base, existingNames);
  }
}
