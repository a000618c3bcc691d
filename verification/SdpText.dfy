/** Splitting and number printing by hand, as the SDP code does it. */
module SdpText {

  predicate IsBlank(c: char) {
    c == ' ' || c == '\t'
  }

  predicate IsNewline(c: char) {
    c == '\n'
  }

  predicate IsSlash(c: char) {
    c == '/'
  }

  /** The pieces of s between separators; always at least one. */
  function Pieces(s: string, isSep: char -> bool): (ps: seq<string>)
    ensures |ps| >= 1
  {
    if s == "" then [""]
    else
      ExtendPieces(Pieces(s[..|s| - 1], isSep), s[|s| - 1], isSep)
  }

  /** A separator starts a new piece; any other character extends the last one. */
  function ExtendPieces(ps: seq<string>, c: char, isSep: char -> bool): (qs: seq<string>)
    requires ps != []
    ensures |qs| >= 1
  {
    if isSep(c) then ps + [""] else ps[..|ps| - 1] + [ps[|ps| - 1] + [c]]
  }

  lemma ExtendConcat(ps: seq<string>, qs: seq<string>, c: char, isSep: char -> bool)
    requires qs != []
    ensures ExtendPieces(ps + qs, c, isSep) == ps + ExtendPieces(qs, c, isSep)
  {
    assert (ps + qs)[..|ps + qs| - 1] == ps + qs[..|qs| - 1];
    assert (ps + qs)[|ps + qs| - 1] == qs[|qs| - 1];
  }

  function NonEmpty(ps: seq<string>): seq<string> {
    if ps == [] then []
    else NonEmpty(ps[..|ps| - 1]) + (if ps[|ps| - 1] == "" then [] else [ps[|ps| - 1]])
  }

  /** Drops one trailing carriage return. */
  function StripCR(s: string): string {
    if s != "" && s[|s| - 1] == '\r' then s[..|s| - 1] else s
  }

  function StripAll(ps: seq<string>): (qs: seq<string>)
    ensures |qs| == |ps|
  {
    seq(|ps|, i requires 0 <= i < |ps| => StripCR(ps[i]))
  }

  function SplitLines(s: string): seq<string> {
    NonEmpty(StripAll(Pieces(s, IsNewline)))
  }

  function SplitFields(s: string): seq<string> {
    NonEmpty(Pieces(s, IsBlank))
  }

  /** splitBy(s, "/"). */
  function SplitSlash(s: string): seq<string> {
    Pieces(s, IsSlash)
  }

  /** Position of the first c, or -1. */
  function IndexOf(s: string, c: char): (i: int)
    ensures -1 <= i < |s|
    ensures i >= 0 ==> s[i] == c && c !in s[..i]
    ensures i == -1 <==> c !in s
  {
    if s == "" then -1
    else if s[0] == c then 0
    else
      var i := IndexOf(s[1..], c);
      assert s == [s[0]] + s[1..];
      if i == -1 then -1
      else
        assert s[..i + 1] == [s[0]] + s[1..][..i];
        i + 1
  }

  ghost predicate Without(s: string, isSep: char -> bool) {
    forall i :: 0 <= i < |s| ==> !isSep(s[i])
  }

  // ---- Splitting undoes joining

  lemma {:induction false} PiecesOfOne(s: string, isSep: char -> bool)
    requires Without(s, isSep)
    ensures Pieces(s, isSep) == [s]
  {
    if s != "" {
      PiecesOfOne(s[..|s| - 1], isSep);
      assert s == s[..|s| - 1] + [s[|s| - 1]];
    }
  }

  lemma PiecesSnoc(s: string, c: char, isSep: char -> bool)
    ensures Pieces(s + [c], isSep) == ExtendPieces(Pieces(s, isSep), c, isSep)
  {
    assert (s + [c])[..|s|] == s;
  }

  lemma {:induction false} PiecesOfJoin(a: string, c: char, b: string, isSep: char -> bool)
    requires isSep(c)
    ensures Pieces(a + [c] + b, isSep) == Pieces(a, isSep) + Pieces(b, isSep)
    decreases |b|
  {
    hide Pieces;
    if b == "" {
      assert a + [c] + b == a + [c];
      PiecesSnoc(a, c, isSep);
      PiecesOfOne(b, isSep);
    } else {
      hide ExtendPieces;
      var (b', d) := (b[..|b| - 1], b[|b| - 1]);
      assert b == b' + [d];
      assert a + [c] + b == (a + [c] + b') + [d];
      PiecesOfJoin(a, c, b', isSep);
      PiecesSnoc(a + [c] + b', d, isSep);
      PiecesSnoc(b', d, isSep);
      ExtendConcat(Pieces(a, isSep), Pieces(b', isSep), d, isSep);
    }
  }

  lemma {:induction false} NonEmptyConcat(ps: seq<string>, qs: seq<string>)
    ensures NonEmpty(ps + qs) == NonEmpty(ps) + NonEmpty(qs)
    decreases |qs|
  {
    if qs == [] {
      assert ps + qs == ps;
    } else {
      var n := |qs| - 1;
      assert (ps + qs)[..|ps + qs| - 1] == ps + qs[..n];
      NonEmptyConcat(ps, qs[..n]);
    }
  }

  lemma NonEmptyOfOne(s: string)
    ensures NonEmpty([s]) == if s == "" then [] else [s]
  {
    assert [s][..0] == [];
  }

  lemma FieldsOfJoin(a: string, c: char, b: string)
    requires IsBlank(c)
    ensures SplitFields(a + [c] + b) == SplitFields(a) + SplitFields(b)
  {
    PiecesOfJoin(a, c, b, IsBlank);
    NonEmptyConcat(Pieces(a, IsBlank), Pieces(b, IsBlank));
  }

  lemma FieldsOfToken(s: string)
    requires Without(s, IsBlank)
    ensures SplitFields(s) == if s == "" then [] else [s]
  {
    PiecesOfOne(s, IsBlank);
    NonEmptyOfOne(s);
  }

  lemma LinesOfJoin(a: string, b: string)
    ensures SplitLines(a + "\n" + b) == SplitLines(a) + SplitLines(b)
  {
    PiecesOfJoin(a, '\n', b, IsNewline);
    var (ps, qs) := (Pieces(a, IsNewline), Pieces(b, IsNewline));
    assert StripAll(ps + qs) == StripAll(ps) + StripAll(qs);
    NonEmptyConcat(StripAll(ps), StripAll(qs));
  }

  /** Lines each ended by CR LF. */
  function Render(lines: seq<string>): string {
    if lines == [] then "" else lines[0] + "\r\n" + Render(lines[1..])
  }

  lemma {:induction false} RenderConcat(a: seq<string>, b: seq<string>)
    ensures Render(a + b) == Render(a) + Render(b)
  {
    if a == [] {
      assert a + b == b;
    } else {
      assert (a + b)[1..] == a[1..] + b;
      RenderConcat(a[1..], b);
    }
  }

  ghost predicate IsLine(s: string) {
    s != "" && Without(s, IsNewline)
  }

  lemma LineOfOne(l: string)
    requires IsLine(l)
    ensures SplitLines(l + "\r") == [l]
  {
    hide Pieces;
    PiecesOfOne(l + "\r", IsNewline);
    assert StripAll([l + "\r"]) == [l];
    NonEmptyOfOne(l);
  }

  lemma LinesOfNothing()
    ensures SplitLines("") == []
  {
    assert Pieces("", IsNewline) == [""];
    assert StripAll([""]) == [""];
    NonEmptyOfOne("");
  }

  /** Splitting rendered lines gives the lines back, even lines that end in a carriage return. */
  lemma {:induction false} SplitRender(lines: seq<string>)
    requires forall i :: 0 <= i < |lines| ==> IsLine(lines[i])
    ensures SplitLines(Render(lines)) == lines
  {
    hide SplitLines, IsLine;
    if lines == [] {
      LinesOfNothing();
    } else {
      var l, rest := lines[0], Render(lines[1..]);
      SplitRender(lines[1..]);
      assert Render(lines) == (l + "\r") + "\n" + rest;
      LinesOfJoin(l + "\r", rest);
      LineOfOne(l);
    }
  }

  /** join(splitBy(s, "/"), "/") == s. */
  function Join(ps: seq<string>, c: char): string
    requires ps != []
  {
    if |ps| == 1 then ps[0] else Join(ps[..|ps| - 1], c) + [c] + ps[|ps| - 1]
  }

  lemma {:induction false} JoinOfSplit(s: string)
    ensures Join(SplitSlash(s), '/') == s
    ensures forall i :: 0 <= i < |SplitSlash(s)| ==> Without(SplitSlash(s)[i], IsSlash)
  {
    if s != "" {
      var n := |s| - 1;
      JoinOfSplit(s[..n]);
      var (ps, qs) := (SplitSlash(s[..n]), SplitSlash(s));
      if IsSlash(s[n]) {
        assert qs[..|ps|] == ps;
      } else {
        assert qs[..|ps| - 1] == ps[..|ps| - 1];
      }
    }
  }

  // ---- What pieces and fields look like

  lemma {:induction false} PiecesClean(s: string, isSep: char -> bool, bad: char -> bool)
    requires Without(s, bad)
    ensures forall i :: 0 <= i < |Pieces(s, isSep)| ==>
              Without(Pieces(s, isSep)[i], isSep) && Without(Pieces(s, isSep)[i], bad)
  {
    if s != "" {
      var n := |s| - 1;
      PiecesClean(s[..n], isSep, bad);
    }
  }

  lemma {:induction false} NonEmptyFrom(ps: seq<string>)
    ensures forall f <- NonEmpty(ps) :: f != "" && f in ps
  {
    if ps != [] {
      NonEmptyFrom(ps[..|ps| - 1]);
      assert ps == ps[..|ps| - 1] + [ps[|ps| - 1]];
    }
  }

  /** Fields are non-empty and blank-free, and no character appears in them that is not in s. */
  lemma FieldsClean(s: string, bad: char -> bool)
    requires Without(s, bad)
    ensures forall f <- SplitFields(s) :: f != "" && Without(f, IsBlank) && Without(f, bad)
  {
    PiecesClean(s, IsBlank, bad);
    NonEmptyFrom(Pieces(s, IsBlank));
  }

  lemma LinesClean(s: string)
    ensures forall l <- SplitLines(s) :: Without(l, IsNewline)
  {
    PiecesClean(s, IsNewline, Never);
    NonEmptyFrom(StripAll(Pieces(s, IsNewline)));
  }

  predicate Never(c: char) {
    false
  }

  lemma {:induction false} IndexOfFirst(a: string, c: char, b: string)
    requires c !in a
    ensures IndexOf(a + [c] + b, c) == |a|
  {
    if a == "" {
      assert a + [c] + b == [c] + b;
    } else {
      assert a == [a[0]] + a[1..];
      assert (a + [c] + b)[1..] == a[1..] + [c] + b;
      IndexOfFirst(a[1..], c, b);
    }
  }

  ghost predicate HasField(s: string) {
    exists i :: 0 <= i < |s| && !IsBlank(s[i])
  }

  /** How one more character changes the fields. */
  lemma FieldsSnoc(s: string, c: char)
    ensures var (ps, fs, gs) := (Pieces(s, IsBlank), SplitFields(s), SplitFields(s + [c]));
            var last := ps[|ps| - 1];
            && (IsBlank(c) ==> gs == fs)
            && (!IsBlank(c) && last == "" ==> gs == fs + [[c]])
            && (!IsBlank(c) && last != "" ==> |fs| >= 1 && fs[|fs| - 1] == last && gs == fs[..|fs| - 1] + [last + [c]])
  {
    hide Pieces, NonEmpty;
    var ps := Pieces(s, IsBlank);
    var last := ps[|ps| - 1];
    PiecesSnoc(s, c, IsBlank);
    assert ps == ps[..|ps| - 1] + [last];
    NonEmptyConcat(ps[..|ps| - 1], [last]);
    NonEmptyOfOne(last);
    if IsBlank(c) {
      NonEmptyConcat(ps, [""]);
      NonEmptyOfOne("");
    } else {
      NonEmptyConcat(ps[..|ps| - 1], [last + [c]]);
      NonEmptyOfOne(last + [c]);
      assert last == "" ==> last + [c] == [c];
    }
  }

  /** The first field is no longer than the text, and shorter once a blank has ended it. */
  lemma {:induction false} FirstFieldFits(s: string)
    requires SplitFields(s) != []
    ensures |SplitFields(s)[0]| <= |s|
    ensures Pieces(s, IsBlank)[|Pieces(s, IsBlank)| - 1] == "" ==> |SplitFields(s)[0]| < |s|
  {
    if s == "" {
      FieldsOfToken(s);
    } else {
      var (s', c) := (s[..|s| - 1], s[|s| - 1]);
      assert s == s' + [c];
      FieldsSnoc(s', c);
      PiecesSnoc(s', c, IsBlank);
      if SplitFields(s') != [] {
        FirstFieldFits(s');
      }
    }
  }

  /** After the first field and one more character there is still a field, if there were two. */
  lemma {:induction false} RestHasField(s: string)
    requires |SplitFields(s)| >= 2
    ensures |SplitFields(s)[0]| + 1 <= |s|
    ensures HasField(s[|SplitFields(s)[0]| + 1..])
  {
    if s == "" {
      FieldsOfToken(s);
    } else {
      var (s', c) := (s[..|s| - 1], s[|s| - 1]);
      assert s == s' + [c];
      FieldsSnoc(s', c);
      var k := |SplitFields(s)[0]| + 1;
      if |SplitFields(s')| >= 2 {
        RestHasField(s');
        var i :| 0 <= i < |s'[k..]| && !IsBlank(s'[k..][i]);
        assert s[k..][i] == s'[k..][i];
      } else {
        FirstFieldFits(s');
        assert s[k..][|s'| - k] == c;
      }
    }
  }

  lemma {:induction false} HasFieldSplits(s: string)
    ensures HasField(s) ==> SplitFields(s) != []
    ensures HasField(s) <== SplitFields(s) != []
  {
    if s == "" {
      FieldsOfToken(s);
    } else {
      var (s', c) := (s[..|s| - 1], s[|s| - 1]);
      assert s == s' + [c];
      HasFieldSplits(s');
      FieldsSnoc(s', c);
      if HasField(s') {
        var i :| 0 <= i < |s'| && !IsBlank(s'[i]);
        assert s[i] == s'[i];
      }
    }
  }
}

/** Decimal numbers. */
module SdpNumbers {

  const TWO63 := 0x8000_0000_0000_0000
  const TWO64 := 0x1_0000_0000_0000_0000

  /** Two's-complement wrap-around of a 64-bit int. */
  function Wrap64(x: int): int {
    (x + TWO63) % TWO64 - TWO63
  }

  predicate IsDigit(c: char) {
    '0' <= c <= '9'
  }

  function DigitValue(c: char): int
    requires IsDigit(c)
  {
    c as int - '0' as int
  }

  function Digit(d: int): (c: char)
    requires 0 <= d < 10
    ensures IsDigit(c) && DigitValue(c) == d
  {
    '0' + d as char
  }

  predicate AllDigits(s: string) {
    forall i :: 0 <= i < |s| ==> IsDigit(s[i])
  }

  /** parseInt from a running result: digits up to the first other character. */
  function ParseFrom(acc: int, s: string): int
    decreases |s|
  {
    if s == "" || !IsDigit(s[0]) then acc
    else ParseFrom(Wrap64(acc * 10 + DigitValue(s[0])), s[1..])
  }

  function ParseInt(s: string): int {
    ParseFrom(0, s)
  }

  /** intToString: nothing is printed for a negative number. */
  function IntToString(n: int): (s: string)
    ensures AllDigits(s) && (n >= 0 <==> s != "")
    decreases if n < 0 then 0 else n
  {
    if n < 0 then "" else if n < 10 then [Digit(n)] else IntToString(n / 10) + [Digit(n % 10)]
  }

  lemma WrapSmall(x: int)
    requires 0 <= x < TWO63
    ensures Wrap64(x) == x
  {}

  lemma {:induction false} ParseSnoc(acc: int, s: string, c: char)
    requires AllDigits(s) && IsDigit(c)
    ensures ParseFrom(acc, s + [c]) == Wrap64(ParseFrom(acc, s) * 10 + DigitValue(c))
    decreases |s|
  {
    hide Wrap64;
    if s == "" {
      assert s + [c] == [c] && [c][1..] == "";
    } else {
      assert (s + [c])[1..] == s[1..] + [c];
      ParseSnoc(Wrap64(acc * 10 + DigitValue(s[0])), s[1..], c);
    }
  }

  /** Parsing a printed non-negative 64-bit number gives it back. */
  lemma {:induction false} ParsePrinted(n: int)
    requires 0 <= n < TWO63
    ensures ParseInt(IntToString(n)) == n
    decreases n
  {
    hide Wrap64;
    WrapSmall(n);
    if n < 10 {
      assert "" + [Digit(n)] == [Digit(n)];
      ParseSnoc(0, "", Digit(n));
    } else {
      assert n / 10 * 10 + n % 10 == n;
      ParsePrinted(n / 10);
      ParseSnoc(0, IntToString(n / 10), Digit(n % 10));
    }
  }
}
