/**
 * Text operations with the exact semantics of the Java library calls the
 * renderer relies on: StringUtils.repeat, StringUtils.isBlank,
 * String.split("\\r?\\n") and joining lines with a separator.
 */
module JavaText {

  datatype Option<T> = None | Some(value: T)

  /** StringUtils.repeat(String, int): `s` written `n` times, the empty string when `n <= 0`. */
  function Repeat(s: string, n: int): (r: string)
    ensures n <= 0 ==> r == ""
    ensures |s| == 1 ==> r == RepeatChar(s[0], n)
    decreases n
  {
    if n <= 0 then "" else s + Repeat(s, n - 1)
  }

  /** StringUtils.repeat(char, int): `n` copies of `c`, none when `n <= 0`. */
  function RepeatChar(c: char, n: int): (r: string)
    ensures |r| == if n <= 0 then 0 else n
    decreases n
  {
    if n <= 0 then "" else [c] + RepeatChar(c, n - 1)
  }

  /** Every character of a repetition is the repeated one. (Kept apart from RepeatChar's
      contract so that texts built from many repetitions stay cheap to reason about.) */
  lemma {:induction false} RepeatCharAll(c: char, n: int)
    ensures forall i :: 0 <= i < |RepeatChar(c, n)| ==> RepeatChar(c, n)[i] == c
    decreases n
  {
    if n > 0 {
      RepeatCharAll(c, n - 1);
      assert forall i :: 1 <= i < |RepeatChar(c, n)| ==> RepeatChar(c, n)[i] == RepeatChar(c, n - 1)[i - 1];
    }
  }

  /** The characters for which Java's Character.isWhitespace holds, one by one: the Unicode
      space separators except the non-breaking U+00A0, U+2007 and U+202F, the line and
      paragraph separators, and the control characters tab, line feed, U+000B, form feed,
      carriage return and U+001C to U+001F. */
  const JavaWhitespaceChars: set<char> := {
    '\t', '\n', '\U{000B}', '\U{000C}', '\r', '\U{001C}', '\U{001D}', '\U{001E}', '\U{001F}',
    ' ', '\U{1680}', '\U{2000}', '\U{2001}', '\U{2002}', '\U{2003}', '\U{2004}', '\U{2005}',
    '\U{2006}', '\U{2008}', '\U{2009}', '\U{200A}', '\U{2028}', '\U{2029}', '\U{205F}', '\U{3000}'
  }

  /** Character.isWhitespace, written as the ranges of the Unicode table. */
  function IsJavaWhitespace(c: char): (r: bool)
    ensures r <==> c in JavaWhitespaceChars
  {
    c == ' ' || c == '\t' || c == '\n' || c == '\r' || c == '\U{000B}' || c == '\U{000C}'
    || ('\U{001C}' <= c <= '\U{001F}')
    || c == '\U{1680}' || ('\U{2000}' <= c <= '\U{2006}') || ('\U{2008}' <= c <= '\U{200A}')
    || c == '\U{2028}' || c == '\U{2029}' || c == '\U{205F}' || c == '\U{3000}'
  }

  /** StringUtils.isBlank: absent (null), empty, or whitespace only. */
  function IsBlank(s: Option<string>): (r: bool)
    ensures s.None? ==> r
    ensures s == Some("") ==> r
    ensures s.Some? ==> (r <==> forall c :: c in s.value ==> c in JavaWhitespaceChars)
  {
    match s
    case None => true
    case Some(t) => forall i :: 0 <= i < |t| ==> IsJavaWhitespace(t[i])
  }

  /** String.startsWith: the text is the prefix followed by something. */
  function StartsWith(s: string, prefix: string): (r: bool)
    ensures r ==> |prefix| <= |s| && s == prefix + s[|prefix|..]
    ensures forall t :: s == prefix + t ==> r
  {
    |prefix| <= |s| && s[..|prefix|] == prefix
  }

  /** The parts written one after the other with `sep` between consecutive parts. */
  function Join(parts: seq<string>, sep: string): string
    decreases |parts|
  {
    if |parts| == 0 then ""
    else if |parts| == 1 then parts[0]
    else parts[0] + sep + Join(parts[1..], sep)
  }

  /** Appending one more part extends the joined text by the separator and that part;
      this is what a loop that prints part by part relies on. */
  lemma {:induction false} JoinSnoc(parts: seq<string>, sep: string, p: string)
    ensures Join(parts + [p], sep) == if |parts| == 0 then p else Join(parts, sep) + sep + p
    decreases |parts|
  {
    if |parts| > 1 {
      assert (parts + [p])[1..] == parts[1..] + [p];
      JoinSnoc(parts[1..], sep, p);
    } else if |parts| == 1 {
      assert parts + [p] == [parts[0], p];
    }
  }

  /** Appending nothing changes nothing. */
  lemma AppendEmpty(s: string)
    ensures s + "" == s
  {
  }

  /** Concatenation is associative; printing part by part relies on it. */
  lemma AppendAssoc<T>(a: seq<T>, b: seq<T>, c: seq<T>)
    ensures a + (b + c) == a + b + c
  {
  }

  /** Where the three parts of a concatenation sit in it. */
  lemma ThreeParts(a: string, b: string, c: string)
    ensures var s := a + b + c;
      && |s| == |a| + |b| + |c| && s[..|a|] == a && s[|a| + |b|..] == c
      && (forall i :: |a| <= i < |a| + |b| ==> s[i] == b[i - |a|])
  {
    var s := a + b + c;
    assert s[..|a|] == a;
    assert s[|a| + |b|..] == c;
  }

  /** JoinStep behind a prefix already printed, in the grouping that printing part by
      part produces. */
  lemma JoinStepAfter(base: string, parts: seq<string>, sep: string, i: nat)
    requires i < |parts|
    ensures i == 0 ==> base + Join(parts[..1], sep) == base + parts[0]
    ensures i > 0 ==> base + Join(parts[..i + 1], sep) == base + Join(parts[..i], sep) + sep + parts[i]
  {
    JoinStep(parts, sep, i);
    if i > 0 {
      AppendAssoc(base, Join(parts[..i], sep) + sep, parts[i]);
      AppendAssoc(base, Join(parts[..i], sep), sep);
    } else {
      assert Join(parts[..0], sep) == "";
      assert Join(parts[..1], sep) == parts[0];
    }
  }

  /** The join of the first i + 1 parts is the join of the first i, the separator when
      there were any, and part i. */
  lemma JoinStep(parts: seq<string>, sep: string, i: nat)
    requires i < |parts|
    ensures Join(parts[..i + 1], sep) == Join(parts[..i], sep) + (if 0 < i then sep else "") + parts[i]
  {
    assert parts[..i + 1] == parts[..i] + [parts[i]];
    JoinSnoc(parts[..i], sep, parts[i]);
  }

  /** Prepending text to the first part prepends it to the joined text. */
  lemma {:induction false} JoinConsFirst(c: string, parts: seq<string>, sep: string)
    requires |parts| > 0
    ensures Join([c + parts[0]] + parts[1..], sep) == c + Join(parts, sep)
  {
    var q := [c + parts[0]] + parts[1..];
    assert q[1..] == parts[1..];
  }

  /**
   * The pieces of `s` between the matches of the regular expression `\r?\n`, scanning
   * from the left; a carriage return directly before a line feed belongs to the separator.
   * Nothing is dropped here, so a text with k separators has k + 1 pieces.
   */
  function Pieces(s: string): (r: seq<string>)
    ensures |r| >= 1
    ensures forall i :: 0 <= i < |r| ==> '\n' !in r[i]
    decreases |s|
  {
    if |s| == 0 then [""]
    else if s[0] == '\n' then [""] + Pieces(s[1..])
    else if s[0] == '\r' && |s| > 1 && s[1] == '\n' then [""] + Pieces(s[2..])
    else
      var rest := Pieces(s[1..]);
      [[s[0]] + rest[0]] + rest[1..]
  }

  /** Removes the empty strings at the end of a sequence of pieces. */
  function DropTrailingEmpty(p: seq<string>): (r: seq<string>)
    ensures |r| <= |p| && r == p[..|r|]
    ensures |r| > 0 ==> r[|r| - 1] != ""
    ensures forall i :: |r| <= i < |p| ==> p[i] == ""
    decreases |p|
  {
    if |p| > 0 && p[|p| - 1] == "" then DropTrailingEmpty(p[..|p| - 1]) else p
  }

  /**
   * String.split("\\r?\\n") with Java's limit 0: the pieces without the trailing empty
   * ones, except that a text with no separator at all (the empty text included) is
   * returned as its only piece.
   */
  function SplitLines(s: string): (r: seq<string>)
    ensures forall i :: 0 <= i < |r| ==> '\n' !in r[i]
  {
    var p := Pieces(s);
    if |p| == 1 then p else DropTrailingEmpty(p)
  }

  /** A text without a line feed is a single piece, itself. */
  lemma {:induction false} PiecesOfLine(s: string)
    requires '\n' !in s
    ensures Pieces(s) == [s]
    decreases |s|
  {
    if |s| > 0 {
      assert '\n' !in s[1..] by {
        forall i | 0 <= i < |s[1..]| ensures s[1..][i] != '\n' { assert s[1..][i] == s[i + 1]; }
      }
      PiecesOfLine(s[1..]);
      assert [s[0]] + s[1..] == s;
    }
  }

  /** A text that does not end with a line feed has a non-empty last piece. */
  lemma {:induction false} PiecesLastNonEmpty(s: string)
    requires |s| > 0 && s[|s| - 1] != '\n'
    ensures Pieces(s)[|Pieces(s)| - 1] != ""
    decreases |s|
  {
    if s[0] == '\n' {
      PiecesLastNonEmpty(s[1..]);
    } else if s[0] == '\r' && |s| > 1 && s[1] == '\n' {
      PiecesLastNonEmpty(s[2..]);
    } else if |s| > 1 {
      PiecesLastNonEmpty(s[1..]);
    }
  }

  /** Whether a text ends with a carriage return. Such a line, followed by a line feed,
      would have its carriage return read as part of the line end. */
  predicate EndsWithCarriageReturn(s: string)
  {
    |s| > 0 && s[|s| - 1] == '\r'
  }

  /** The text with every CR LF pair written as a single line feed: what joining the pieces
      of the split with line feeds gives back. */
  function UnixLineEnds(s: string): (r: string)
    ensures |r| <= |s|
    ensures '\r' !in s ==> r == s
    decreases |s|
  {
    if |s| == 0 then ""
    else if s[0] == '\r' && |s| > 1 && s[1] == '\n' then "\n" + UnixLineEnds(s[2..])
    else
      assert '\r' !in s ==> '\r' !in s[1..] by {
        forall i | 0 <= i < |s[1..]| ensures s[1..][i] == s[i + 1] { }
      }
      [s[0]] + UnixLineEnds(s[1..])
  }

  /** Joining the pieces with line feeds gives the text back, with its CR LF line ends
      written as line feeds. */
  lemma {:induction false} JoinPieces(s: string)
    ensures Join(Pieces(s), "\n") == UnixLineEnds(s)
    decreases |s|
  {
    if |s| > 0 {
      if s[0] == '\n' {
        JoinPieces(s[1..]);
        assert Pieces(s) == [""] + Pieces(s[1..]);
        assert UnixLineEnds(s) == "\n" + UnixLineEnds(s[1..]);
      } else if s[0] == '\r' && |s| > 1 && s[1] == '\n' {
        JoinPieces(s[2..]);
        assert Pieces(s) == [""] + Pieces(s[2..]);
      } else {
        JoinPieces(s[1..]);
        var rest := Pieces(s[1..]);
        JoinConsFirst([s[0]], rest, "\n");
      }
    }
  }

  /**
   * Conversely, lines without line feeds are exactly the pieces of their join, provided no
   * line before the last ends with a carriage return (it would join the line feed after it).
   */
  lemma {:induction false} PiecesOfJoin(lines: seq<string>)
    requires |lines| > 0
    requires forall i :: 0 <= i < |lines| ==> '\n' !in lines[i]
    requires forall i :: 0 <= i < |lines| - 1 ==> !EndsWithCarriageReturn(lines[i])
    ensures Pieces(Join(lines, "\n")) == lines
    decreases |lines|
  {
    if |lines| == 1 {
      PiecesOfLine(lines[0]);
    } else {
      assert forall i :: 0 <= i < |lines| - 1 ==> lines[1..][i] == lines[i + 1];
      PiecesOfJoin(lines[1..]);
      PiecesOfLineThen(lines[0], Join(lines[1..], "\n"));
      assert [lines[0]] + lines[1..] == lines;
    }
  }

  /** A line without a line feed, and not ending with a carriage return, followed by a line
      feed contributes exactly one piece. */
  lemma {:induction false} PiecesOfLineThen(line: string, rest: string)
    requires '\n' !in line && !EndsWithCarriageReturn(line)
    ensures Pieces(line + "\n" + rest) == [line] + Pieces(rest)
    decreases |line|
  {
    var s := line + "\n" + rest;
    if |line| == 0 {
      assert s == "\n" + rest;
      assert s[1..] == rest;
    } else {
      assert s[0] == line[0] && s[1] == (line[1..] + "\n")[0];
      assert s[1..] == line[1..] + "\n" + rest;
      assert '\n' !in line[1..] && !EndsWithCarriageReturn(line[1..]) by {
        forall i | 0 <= i < |line[1..]| ensures line[1..][i] == line[i + 1] { }
      }
      PiecesOfLineThen(line[1..], rest);
      assert [line[0]] + line[1..] == line;
    }
  }

  /** A line without a line feed followed by CR LF contributes exactly one piece, whatever
      else the line holds. */
  lemma {:induction false} PiecesOfLineThenCrLf(line: string, rest: string)
    requires '\n' !in line
    ensures Pieces(line + "\r\n" + rest) == [line] + Pieces(rest)
    decreases |line|
  {
    var s := line + "\r\n" + rest;
    if |line| == 0 {
      assert s == "\r\n" + rest;
      assert s[2..] == rest;
    } else {
      assert s[0] == line[0] && s[1] == (line[1..] + "\r\n")[0];
      assert s[1..] == line[1..] + "\r\n" + rest;
      assert '\n' !in line[1..] by {
        forall i | 0 <= i < |line[1..]| ensures line[1..][i] == line[i + 1] { }
      }
      PiecesOfLineThenCrLf(line[1..], rest);
      assert [line[0]] + line[1..] == line;
    }
  }

  /**
   * The round trip of the line split: for a text that does not end with a line feed,
   * nothing is lost, and joining the lines with line feeds gives the text back, its CR LF
   * line ends written as line feeds (so a text without carriage returns comes back as is).
   */
  lemma SplitLinesRoundTrip(s: string)
    requires |s| == 0 || s[|s| - 1] != '\n'
    ensures Join(SplitLines(s), "\n") == UnixLineEnds(s)
  {
    var p := Pieces(s);
    JoinPieces(s);
    if |s| > 0 {
      PiecesLastNonEmpty(s);
      assert DropTrailingEmpty(p) == p;
    }
  }

  /** A text made only of line feeds (at least one) splits into no lines at all. */
  lemma {:induction false} SplitOnlyNewlines(n: nat)
    requires n > 0
    ensures SplitLines(Repeat("\n", n)) == []
  {
    PiecesOfNewlines(n);
    var p := Pieces(Repeat("\n", n));
    assert |p| == n + 1;
    assert forall i :: 0 <= i < |p| ==> p[i] == "";
    EmptyPiecesDrop(p);
  }

  lemma {:induction false} PiecesOfNewlines(n: nat)
    ensures |Pieces(Repeat("\n", n))| == n + 1
    ensures forall i :: 0 <= i < n + 1 ==> Pieces(Repeat("\n", n))[i] == ""
    decreases n
  {
    if n > 0 {
      PiecesOfNewlines(n - 1);
      var t := Repeat("\n", n - 1);
      assert Repeat("\n", n) == "\n" + t;
      PiecesAfterNewline(t);
      var rest := Pieces(t);
      assert forall i :: 1 <= i < n + 1 ==> ([""] + rest)[i] == rest[i - 1];
    }
  }

  /** A leading line feed ends an empty first piece. */
  lemma PiecesAfterNewline(t: string)
    ensures Pieces("\n" + t) == [""] + Pieces(t)
  {
    assert ("\n" + t)[1..] == t;
  }

  lemma {:induction false} EmptyPiecesDrop(p: seq<string>)
    requires forall i :: 0 <= i < |p| ==> p[i] == ""
    ensures DropTrailingEmpty(p) == []
  {
  }
}
