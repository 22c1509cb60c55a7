/** The part of the HTTP client that reads a response out of a stream buffer. */
module Client {
  import opened Bytes
  import opened Decimal

  datatype Option<T> = None | Some(value: T)

  datatype Reading =
    | Invalid
    | NotOk(code: int)
    | Ok(lines: seq<string>, rest: string)

  // ---------------------------------------------------------------- formatted input

  predicate IsSpace(c: char) {
    c == ' ' || '\t' <= c <= '\r'
  }

  /** The number of leading characters of s that are white space. */
  function Spaces(s: string): (n: nat)
    ensures n <= |s|
  {
    if s == "" || !IsSpace(s[0]) then 0 else 1 + Spaces(s[1..])
  }

  function WordLength(s: string): (n: nat)
    ensures n <= |s|
  {
    if s == "" || IsSpace(s[0]) then 0 else 1 + WordLength(s[1..])
  }

  function DigitCount(s: string): (n: nat)
    ensures n <= |s| && AllDigits(s[..n])
  {
    if s == "" || !IsDigit(s[0]) then 0
    else
      var n := 1 + DigitCount(s[1..]);
      assert s[..n] == [s[0]] + s[1..][..n - 1];
      n
  }

  /** `stream >> word`; it fails when only white space is left. */
  function ReadWord(s: string): Option<(string, string)> {
    var t := s[Spaces(s)..];
    var n := WordLength(t);
    if n == 0 then None else Some((t[..n], t[n..]))
  }

  const INT_MAX: int := 0x7fff_ffff

  function ReadDigits(negative: bool, u: string): Option<(int, string)> {
    var n := DigitCount(u);
    if n == 0 then None
    else
      var magnitude: int := Value(u[..n]);
      var v := if negative then -magnitude else magnitude;
      if -INT_MAX - 1 <= v <= INT_MAX then Some((v, u[n..])) else None
  }

  /** `stream >> number` for an int: an optional sign and at least one digit, within range. */
  function ReadInt(s: string): Option<(int, string)> {
    ReadSigned(s[Spaces(s)..])
  }

  function ReadSigned(t: string): Option<(int, string)> {
    if t != "" && (t[0] == '-' || t[0] == '+') then ReadDigits(t[0] == '-', t[1..]) else ReadDigits(false, t)
  }

  /** `std::getline`: without a newline the last line is what is left, and nothing left is a failure. */
  function GetLine(s: string): (r: Option<(string, string)>)
    ensures r.Some? ==> |r.value.1| < |s| && '\n' !in r.value.0
  {
    if s == "" then None
    else if '\n' in s then
      var k := IndexOf(s, '\n');
      Some((s[..k], s[k + 1..]))
    else Some((s, ""))
  }

  // ---------------------------------------------------------------- a response

  /** The version word, the status code and what follows the status line. */
  function ReadStatus(s: string): Option<(int, string)> {
    match ReadWord(s)
    case None => None
    case Some((version, s1)) =>
      match ReadInt(s1)
      case None => None
      case Some((code, s2)) =>
        match GetLine(s2)
        case None => None
        case Some((_, s3)) =>
          if "HTTP/" <= version then Some((code, s3)) else None
  }

  /** The lines up to the one that is empty but for its carriage return, and what follows it. */
  function HeaderLines(s: string): (seq<string>, string)
    decreases |s|
  {
    match GetLine(s)
    case None => ([], "")
    case Some((line, rest)) =>
      if line == "\r" then ([], rest)
      else
        var (lines, last) := HeaderLines(rest);
        ([line] + lines, last)
  }

  function Read(s: string): Reading {
    match ReadStatus(s)
    case None => Invalid
    case Some((code, rest)) =>
      if code != 200 then NotOk(code)
      else
        var (lines, last) := HeaderLines(rest);
        Ok(lines, last)
  }

  method ReadResponse(stream: string) returns (r: Reading)
    ensures r == Read(stream)
  {
    var word := ReadWord(stream);
    if word.None? {
      return Invalid;
    }
    var (version, s1) := word.value;
    var number := ReadInt(s1);
    if number.None? {
      return Invalid;
    }
    var (code, s2) := number.value;
    var message := GetLine(s2);
    if message.None? || !("HTTP/" <= version) {
      return Invalid;
    }
    if code != 200 {
      return NotOk(code);
    }
    var lines, rest := ReadHeaders(message.value.1);
    return Ok(lines, rest);
  }

  /** The client's loop over the header lines. */
  method ReadHeaders(stream: string) returns (lines: seq<string>, rest: string)
    ensures (lines, rest) == HeaderLines(stream)
  {
    lines, rest := [], stream;
    assert lines + HeaderLines(rest).0 == HeaderLines(rest).0;
    while true
      invariant HeaderLines(stream) == (lines + HeaderLines(rest).0, HeaderLines(rest).1)
      decreases |rest|
    {
      var header := GetLine(rest);
      if header.None? {
        assert lines + [] == lines;
        return lines, "";
      }
      var (line, after) := header.value;
      if line == "\r" {
        assert lines + [] == lines;
        return lines, after;
      }
      assert lines + ([line] + HeaderLines(after).0) == lines + [line] + HeaderLines(after).0;
      lines, rest := lines + [line], after;
    }
  }

  // ---------------------------------------------------------------- reading back known text

  lemma WordOf(w: string, s: string)
    requires w != "" && (forall k :: 0 <= k < |w| ==> !IsSpace(w[k]))
    requires s != "" && IsSpace(s[0])
    ensures ReadWord(w + s) == Some((w, s))
  {
    WordLengthOf(w, s);
    assert (w + s)[0..] == w + s;
  }

  lemma {:induction false} WordLengthOf(w: string, s: string)
    requires forall k :: 0 <= k < |w| ==> !IsSpace(w[k])
    requires s != "" && IsSpace(s[0])
    ensures WordLength(w + s) == |w|
  {
    if w == "" {
      assert w + s == s;
    } else {
      assert (w + s)[1..] == w[1..] + s;
      WordLengthOf(w[1..], s);
    }
  }

  lemma {:induction false} DigitCountOf(d: string, s: string)
    requires AllDigits(d)
    requires s != "" ==> !IsDigit(s[0])
    ensures DigitCount(d + s) == |d|
  {
    if d == "" {
      assert d + s == s;
    } else {
      assert (d + s)[1..] == d[1..] + s;
      DigitCountOf(d[1..], s);
    }
  }

  lemma IntOf(d: string, s: string)
    requires d != "" && AllDigits(d) && Value(d) <= INT_MAX
    requires s != "" && !IsDigit(s[0])
    ensures ReadInt(" " + d + s) == Some((Value(d), s))
  {
    var t := " " + d + s;
    assert t[1..] == d + s;
    assert Spaces(d + s) == 0 && Spaces(t) == 1;
    DigitCountOf(d, s);
    assert (d + s)[..|d|] == d && (d + s)[|d|..] == s;
  }

  lemma LineOf(line: string, s: string)
    requires '\n' !in line
    ensures GetLine(line + "\n" + s) == Some((line, s))
  {
    var t := line + "\n" + s;
    assert t[|line|] == '\n' && t[..|line|] == line && t[|line| + 1..] == s;
    IndexOfUnique(t, '\n', |line|);
  }

  /** No line that the client logs contains a newline. */
  lemma {:induction false} LinesHaveNoNewline(s: string)
    ensures forall k :: 0 <= k < |HeaderLines(s).0| ==> '\n' !in HeaderLines(s).0[k]
    decreases |s|
  {
    match GetLine(s)
    case None =>
    case Some((line, rest)) =>
      LinesHaveNoNewline(rest);
  }

  // ---------------------------------------------------------------- which streams are responses

  /** The pieces of a status line: white space, the version word, white space, a signed number, the rest. */
  datatype Pieces = Pieces(lead: string, version: string, gap: string, sign: string, digits: string, rest: string)

  ghost predicate AllSpaces(s: string) {
    forall k :: 0 <= k < |s| ==> IsSpace(s[k])
  }

  ghost predicate NoSpaces(s: string) {
    forall k :: 0 <= k < |s| ==> !IsSpace(s[k])
  }

  ghost predicate ArePieces(p: Pieces) {
    && AllSpaces(p.lead)
    && p.version != "" && NoSpaces(p.version)
    && p.gap != "" && AllSpaces(p.gap)
    && p.sign in {"", "+", "-"}
    && p.digits != "" && AllDigits(p.digits)
    && (p.rest != "" ==> !IsDigit(p.rest[0]))
  }

  function AfterVersion(p: Pieces): string {
    p.gap + (p.sign + (p.digits + p.rest))
  }

  function Glued(p: Pieces): string {
    p.lead + (p.version + AfterVersion(p))
  }

  function Number(p: Pieces): int
    requires AllDigits(p.digits)
  {
    var magnitude: int := Value(p.digits);
    if p.sign == "-" then -magnitude else magnitude
  }

  function FirstFive(s: string): string {
    s[..if |s| < 5 then |s| else 5]
  }

  /** The version word announces HTTP, the number is an int, and something follows it. */
  ghost predicate Acceptable(p: Pieces)
    requires AllDigits(p.digits)
  {
    FirstFive(p.version) == "HTTP/" && -0x8000_0000 <= Number(p) < 0x8000_0000 && p.rest != ""
  }

  lemma {:induction false} SpacesOf(w: string, s: string)
    requires AllSpaces(w) && (s != "" ==> !IsSpace(s[0]))
    ensures Spaces(w + s) == |w|
  {
    if w == "" {
      assert w + s == s;
    } else {
      assert (w + s)[1..] == w[1..] + s;
      SpacesOf(w[1..], s);
    }
  }

  lemma VersionIsRead(p: Pieces)
    requires ArePieces(p)
    ensures ReadWord(Glued(p)) == Some((p.version, AfterVersion(p)))
  {
    var t := p.version + AfterVersion(p);
    SpacesOf(p.lead, t);
    assert Glued(p)[|p.lead|..] == t;
    WordLengthOf(p.version, AfterVersion(p));
    assert t[..|p.version|] == p.version && t[|p.version|..] == AfterVersion(p);
  }

  lemma DigitsAreRead(negative: bool, digits: string, rest: string)
    requires digits != "" && AllDigits(digits) && (rest != "" ==> !IsDigit(rest[0]))
    ensures
      var magnitude: int := Value(digits);
      var v := if negative then -magnitude else magnitude;
      ReadDigits(negative, digits + rest) == if -0x8000_0000 <= v < 0x8000_0000 then Some((v, rest)) else None
  {
    DigitCountOf(digits, rest);
    assert (digits + rest)[..|digits|] == digits && (digits + rest)[|digits|..] == rest;
  }

  lemma GapIsSkipped(gap: string, t: string)
    requires AllSpaces(gap) && t != "" && !IsSpace(t[0])
    ensures (gap + t)[Spaces(gap + t)..] == t
  {
    SpacesOf(gap, t);
  }

  lemma SignIsRead(p: Pieces)
    requires ArePieces(p)
    ensures
      var t := p.sign + (p.digits + p.rest);
      && t != "" && !IsSpace(t[0])
      && ReadSigned(t) == if -0x8000_0000 <= Number(p) < 0x8000_0000 then Some((Number(p), p.rest)) else None
  {
    var u := p.digits + p.rest;
    assert u[0] == p.digits[0] && IsDigit(u[0]);
    DigitsAreRead(p.sign == "-", p.digits, p.rest);
    if p.sign == "" {
      assert p.sign + u == u;
    } else {
      assert (p.sign + u)[0] == p.sign[0] && (p.sign + u)[1..] == u;
    }
  }

  lemma NumberIsRead(p: Pieces)
    requires ArePieces(p)
    ensures ReadInt(AfterVersion(p)) ==
            if -0x8000_0000 <= Number(p) < 0x8000_0000 then Some((Number(p), p.rest)) else None
  {
    SignIsRead(p);
    GapIsSkipped(p.gap, p.sign + (p.digits + p.rest));
  }

  lemma HttpIsPrefix(version: string)
    ensures FirstFive(version) == "HTTP/" <==> "HTTP/" <= version
  {
  }

  lemma ReadsPieces(p: Pieces)
    requires ArePieces(p)
    ensures ReadStatus(Glued(p)).Some? <==> Acceptable(p)
    ensures Acceptable(p) ==> ReadStatus(Glued(p)).value.0 == Number(p)
  {
    VersionIsRead(p);
    NumberIsRead(p);
    HttpIsPrefix(p.version);
  }

  /** Reading a stream made of the pieces of a status line. */
  lemma PiecesAreRead(p: Pieces)
    requires ArePieces(p)
    ensures Read(Glued(p)) != Invalid <==> Acceptable(p)
    ensures Acceptable(p) && Number(p) != 200 ==> Read(Glued(p)) == NotOk(Number(p))
  {
    ReadsPieces(p);
  }

  lemma {:induction false} SpacesAreSpaces(s: string)
    ensures AllSpaces(s[..Spaces(s)])
    ensures Spaces(s) < |s| ==> !IsSpace(s[Spaces(s)])
  {
    if s != "" && IsSpace(s[0]) {
      SpacesAreSpaces(s[1..]);
      assert s[..Spaces(s)] == [s[0]] + s[1..][..Spaces(s[1..])];
    }
  }

  lemma {:induction false} WordsAreWords(s: string)
    ensures NoSpaces(s[..WordLength(s)])
    ensures WordLength(s) < |s| ==> IsSpace(s[WordLength(s)])
  {
    if s != "" && !IsSpace(s[0]) {
      WordsAreWords(s[1..]);
      assert s[..WordLength(s)] == [s[0]] + s[1..][..WordLength(s[1..])];
    }
  }

  lemma {:induction false} DigitsEnd(s: string)
    ensures DigitCount(s) < |s| ==> !IsDigit(s[DigitCount(s)])
  {
    if s != "" && IsDigit(s[0]) {
      DigitsEnd(s[1..]);
    }
  }

  lemma WordPieces(s: string) returns (lead: string, version: string, after: string)
    requires ReadWord(s).Some?
    ensures s == lead + (version + after) && ReadWord(s) == Some((version, after))
    ensures AllSpaces(lead) && version != "" && NoSpaces(version) && (after != "" ==> IsSpace(after[0]))
  {
    SpacesAreSpaces(s);
    var t := s[Spaces(s)..];
    WordsAreWords(t);
    lead, version, after := s[..Spaces(s)], t[..WordLength(t)], t[WordLength(t)..];
    assert t == version + after;
  }

  lemma DigitPieces(negative: bool, u: string) returns (digits: string, rest: string)
    requires ReadDigits(negative, u).Some?
    ensures u == digits + rest && ReadDigits(negative, u).value.1 == rest
    ensures digits != "" && AllDigits(digits) && (rest != "" ==> !IsDigit(rest[0]))
  {
    DigitsEnd(u);
    digits, rest := u[..DigitCount(u)], u[DigitCount(u)..];
  }

  lemma IntPieces(s: string) returns (gap: string, sign: string, digits: string, rest: string)
    requires ReadInt(s).Some?
    ensures s == gap + (sign + (digits + rest)) && ReadInt(s).value.1 == rest
    ensures AllSpaces(gap) && (s != "" && IsSpace(s[0]) ==> gap != "")
    ensures sign in {"", "+", "-"} && digits != "" && AllDigits(digits) && (rest != "" ==> !IsDigit(rest[0]))
  {
    SpacesAreSpaces(s);
    gap := s[..Spaces(s)];
    var t := s[Spaces(s)..];
    assert s == gap + t;
    if t != "" && (t[0] == '-' || t[0] == '+') {
      sign := [t[0]];
      digits, rest := DigitPieces(t[0] == '-', t[1..]);
      assert t == sign + (digits + rest);
    } else {
      sign := "";
      digits, rest := DigitPieces(false, t);
      assert t == sign + (digits + rest);
    }
  }

  lemma ValidHasPieces(s: string) returns (p: Pieces)
    requires Read(s) != Invalid
    ensures ArePieces(p) && Glued(p) == s
  {
    var lead, version, after := WordPieces(s);
    var gap, sign, digits, rest := IntPieces(after);
    p := Pieces(lead, version, gap, sign, digits, rest);
  }

  /** A stream is a response for the client if and only if it begins, after white space, with a word that
      starts with "HTTP/", white space and a number in the range of an int behind which the stream goes on. */
  lemma ValidIffStatusLine(s: string)
    ensures Read(s) != Invalid <==> exists p :: ArePieces(p) && Glued(p) == s && Acceptable(p)
  {
    if Read(s) != Invalid {
      var p := ValidHasPieces(s);
      PiecesAreRead(p);
    }
    forall p | ArePieces(p) && Glued(p) == s && Acceptable(p)
      ensures Read(s) != Invalid
    {
      PiecesAreRead(p);
    }
  }

  /** The lines with their newlines, one after the other. */
  function Terminated(lines: seq<string>): string {
    if lines == [] then "" else lines[0] + "\n" + Terminated(lines[1..])
  }

  ghost predicate SplitsInto(s: string, lines: seq<string>, rest: string) {
    && "\r" !in lines
    && (|| s == Terminated(lines) + ("\r\n" + rest)
        || (rest == "" && (s == Terminated(lines) || s + "\n" == Terminated(lines) || s == Terminated(lines) + "\r")))
  }

  lemma SplitsCons(line: string, s: string, lines: seq<string>, rest: string)
    requires line != "\r" && SplitsInto(s, lines, rest)
    ensures SplitsInto(line + "\n" + s, [line] + lines, rest)
  {
    var head, all := line + "\n", [line] + lines;
    assert all[1..] == lines;
    assert Terminated(all) == head + Terminated(lines);
    Associate(head, Terminated(lines), "\r\n" + rest);
    Associate(head, Terminated(lines), "\r");
    Associate(head, s, "\n");
  }

  /** The header lines are the lines of the stream up to the first that is only a carriage return, and the
      rest is what follows it; a stream without such a line is lines to its end, the last one perhaps
      without a newline. */
  lemma {:induction false} HeaderLinesSplit(s: string)
    ensures SplitsInto(s, HeaderLines(s).0, HeaderLines(s).1)
    decreases |s|
  {
    if s != "" {
      var (line, rest) := GetLine(s).value;
      if '\n' in s {
        assert s == line + "\n" + rest;
        if line == "\r" {
          assert s == Terminated([]) + ("\r\n" + rest);
        } else {
          HeaderLinesSplit(rest);
          SplitsCons(line, rest, HeaderLines(rest).0, HeaderLines(rest).1);
        }
      } else if s == "\r" {
        assert s == Terminated([]) + "\r";
      } else {
        assert HeaderLines(s) == ([s] + [], "");
        assert [s][1..] == [];
        assert s + "\n" == Terminated([s]);
      }
    }
  }
}
