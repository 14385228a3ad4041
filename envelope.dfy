/**
  The text `build_article` writes into the post buffer: the header block,
  the yEnc 1.3 envelope around the encoded body (`=ybegin`, `=ypart`,
  `=yend` with the part's CRC-32), and the end-of-data line of section
  3.1.1 of RFC 3977. Each line is rendered by a function; readers for the
  three yEnc keyword lines are the partners that show the numbers can be
  read back from the text exactly.
*/
module Envelope {
  import opened Results
  import opened Formats

  const VERSION := "0.00"

  /** The `X-Newsposter` value, with the program's version filled in. */
  const NEWSPOSTER := "newsmangler " + VERSION + " - http://www.madcowdisease.org/mcd/newsmangler"

  /** The `line=` value written into every `=ybegin` line. */
  const LINE_LENGTH: nat := 256

  /** The line that ends an article on the wire. */
  const END_OF_DATA := ".\r\n"

  predicate EndsWithCrlf(s: string)
  {
    |s| >= 2 && s[|s| - 2..] == CRLF
  }

  // ---------------------------------------------------------------------
  // Reading lines back

  function StripPrefix(p: string, s: string): (r: Option<string>)
    ensures r.Some? <==> |p| <= |s| && s[..|p|] == p
    ensures r.Some? ==> s == p + r.value
  {
    if |p| <= |s| && s[..|p|] == p then Some(s[|p|..]) else None
  }

  lemma StripPrefixOf(p: string, s: string)
    ensures StripPrefix(p, p + s) == Some(s)
  {
    assert (p + s)[..|p|] == p;
    assert (p + s)[|p|..] == s;
  }

  /** The text before a final CRLF. */
  function StripCrlf(s: string): (r: Option<string>)
    ensures r.Some? <==> EndsWithCrlf(s)
    ensures r.Some? ==> s == r.value + CRLF
  {
    if EndsWithCrlf(s) then Some(s[..|s| - 2]) else None
  }

  lemma StripCrlfOf(s: string)
    ensures StripCrlf(s + CRLF) == Some(s)
  {
    assert (s + CRLF)[|s + CRLF| - 2..] == CRLF;
    assert (s + CRLF)[..|s + CRLF| - 2] == s;
  }

  /** The longest run of digits at the front of `s`, and what follows it. */
  function SpanDigits(s: string): (r: (string, string))
    ensures r.0 + r.1 == s && AllDigits(r.0)
    ensures r.1 != [] ==> !IsDigit(r.1[0])
  {
    if s != [] && IsDigit(s[0]) then
      var (d, rest) := SpanDigits(s[1..]);
      assert [s[0]] + d + rest == s;
      ([s[0]] + d, rest)
    else ([], s)
  }

  lemma {:induction false} SpanDigitsOf(d: string, rest: string)
    requires AllDigits(d) && (rest == [] || !IsDigit(rest[0]))
    ensures SpanDigits(d + rest) == (d, rest)
  {
    if d == [] {
      assert d + rest == rest;
    } else {
      assert (d + rest)[0] == d[0];
      assert (d + rest)[1..] == d[1..] + rest;
      SpanDigitsOf(d[1..], rest);
      assert [d[0]] + d[1..] == d;
    }
  }

  /** `key` followed by a decimal number: the number and the rest of the line. */
  function Field(key: string, s: string): (r: Option<(nat, string)>)
  {
    match StripPrefix(key, s)
    case None => None
    case Some(t) =>
      var (digits, rest) := SpanDigits(t);
      match ParseDecimal(digits)
      case None => None
      case Some(n) => Some((n, rest))
  }

  lemma FieldOf(key: string, n: nat, rest: string)
    requires rest == [] || !IsDigit(rest[0])
    ensures Field(key, key + (Decimal(n) + rest)) == Some((n, rest))
  {
    StripPrefixOf(key, Decimal(n) + rest);
    SpanDigitsOf(Decimal(n), rest);
    DecimalRoundTrip(n);
  }

  // ---------------------------------------------------------------------
  // The yEnc keyword lines

  datatype YBegin = YBegin(part: nat, total: nat, size: nat, name: string)
  datatype YPart = YPart(begin: nat, end: nat)
  datatype YEnd = YEnd(size: nat, part: nat, crc: nat)

  function YBeginLine(part: nat, total: nat, size: nat, name: string): (r: string)
    ensures EndsWithCrlf(r)
  {
    "=ybegin part=" + (Decimal(part) + (" total=" + (Decimal(total) + (" line=" + (Decimal(LINE_LENGTH)
      + (" size=" + (Decimal(size) + (" name=" + (name + CRLF)))))))))
  }

  function YPartLine(begin: nat, end: nat): (r: string)
    ensures EndsWithCrlf(r)
  {
    "=ypart begin=" + (Decimal(begin) + (" end=" + (Decimal(end) + CRLF)))
  }

  /** The trailer: the part's byte count, its number, and its CRC as `%08x` of the value masked to 32 bits. */
  function YEndLine(size: nat, part: nat, crc: int): (r: string)
    ensures EndsWithCrlf(r)
  {
    "=yend size=" + (Decimal(size) + (" part=" + (Decimal(part) + (" pcrc32=" + (Hex8(Mask32(crc)) + CRLF)))))
  }

  function ParseYBegin(line: string): Option<YBegin>
  {
    match Field("=ybegin part=", line)
    case None => None
    case Some((part, r1)) =>
      match Field(" total=", r1)
      case None => None
      case Some((total, r2)) =>
        match Field(" line=", r2)
        case None => None
        case Some((width, r3)) =>
          if width != LINE_LENGTH then None
          else match Field(" size=", r3)
            case None => None
            case Some((size, r4)) =>
              match StripPrefix(" name=", r4)
              case None => None
              case Some(r5) =>
                match StripCrlf(r5)
                case None => None
                case Some(name) => Some(YBegin(part, total, size, name))
  }

  function ParseYPart(line: string): Option<YPart>
  {
    match Field("=ypart begin=", line)
    case None => None
    case Some((begin, r1)) =>
      match Field(" end=", r1)
      case None => None
      case Some((end, r2)) => if r2 == CRLF then Some(YPart(begin, end)) else None
  }

  function ParseYEnd(line: string): Option<YEnd>
  {
    match Field("=yend size=", line)
    case None => None
    case Some((size, r1)) =>
      match Field(" part=", r1)
      case None => None
      case Some((part, r2)) =>
        match StripPrefix(" pcrc32=", r2)
        case None => None
        case Some(r3) =>
          if |r3| != 10 || r3[8..] != CRLF then None
          else match ParseHex8(r3[..8])
            case None => None
            case Some(crc) => Some(YEnd(size, part, crc))
  }

  /** The `=ybegin` line reads back as the part, total, size and name written into it. */
  lemma YBeginRoundTrip(part: nat, total: nat, size: nat, name: string)
    ensures ParseYBegin(YBeginLine(part, total, size, name)) == Some(YBegin(part, total, size, name))
  {
    var r4 := " name=" + (name + CRLF);
    var r3 := " size=" + (Decimal(size) + r4);
    var r2 := " line=" + (Decimal(LINE_LENGTH) + r3);
    var r1 := " total=" + (Decimal(total) + r2);
    FieldOf("=ybegin part=", part, r1);
    FieldOf(" total=", total, r2);
    FieldOf(" line=", LINE_LENGTH, r3);
    FieldOf(" size=", size, r4);
    StripPrefixOf(" name=", name + CRLF);
    StripCrlfOf(name);
  }

  /** The `=ypart` line reads back as the window's bounds. */
  lemma YPartRoundTrip(begin: nat, end: nat)
    ensures ParseYPart(YPartLine(begin, end)) == Some(YPart(begin, end))
  {
    FieldOf("=ypart begin=", begin, " end=" + (Decimal(end) + CRLF));
    FieldOf(" end=", end, CRLF);
  }

  /** The `=yend` line reads back as the size, the part and the CRC reduced to 32 bits. */
  lemma YEndRoundTrip(size: nat, part: nat, crc: int)
    ensures ParseYEnd(YEndLine(size, part, crc)) == Some(YEnd(size, part, Mask32(crc)))
  {
    var hex := Hex8(Mask32(crc));
    var r2 := " pcrc32=" + (hex + CRLF);
    FieldOf("=yend size=", size, " part=" + (Decimal(part) + r2));
    FieldOf(" part=", part, r2);
    StripPrefixOf(" pcrc32=", hex + CRLF);
    assert (hex + CRLF)[8..] == CRLF && (hex + CRLF)[..8] == hex;
    Hex8RoundTrip(Mask32(crc));
  }

  // ---------------------------------------------------------------------
  // Headers and the whole article

  function HeaderLine(key: string, value: string): (r: string)
    ensures EndsWithCrlf(r)
  {
    key + (": " + (value + CRLF))
  }

  function HeaderValue(key: string, line: string): Option<string>
  {
    match StripPrefix(key + ": ", line)
    case None => None
    case Some(r) => StripCrlf(r)
  }

  lemma HeaderRoundTrip(key: string, value: string)
    ensures HeaderValue(key, HeaderLine(key, value)) == Some(value)
  {
    assert HeaderLine(key, value) == (key + ": ") + (value + CRLF);
    StripPrefixOf(key + ": ", value + CRLF);
    StripCrlfOf(value);
  }

  /**
    The article as the buffer receives it, one write per element: five
    headers, the blank line, `=ybegin`, `=ypart`, the encoded body,
    `=yend`, and the end-of-data line. `date` is the formatted timestamp
    that precedes " UTC".
  */
  function ArticleLines(from: string, newsgroup: string, date: string, subject: string,
                        part: nat, total: nat, size: nat, name: string,
                        begin: nat, end: nat, body: string, crc: int): (r: seq<string>)
    requires begin <= end
    ensures |r| == 11 && r[8] == body
  {
    [ HeaderLine("From", from),
      HeaderLine("Newsgroups", newsgroup),
      HeaderLine("Date", date + " UTC"),
      HeaderLine("Subject", subject),
      HeaderLine("X-Newsposter", NEWSPOSTER),
      CRLF,
      YBeginLine(part, total, size, name),
      YPartLine(begin, end),
      body,
      YEndLine(end - begin, part, crc),
      END_OF_DATA ]
  }

  /** All the writes, in order, as one text. */
  function Text(lines: seq<string>): string
  {
    if lines == [] then [] else Text(lines[..|lines| - 1]) + lines[|lines| - 1]
  }

  /**
    What a reader of the article recovers from it: each header's value,
    the blank line that ends the headers, the numbers of the three yEnc
    lines (the trailer's size being the window's length), the body, and
    the end-of-data line.
  */
  lemma ArticleFraming(from: string, newsgroup: string, date: string, subject: string,
                       part: nat, total: nat, size: nat, name: string,
                       begin: nat, end: nat, body: string, crc: int)
    requires begin <= end
    ensures var r := ArticleLines(from, newsgroup, date, subject, part, total, size, name, begin, end, body, crc);
      && HeaderValue("From", r[0]) == Some(from)
      && HeaderValue("Newsgroups", r[1]) == Some(newsgroup)
      && HeaderValue("Date", r[2]) == Some(date + " UTC")
      && HeaderValue("Subject", r[3]) == Some(subject)
      && HeaderValue("X-Newsposter", r[4]) == Some(NEWSPOSTER)
      && r[5] == CRLF
      && ParseYBegin(r[6]) == Some(YBegin(part, total, size, name))
      && ParseYPart(r[7]) == Some(YPart(begin, end))
      && ParseYEnd(r[9]) == Some(YEnd(end - begin, part, Mask32(crc)))
      && r[10] == END_OF_DATA
  {
    var r := ArticleLines(from, newsgroup, date, subject, part, total, size, name, begin, end, body, crc);
    HeadersFraming(r, from, newsgroup, date, subject);
    YencFraming(from, newsgroup, date, subject, part, total, size, name, begin, end, body, crc);
  }

  /** Lines holding the five header lines in their places give back each header's value. */
  lemma HeadersFraming(r: seq<string>, from: string, newsgroup: string, date: string, subject: string)
    requires |r| >= 5
    requires r[0] == HeaderLine("From", from) && r[1] == HeaderLine("Newsgroups", newsgroup)
    requires r[2] == HeaderLine("Date", date + " UTC") && r[3] == HeaderLine("Subject", subject)
    requires r[4] == HeaderLine("X-Newsposter", NEWSPOSTER)
    ensures && HeaderValue("From", r[0]) == Some(from)
            && HeaderValue("Newsgroups", r[1]) == Some(newsgroup)
            && HeaderValue("Date", r[2]) == Some(date + " UTC")
            && HeaderValue("Subject", r[3]) == Some(subject)
            && HeaderValue("X-Newsposter", r[4]) == Some(NEWSPOSTER)
  {
    HeaderRoundTrip("From", from);
    HeaderRoundTrip("Newsgroups", newsgroup);
    HeaderRoundTrip("Date", date + " UTC");
    HeaderRoundTrip("Subject", subject);
    HeaderRoundTrip("X-Newsposter", NEWSPOSTER);
  }

  lemma YencFraming(from: string, newsgroup: string, date: string, subject: string,
                    part: nat, total: nat, size: nat, name: string,
                    begin: nat, end: nat, body: string, crc: int)
    requires begin <= end
    ensures var r := ArticleLines(from, newsgroup, date, subject, part, total, size, name, begin, end, body, crc);
      && ParseYBegin(r[6]) == Some(YBegin(part, total, size, name))
      && ParseYPart(r[7]) == Some(YPart(begin, end))
      && ParseYEnd(r[9]) == Some(YEnd(end - begin, part, Mask32(crc)))
      && r[10] == END_OF_DATA
  {
    YBeginFraming(from, newsgroup, date, subject, part, total, size, name, begin, end, body, crc);
    YPartFraming(from, newsgroup, date, subject, part, total, size, name, begin, end, body, crc);
    YEndFraming(from, newsgroup, date, subject, part, total, size, name, begin, end, body, crc);
  }

  lemma YBeginFraming(from: string, newsgroup: string, date: string, subject: string,
                    part: nat, total: nat, size: nat, name: string,
                    begin: nat, end: nat, body: string, crc: int)
    requires begin <= end
    ensures var r := ArticleLines(from, newsgroup, date, subject, part, total, size, name, begin, end, body, crc);
      ParseYBegin(r[6]) == Some(YBegin(part, total, size, name))
  {
    var r := ArticleLines(from, newsgroup, date, subject, part, total, size, name, begin, end, body, crc);
    assert r[6] == YBeginLine(part, total, size, name);
    YBeginRoundTrip(part, total, size, name);
  }

  lemma YPartFraming(from: string, newsgroup: string, date: string, subject: string,
                    part: nat, total: nat, size: nat, name: string,
                    begin: nat, end: nat, body: string, crc: int)
    requires begin <= end
    ensures var r := ArticleLines(from, newsgroup, date, subject, part, total, size, name, begin, end, body, crc);
      ParseYPart(r[7]) == Some(YPart(begin, end))
  {
    var r := ArticleLines(from, newsgroup, date, subject, part, total, size, name, begin, end, body, crc);
    assert r[7] == YPartLine(begin, end);
    YPartRoundTrip(begin, end);
  }

  lemma YEndFraming(from: string, newsgroup: string, date: string, subject: string,
                    part: nat, total: nat, size: nat, name: string,
                    begin: nat, end: nat, body: string, crc: int)
    requires begin <= end
    ensures var r := ArticleLines(from, newsgroup, date, subject, part, total, size, name, begin, end, body, crc);
      ParseYEnd(r[9]) == Some(YEnd(end - begin, part, Mask32(crc)))
  {
    YEndRoundTrip(end - begin, part, crc);
  }

  /** The text of an article ends with CRLF "." CRLF: the trailer's line end, then the end-of-data line. */
  lemma ArticleTerminated(lines: seq<string>)
    requires |lines| >= 2 && EndsWithCrlf(lines[|lines| - 2]) && lines[|lines| - 1] == END_OF_DATA
    ensures var t := Text(lines); |t| >= 5 && t[|t| - 5..] == CRLF + END_OF_DATA
  {
    var n := |lines|;
    var front := lines[..n - 1];
    assert front[..n - 2] == lines[..n - 2] && front[n - 2] == lines[n - 2];
    var a := Text(lines[..n - 2]) + lines[n - 2];
    assert Text(front) == a;
    assert Text(lines) == a + END_OF_DATA;
    assert a[|a| - 2..] == lines[n - 2][|lines[n - 2]| - 2..] == CRLF;
    SuffixThrough(a, CRLF, END_OF_DATA);
  }

  /** Every article `build_article` writes ends with CRLF "." CRLF. */
  lemma ArticleTextTerminated(from: string, newsgroup: string, date: string, subject: string,
                              part: nat, total: nat, size: nat, name: string,
                              begin: nat, end: nat, body: string, crc: int)
    requires begin <= end
    ensures var t := Text(ArticleLines(from, newsgroup, date, subject, part, total, size, name, begin, end, body, crc));
      |t| >= 5 && t[|t| - 5..] == CRLF + END_OF_DATA
  {
    var r := ArticleLines(from, newsgroup, date, subject, part, total, size, name, begin, end, body, crc);
    assert r[9] == YEndLine(end - begin, part, crc);
    ArticleTerminated(r);
  }

  /** A suffix of `a` followed by `b` is a suffix of `a + b`. */
  lemma SuffixThrough(a: string, tail: string, b: string)
    requires |a| >= |tail| && a[|a| - |tail|..] == tail
    ensures |a + b| >= |tail + b| && (a + b)[|a + b| - |tail + b|..] == tail + b
  {
    var k := |a| - |tail|;
    assert (a + b)[k..] == a[k..] + b;
  }
}
