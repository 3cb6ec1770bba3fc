/** A reader of HTTP responses, to measure the printers against: lines, status, header fields, and
    the body framing of section 6.3 of RFC 9112 for requests other than HEAD and CONNECT. */
module MessageReader {
  import opened Options
  import opened Text
  import opened Numerals
  import opened Headers

  /** Lines up to the first empty one, and what follows it. */
  function ReadLines(s: string): (r: Option<(seq<string>, string)>)
    decreases |s|
  {
    match IndexOf(s, CRLF)
    case None => None
    case Some(i) =>
      if i == 0 then Some(([], s[2..])) else
      match ReadLines(s[i + 2..])
      case None => None
      case Some((lines, rest)) => Some(([s[..i]] + lines, rest))
  }

  predicate Blank(c: char) { c == ' ' || c == '\t' }

  function TrimLeft(s: string): string {
    if s != "" && Blank(s[0]) then TrimLeft(s[1..]) else s
  }

  function TrimRight(s: string): string {
    if s != "" && Blank(s[|s| - 1]) then TrimRight(s[..|s| - 1]) else s
  }

  function Trim(s: string): string { TrimRight(TrimLeft(s)) }

  /** Section 5 of RFC 9112: a name, a colon at once, and a value without the white space around it. */
  function ReadHeader(line: string): Option<Header> {
    match IndexOf(line, ":")
    case None => None
    case Some(i) =>
      if i == 0 || exists k :: 0 <= k < i && Blank(line[k]) then None
      else Some(Header(line[..i], Trim(line[i + 1..])))
  }

  function ReadHeaders(lines: seq<string>): Option<seq<Header>> {
    if lines == [] then Some([]) else
    match (ReadHeader(lines[0]), ReadHeaders(lines[1..]))
    case (Some(h), Some(hs)) => Some([h] + hs)
    case _ => None
  }

  /** What a reader makes of the cases in which the standard leaves it a choice. */
  datatype Policy = Policy(
    statusAlone: bool,           // takes a status line that ends with the status code
    lengthBesideCoding: bool,    // takes a Content-Length beside a Transfer-Encoding, and ignores it
    repeatedLength: bool)        // takes a Content-Length repeated with the same value

  /** Section 4 of RFC 9112: the status is three digits, and a space follows it even where no reason
      does; a reader may go by words instead. */
  function ReadStatus(policy: Policy, line: string): Option<(nat, string)> {
    var words := Split(line, " ");
    if |words| >= (if policy.statusAlone then 2 else 3) && words[0] == "HTTP/1.1" && |words[1]| == 3 then
      match Read(words[1], Dec)
      case None => None
      case Some(status) => Some((status, Join(words[2..], " ")))
    else None
  }

  // ---------- Framing ----------

  datatype Framing = NoBody | ChunkedBody | Length(n: nat) | UntilClose | Invalid

  /** These have no body whatever their header fields say. */
  predicate Bodyless(status: int) {
    100 <= status < 200 || status == 204 || status == 304
  }

  /** The values of a field, in any letter case of its name. */
  function FieldValues(hs: seq<Header>, name: string): seq<string> {
    if hs == [] then []
    else (if Lower(hs[0].name) == name then [hs[0].value] else []) + FieldValues(hs[1..], name)
  }

  /** The members of a comma-separated value, in lower case; empty ones do not count. */
  function Filled(parts: seq<string>): seq<string> {
    if parts == [] then []
    else (if Trim(parts[0]) == "" then [] else [Lower(Trim(parts[0]))]) + Filled(parts[1..])
  }

  /** The members of a list that may be spread over several fields. */
  function Members(values: seq<string>): seq<string> {
    if values == [] then [] else Filled(Split(values[0], ",")) + Members(values[1..])
  }

  function Codings(hs: seq<Header>): seq<string> { Members(FieldValues(hs, TransferEncoding())) }
  function Lengths(hs: seq<Header>): seq<string> { Members(FieldValues(hs, ContentLength())) }
  function TransferEncoding(): string { "transfer-encoding" }
  function ContentLength(): string { "content-length" }
  function ChunkedCoding(): string { "chunked" }

  /** Codings under the outermost chunked are not understood; without it the body ends with the
      connection. */
  function CodedFraming(codings: seq<string>): Framing {
    if codings == [ChunkedCoding()] then ChunkedBody
    else if codings != [] && codings[|codings| - 1] == ChunkedCoding() then Invalid
    else UntilClose
  }

  predicate AllRead(lengths: seq<string>, n: nat) {
    forall i :: 0 <= i < |lengths| ==> Read(lengths[i], Dec) == Some(n)
  }

  /** All lengths must be valid and the same. */
  function LengthFraming(policy: Policy, fields: nat, lengths: seq<string>): Framing {
    if lengths == [] || (!policy.repeatedLength && (fields > 1 || |lengths| > 1)) then Invalid else
    match Read(lengths[0], Dec)
    case None => Invalid
    case Some(n) => if AllRead(lengths, n) then Length(n) else Invalid
  }

  function FramingOf(policy: Policy, status: nat, hs: seq<Header>): Framing {
    var codings, lengths := FieldValues(hs, TransferEncoding()), FieldValues(hs, ContentLength());
    if Bodyless(status) then NoBody
    else if codings != [] then
      if !policy.lengthBesideCoding && lengths != [] then Invalid else CodedFraming(Codings(hs))
    else if lengths != [] then LengthFraming(policy, |lengths|, Lengths(hs))
    else UntilClose
  }

  // ---------- Bodies ----------

  /** chunk-size with any chunk extension dropped. */
  function ChunkSize(line: string): Option<nat> {
    Read(match IndexOf(line, ";") case None => line case Some(i) => line[..i], Hex)
  }

  /** Section 7.1 of RFC 9112: the body, and whatever follows the last chunk and its trailer section. */
  function Decode(s: string): (r: Option<(string, string)>)
    decreases |s|
  {
    match IndexOf(s, CRLF)
    case None => None
    case Some(i) =>
      var data := s[i + 2..];
      match ChunkSize(s[..i])
      case None => None
      case Some(n) =>
        if n == 0 then
          match ReadLines(data) { case None => None case Some((trailers, rest)) => Some(("", rest)) }
        else if |data| < n + 2 || data[n..n + 2] != CRLF then None
        else
          match Decode(data[n + 2..])
          case None => None
          case Some((body, rest)) => Some((data[..n] + body, rest))
  }

  function TakeBody(framing: Framing, s: string): Option<(string, string)> {
    match framing
    case NoBody => Some(("", s))
    case ChunkedBody => Decode(s)
    case Length(n) => if n <= |s| then Some((s[..n], s[n..])) else None
    case UntilClose => Some((s, ""))
    case Invalid => None
  }

  datatype Message = Message(status: int, reason: string, headers: seq<Header>, body: string)

  /** One message, and the bytes that follow it. */
  function ReadMessage(policy: Policy, s: string): Option<(Message, string)> {
    match ReadLines(s)
    case None => None
    case Some((lines, after)) =>
      if lines == [] then None else
      match (ReadStatus(policy, lines[0]), ReadHeaders(lines[1..]))
      case (Some((status, reason)), Some(hs)) =>
        (match TakeBody(FramingOf(policy, status, hs), after)
         case Some((body, rest)) => Some((Message(status, reason, hs, body), rest))
         case None => None)
      case _ => None
  }

  // ---------- Reading back a printed head ----------

  /** The header takes up one line. */
  predicate OneLine(h: Header) {
    !Contains(h.name, CRLF) && !Contains(h.value, CRLF)
  }

  predicate Printable(h: Header) {
    && OneLine(h) && h.name != "" && !Contains(h.name, ":")
    && forall k :: 0 <= k < |h.name| ==> !Blank(h.name[k])
  }

  predicate AllPrintable(hs: seq<Header>) {
    forall i :: 0 <= i < |hs| ==> Printable(hs[i])
  }

  /** Header fields as every reader sees them. */
  function Trimmed(hs: seq<Header>): (r: seq<Header>)
    ensures |r| == |hs|
  {
    seq(|hs|, i requires 0 <= i < |hs| => Header(hs[i].name, Trim(hs[i].value)))
  }

  lemma HeaderLineClean(h: Header)
    requires OneLine(h)
    ensures !Contains(HeaderLine(h), CRLF)
  {
    hide Occurs;
    var line := HeaderLine(h);
    forall j: nat
      ensures !Occurs(line, CRLF, j)
    {
      OccursCrlf(line, j);
      OccursCrlf(h.name, j);
      if j >= |h.name| + 2 {
        OccursCrlf(h.value, j - |h.name| - 2);
      }
    }
  }

  lemma OccursCrlf(s: string, j: nat)
    ensures Occurs(s, CRLF, j) <==> j + 2 <= |s| && s[j] == '\r' && s[j + 1] == '\n'
  {
  }

  lemma HeaderLineRead(h: Header)
    requires Printable(h)
    ensures ReadHeader(HeaderLine(h)) == Some(Header(h.name, Trim(h.value)))
  {
    hide IndexOf, Occurs, TrimRight;
    var line := HeaderLine(h);
    assert line == h.name + ":" + (" " + h.value);
    FirstSeparator(h.name, ":", " " + h.value);
    assert line[..|h.name|] == h.name;
    assert forall k :: 0 <= k < |h.name| ==> line[k] == h.name[k];
    assert line[|h.name| + 1..] == " " + h.value;
    assert (" " + h.value)[1..] == h.value;
  }

  lemma {:induction false} HeaderLinesRead(hs: seq<Header>)
    requires AllPrintable(hs)
    ensures ReadHeaders(HeaderLines(hs)) == Some(Trimmed(hs))
  {
    hide ReadHeader, Printable, HeaderLine, Trim;
    if hs != [] {
      HeaderLineRead(hs[0]);
      HeaderLinesRead(hs[1..]);
      assert HeaderLines(hs)[1..] == HeaderLines(hs[1..]);
      assert [Trimmed(hs)[0]] + Trimmed(hs[1..]) == Trimmed(hs);
    }
  }

  lemma LinesStep(lines: seq<string>, rest: string)
    requires lines != []
    ensures Lines(lines) + CRLF + rest == lines[0] + CRLF + (Lines(lines[1..]) + CRLF + rest)
  {
  }

  /** A head read back is the lines that were written, and the rest is untouched. */
  lemma {:induction false} LinesRead(lines: seq<string>, rest: string)
    requires forall i :: 0 <= i < |lines| ==> lines[i] != "" && !Contains(lines[i], CRLF)
    ensures ReadLines(Lines(lines) + CRLF + rest) == Some((lines, rest))
    decreases |lines|
  {
    hide Contains, IndexOf, Occurs;
    var s := Lines(lines) + CRLF + rest;
    if lines == [] {
      LacksSeparator("", CRLF, '\r');
      FirstSeparator("", CRLF, rest);
      assert s == "" + CRLF + rest;
      assert s[2..] == rest;
    } else {
      var tail := Lines(lines[1..]) + CRLF + rest;
      LinesStep(lines, rest);
      FirstSeparator(lines[0], CRLF, tail);
      assert s[..|lines[0]|] == lines[0] && s[|lines[0]| + 2..] == tail;
      LinesRead(lines[1..], rest);
      assert [lines[0]] + lines[1..] == lines;
    }
  }

  lemma NumberIsPlain(n: int)
    ensures ' ' !in PrintInt(n) && '\r' !in PrintInt(n)
  {
    hide PrintInt;
    PrintIntChars(n);
    assert !IsDigit(' ', Dec) && !IsDigit('\r', Dec);
  }

  /** Only a status of three digits is one. */
  lemma StatusNumber(status: int)
    ensures var word := PrintInt(status);
      (if |word| == 3 then Read(word, Dec) else None) == if 100 <= status <= 999 then Some(status) else None
  {
    hide Value, DigitValue, Print;
    if status < 0 {
      assert PrintInt(status)[0] == '-';
      MinusIsNoDigit();
    } else {
      PrintRead(status, Dec);
      ThreeDigits(status);
    }
  }

  lemma SplitNone(s: string)
    requires !Contains(s, " ")
    ensures Split(s, " ") == [s]
  {
  }

  lemma {:induction false} TwoWords(a: string, b: string, c: string)
    requires ' ' !in a && ' ' !in b
    ensures Split(a + " " + b + " " + c, " ") == [a, b] + Split(c, " ")
  {
    hide Split, IndexOf, Occurs, Contains;
    LacksSeparator(a, " ", ' ');
    LacksSeparator(b, " ", ' ');
    assert a + " " + b + " " + c == a + " " + (b + " " + c);
    SplitOnce(a, " ", b + " " + c);
    SplitOnce(b, " ", c);
  }

  /** What the reader makes of a printed head and the bytes behind it. */
  lemma HeadRead(policy: Policy, start: string, hs: seq<Header>, after: string)
    requires start != "" && !Contains(start, CRLF) && AllPrintable(hs)
    ensures ReadMessage(policy, Lines([start] + HeaderLines(hs)) + CRLF + after) ==
      match ReadStatus(policy, start)
      case None => None
      case Some((status, reason)) =>
        match TakeBody(FramingOf(policy, status, Trimmed(hs)), after)
        case None => None
        case Some((body, rest)) => Some((Message(status, reason, Trimmed(hs), body), rest))
  {
    hide Lines, ReadStatus, Contains, FramingOf, TakeBody, ReadLines, ReadHeaders, Trim;
    var lines := [start] + HeaderLines(hs);
    forall i | 0 < i < |lines|
      ensures lines[i] != "" && !Contains(lines[i], CRLF)
    {
      HeaderLineClean(hs[i - 1]);
    }
    LinesRead(lines, after);
    HeaderLinesRead(hs);
    assert lines[1..] == HeaderLines(hs);
  }

  /** A body read from chunks is shorter than what carried it. */
  lemma {:induction false} DecodeShrinks(s: string)
    ensures Decode(s).Some? ==> |Decode(s).value.0| + |Decode(s).value.1| < |s|
    decreases |s|
  {
    hide ChunkSize;
    var i := IndexOf(s, CRLF);
    if i.Some? && ChunkSize(s[..i.value]).Some? {
      var data, n := s[i.value + 2..], ChunkSize(s[..i.value]).value;
      if n == 0 {
        ReadLinesShrinks(data);
      } else if |data| >= n + 2 {
        DecodeShrinks(data[n + 2..]);
      }
    }
  }

  lemma {:induction false} ReadLinesShrinks(s: string)
    ensures ReadLines(s).Some? ==> |ReadLines(s).value.1| < |s|
    decreases |s|
  {
    var i := IndexOf(s, CRLF);
    if i.Some? && i.value > 0 {
      ReadLinesShrinks(s[i.value + 2..]);
    }
  }

  // ---------- Values of fields ----------

  lemma {:induction false} FieldValuesConcat(a: seq<Header>, b: seq<Header>, name: string)
    ensures FieldValues(a + b, name) == FieldValues(a, name) + FieldValues(b, name)
  {
    if a == [] {
      assert a + b == b;
    } else {
      assert (a + b)[1..] == a[1..] + b;
      FieldValuesConcat(a[1..], b, name);
    }
  }

  /** A member of its own: nothing to trim, to split or to lower-case. */
  predicate Plain(v: string) {
    v != "" && !Blank(v[0]) && !Blank(v[|v| - 1]) && ',' !in v && Lower(v) == v
  }

  lemma PlainMember(v: string, vs: seq<string>)
    requires Plain(v)
    ensures Trim(v) == v && Members([v] + vs) == [v] + Members(vs)
  {
    hide Lower, IndexOf, Occurs;
    LacksSeparator(v, ",", ',');
    assert Split(v, ",") == [v];
    assert Filled([v][1..]) == [];
    assert Filled([v]) == [v];
    assert ([v] + vs)[1..] == vs;
  }
}
