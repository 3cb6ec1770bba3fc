/** src/request.c: request_parse, which cuts one buffer into strings and keeps its own offset. */
module Request {
  import opened Options
  import opened Text
  import opened CStrings
  import opened Headers

  datatype Request = Request(verb: string, path: string, headers: seq<Header>, body: string)

  /** Fault: the code dereferences NULL or reads past the buffer. */
  datatype Outcome = Parsed(request: Request) | Fault

  /** Where the header loop stops. */
  datatype Loop = Stopped(buf: seq<char>, offset: nat, headers: seq<Header>) | Faulted

  /** One header line at `offset`. */
  datatype Line = Line(buf: seq<char>, offset: nat, header: Header) | NoLine | BadLine

  /** Name and value of the line at `line`; None when there is nothing behind the name. */
  function ParseField(buf: seq<char>, line: nat): (r: Option<(seq<char>, Header)>)
    requires Terminated(buf) && line < |buf|
    ensures r.Some? ==> Terminated(r.value.0) && |r.value.0| == |buf|
  {
    FieldBehind(Strtok(buf, line, ": "))
  }

  /** The value behind the name that strtok found. */
  function FieldBehind(n: Token): (r: Option<(seq<char>, Header)>)
    requires Terminated(n.buf) && n.save < |n.buf| && (n.start.Some? ==> n.start.value < |n.buf|)
    ensures r.Some? ==> Terminated(r.value.0) && |r.value.0| == |n.buf|
  {
    var v := Strtok(n.buf, n.save, "");
    if v.start.None? then None else
    var value := v.start.value;
    var name := if n.start.None? then "" else StringAt(v.buf, n.start.value);
    Some((v.buf, Header(Lower(name), StringAt(v.buf, if v.buf[value] == ' ' then value + 1 else value))))
  }

  function ParseLine(buf: seq<char>, offset: nat): (r: Line)
    requires Terminated(buf) && offset < |buf|
    ensures r.Line? ==> Terminated(r.buf) && |r.buf| == |buf| && offset < r.offset
  {
    var t := Strtok(buf, offset, CRLF);
    if t.start.None? then NoLine else
    match ParseField(t.buf, t.start.value)
    case None => BadLine
    case Some((b, h)) => Line(b, offset + |StringAt(t.buf, t.start.value)| + 2, h)
  }

  /** strncmp(buffer + o, "\r\n", 2) == 0 */
  predicate BlankAt(buf: seq<char>, o: nat) {
    o + 1 < |buf| && buf[o] == '\r' && buf[o + 1] == '\n'
  }

  function ParseHeaders(buf: seq<char>, offset: nat, headers: seq<Header>): (r: Loop)
    requires Terminated(buf)
    decreases |buf| - offset
  {
    if offset >= |buf| then Faulted else
    match ParseLine(buf, offset)
    case NoLine => Stopped(buf, offset, headers)
    case BadLine => Faulted
    case Line(b, o, h) =>
      if o >= |b| then Faulted
      else if BlankAt(b, o) then Stopped(b, o + 2, headers + [h])
      else ParseHeaders(b, o, headers + [h])
  }

  /** The loop stops inside the buffer, which keeps its length and its terminator. */
  lemma {:induction false} StopsInside(buf: seq<char>, offset: nat, headers: seq<Header>)
    requires Terminated(buf)
    ensures var r := ParseHeaders(buf, offset, headers);
      r.Stopped? ==> Terminated(r.buf) && |r.buf| == |buf| && r.offset < |buf|
    decreases |buf| - offset
  {
    hide ParseLine;
    if offset < |buf| && ParseLine(buf, offset).Line? {
      var Line(b, o, h) := ParseLine(buf, offset);
      StopsInside(b, o, headers + [h]);
    }
  }

  datatype Start = Start(buf: seq<char>, offset: nat, verb: string, path: string) | BadStart

  function ParseStart(buf: seq<char>): (r: Start)
    requires Terminated(buf)
    ensures r.Start? ==> Terminated(r.buf) && |r.buf| == |buf|
  {
    var t := Strtok(buf, 0, CRLF);
    if t.start.None? then BadStart else
    StartBehind(Strtok(t.buf, t.start.value, " "), |StringAt(t.buf, t.start.value)| + 2)
  }

  /** From the method on. */
  function StartBehind(m: Token, offset: nat): (r: Start)
    requires Terminated(m.buf) && m.save < |m.buf| && (m.start.Some? ==> m.start.value < |m.buf|)
    ensures r.Start? ==> Terminated(r.buf) && |r.buf| == |m.buf|
  {
    var p := Strtok(m.buf, m.save, " ");
    if m.start.None? || p.start.None? then BadStart else
    var v := Strtok(p.buf, p.save, " ");
    Start(v.buf, offset, StringAt(v.buf, m.start.value), StringAt(v.buf, p.start.value))
  }

  function Parse(buf: seq<char>): Outcome
    requires Terminated(buf)
  {
    match ParseStart(buf)
    case BadStart => Fault
    case Start(b, offset, verb, path) =>
      StopsInside(b, offset, []);
      match ParseHeaders(b, offset, [])
      case Faulted => Fault
      case Stopped(b', o, hs) => Parsed(Request(verb, path, hs, StringAt(b', o)))
  }

  // ---------- The code ----------

  /** The header a line becomes; headers_set lower-cases its name. */
  method HeaderFrom(buffer: array<char>, name: Option<nat>, value: nat) returns (h: Header)
    requires Terminated(buffer[..]) && value < buffer.Length && buffer[value] != NUL
    requires name.Some? ==> name.value < buffer.Length
    ensures var buf := buffer[..];
      h == Header(Lower(if name.None? then "" else StringAt(buf, name.value)),
                  StringAt(buf, if buf[value] == ' ' then value + 1 else value))
  {
    var nameText: Option<string> := None;
    if name.Some? {
      var s := Strdup(buffer, name.value);
      nameText := Some(s);
    }
    var valueText := Strdup(buffer, if buffer[value] == ' ' then value + 1 else value);
    var headers := new Headers();
    headers.Set(nameText, Some(valueText));
    h := headers.fields[0].entry;
  }

  /** The body of the header loop up to the test for the blank line. */
  method ParseLineInPlace(buffer: array<char>, offset: nat) returns (r: Option<Header>, next: nat, fault: bool)
    requires Terminated(buffer[..]) && offset < buffer.Length
    modifies buffer
    ensures Terminated(buffer[..])
    ensures match ParseLine(old(buffer[..]), offset)
      case NoLine => r == None && !fault && next == offset && buffer[..] == old(buffer[..])
      case BadLine => fault
      case Line(b, o, h) => r == Some(h) && !fault && next == o && buffer[..] == b
  {
    hide Strtok, StringAt, Lower;
    var line, save := StrtokInPlace(buffer, offset, CRLF);
    if line.None? {
      return None, offset, false;
    }
    var length := Strlen(buffer, line.value);
    var name, save1 := StrtokInPlace(buffer, line.value, ": ");
    var value, save2 := StrtokInPlace(buffer, save1, "");
    if value.None? {
      return None, offset, true;
    }
    var header := HeaderFrom(buffer, name, value.value);
    return Some(header), offset + length + 2, false;
  }

  /** The request line. */
  method ParseStartInPlace(buffer: array<char>) returns (r: Start)
    requires Terminated(buffer[..])
    modifies buffer
    ensures r == ParseStart(old(buffer[..]))
    ensures r.Start? ==> r.buf == buffer[..]
  {
    hide Strtok, StringAt;
    var line, save := StrtokInPlace(buffer, 0, CRLF);
    if line.None? { return BadStart; }
    var length := Strlen(buffer, line.value);
    var verb, save1 := StrtokInPlace(buffer, line.value, " ");
    var path, save2 := StrtokInPlace(buffer, save1, " ");
    if verb.None? || path.None? { return BadStart; }
    var version, save3 := StrtokInPlace(buffer, save2, " ");
    var verbText := Strdup(buffer, verb.value);
    var pathText := Strdup(buffer, path.value);
    r := Start(buffer[..], length + 2, verbText, pathText);
  }

  /** request_parse. The buffer comes from calloc and is never filled, so its last cell is NUL. */
  method RequestParse(buffer: array<char>) returns (r: Outcome)
    requires Terminated(buffer[..])
    modifies buffer
    ensures r == Parse(old(buffer[..]))
  {
    hide ParseStart, ParseHeaders, StringAt;
    var start := ParseStartInPlace(buffer);
    if start.BadStart? { return Fault; }
    StopsInside(buffer[..], start.offset, []);
    var loop := ParseHeadersInPlace(buffer, start.offset);
    if loop.Faulted? { return Fault; }
    var body := Strdup(buffer, loop.offset);
    r := Parsed(Request(start.verb, start.path, loop.headers, body));
  }

  /** The header loop: `offset` strictly increases and is checked to stay in the buffer. */
  method ParseHeadersInPlace(buffer: array<char>, start: nat) returns (r: Loop)
    requires Terminated(buffer[..])
    modifies buffer
    ensures r == ParseHeaders(old(buffer[..]), start, [])
    ensures r.Stopped? ==> buffer[..] == r.buf
  {
    hide ParseLine;
    var offset := start;
    var headers: seq<Header> := [];
    while true
      invariant Terminated(buffer[..]) && offset >= start
      invariant ParseHeaders(old(buffer[..]), start, []) == ParseHeaders(buffer[..], offset, headers)
      decreases buffer.Length - offset
    {
      if offset >= buffer.Length { return Faulted; }
      var header, next, fault := ParseLineInPlace(buffer, offset);
      if fault { return Faulted; }
      if header.None? { return Stopped(buffer[..], offset, headers); }
      if next >= buffer.Length { return Faulted; }
      if buffer[next] == '\r' && buffer[next + 1] == '\n' {
        return Stopped(buffer[..], next + 2, headers + [header.value]);
      }
      offset, headers := next, headers + [header.value];
    }
  }

  // ---------- Any request made of lines ----------

  /** A line that the first strtok finds whole. */
  predicate PlainLine(s: string) { s != "" && FreeOf(s, CRLF) }

  predicate PlainLines(lines: seq<string>) {
    forall i :: 0 <= i < |lines| ==> PlainLine(lines[i])
  }

  /** Nothing stands behind the delimiter that ends the first token. */
  predicate Bare(line: string) {
    forall e :: 0 < e < |line| - 1 ==> line[e] !in ": " || line[e - 1] in ": "
  }

  predicate SomeBare(lines: seq<string>) {
    exists i :: 0 <= i < |lines| && Bare(lines[i])
  }

  /** The request line has a second word. */
  predicate HasTwoWords(line: string) {
    exists e, k :: 0 < e < k < |line| && line[e - 1] != ' ' && line[e] == ' ' && line[k] != ' '
  }

  /** Name [s..e], and what follows one delimiter and one optional space. */
  function FieldAt(line: string, s: nat, e: nat): Header
    requires s <= e && e + 1 < |line|
  {
    var raw := line[e + 1..];
    Header(Lower(line[s..e]), if raw[0] == ' ' then raw[1..] else raw)
  }

  /** The field in a line: its first token is the name. */
  function FieldOf(line: string): Option<Header> {
    var s, e := TokenStart(line, ": "), TokenEnd(line, ": ");
    if e + 1 >= |line| then None else Some(FieldAt(line, s, e))
  }

  function FieldsOf(lines: seq<string>): (r: seq<Header>)
    requires !SomeBare(lines)
    ensures |r| == |lines|
  {
    seq(|lines|, i requires 0 <= i < |lines| => BareIff(lines[i]); FieldOf(lines[i]).value)
  }

  lemma {:induction false} BareIff(line: string)
    ensures FieldOf(line).None? <==> Bare(line)
  {
    TokenBounds(line, ": ");
    var s, e := TokenStart(line, ": "), TokenEnd(line, ": ");
    hide TokenStart, TokenEnd;
    if e + 1 < |line| {
      assert line[e] in ": " && line[e - 1] !in ": ";
    } else {
      forall k | 0 < k < |line| - 1 ensures line[k] !in ": " || line[k - 1] in ": " {
        assert if k < s then line[k - 1] in ": " else line[k] !in ": ";
      }
    }
  }

  /** The first two words. */
  function StartOf(line: string): Option<(string, string)> {
    var s, e := TokenStart(line, " "), TokenEnd(line, " ");
    if e >= |line| then None else
    var after := line[e + 1..];
    var s', e' := TokenStart(after, " "), TokenEnd(after, " ");
    if s' == |after| then None else Some((line[s..e], after[s'..e']))
  }

  lemma {:induction false} StartIff(line: string)
    ensures StartOf(line).Some? <==> HasTwoWords(line)
  {
    TokenBounds(line, " ");
    var s, e := TokenStart(line, " "), TokenEnd(line, " ");
    hide TokenStart, TokenEnd;
    if e >= |line| {
      forall k | 0 < k < |line| ensures line[k - 1] == ' ' || line[k] != ' ' {
        assert if k < s then line[k - 1] in " " else line[k] !in " ";
      }
    } else {
      var after := line[e + 1..];
      var s' := TokenStart(after, " ");
      TokenBounds(after, " ");
      assert line[e - 1] !in " " && line[e] in " ";
      if s' < |after| {
        assert line[e + 1 + s'] == after[s'];
      } else {
        forall k | e < k < |line| ensures line[k] == ' ' { assert line[k] == after[k - e - 1]; }
        forall k | 0 < k < e ensures line[k - 1] == ' ' || line[k] != ' ' {
          assert if k < s then line[k - 1] in " " else line[k] !in " ";
        }
      }
    }
  }

  /** From the first header on: lines, blank line, body, and whatever calloc left. */
  function Tail(lines: seq<string>, body: string, slack: string): string {
    Lines(lines) + CRLF + body + [NUL] + slack
  }

  /** No token, or nothing behind it. */
  lemma {:induction false} FieldMissing(pre: string, line: string, end: string)
    requires PlainLine(line) && Terminated(pre + line + [NUL] + end) && FieldOf(line) == None
    ensures ParseField(pre + line + [NUL] + end, |pre|) == None
  {
    hide Strtok, StringAt, Lower, TokenStart, TokenEnd;
    var buf, e := pre + line + [NUL] + end, TokenEnd(line, ": ");
    StrtokInside(pre, line, end, ": ");
    TokenBounds(line, ": ");
    if e == |line| {
      assert buf == (pre + line) + "" + [NUL] + end;
      EmptyString(pre + line, end);
    } else {
      var pre1 := pre + line[..e] + [NUL];
      assert buf[|pre| + e := NUL] == pre1 + "" + [NUL] + end;
      EmptyString(pre1, end);
    }
  }

  /** The buffer once the name at [s..e] is cut off. */
  function CutLine(pre: string, line: string, e: nat, end: string): string
    requires e < |line|
  {
    (pre + line[..e] + [NUL]) + line[e + 1..] + [NUL] + end
  }

  lemma CutLineShapes(pre: string, line: string, e: nat, end: string)
    requires PlainLine(line) && e < |line|
    ensures var b, raw := CutLine(pre, line, e, end), line[e + 1..];
      && b == (pre + line[..e] + [NUL]) + raw + [NUL] + end == pre + line[..e] + [NUL] + (raw + [NUL] + end)
      && FreeOf(raw, "")
  {
  }

  lemma {:induction false} CutField(pre: string, line: string, s: nat, e: nat, end: string)
    requires PlainLine(line) && s <= e && e + 1 < |line| && Terminated(CutLine(pre, line, e, end))
    ensures var b := CutLine(pre, line, e, end);
      |pre| + e + 1 < |b| && FieldBehind(Token(Some(|pre| + s), |pre| + e + 1, b)) == Some((b, FieldAt(line, s, e)))
  {
    hide Strtok, StringAt, Lower, CutLine, Terminated, FreeOf;
    var pre1, raw := pre + line[..e] + [NUL], line[e + 1..];
    CutLineShapes(pre, line, e, end);
    FreeOfNul(line);
    TokenInside(pre1, raw, NUL, end, "");
    PieceFound(pre, line, s, e, raw + [NUL] + end);
    ValueInside(pre1, raw, end);
  }

  lemma FreeOfNul(line: string)
    requires PlainLine(line)
    ensures FreeOf(line, "")
  {
  }

  lemma {:induction false} FieldPresent(pre: string, line: string, end: string)
    requires PlainLine(line) && Terminated(pre + line + [NUL] + end) && FieldOf(line).Some?
    ensures ParseField(pre + line + [NUL] + end, |pre|)
         == Some((CutLine(pre, line, TokenEnd(line, ": "), end), FieldOf(line).value))
  {
    hide Strtok, TokenStart, TokenEnd, FieldBehind, FieldAt, FreeOf;
    var s, e := TokenStart(line, ": "), TokenEnd(line, ": ");
    FreeOfNul(line);
    StrtokCuts(pre, line, end, ": ");
    CutField(pre, line, s, e, end);
  }

  lemma BehindLine(pre: string, line: string, e: nat, rest: string)
    requires e < |line|
    ensures var b := CutLine(pre, line, e, "\n" + rest);
      |b| == |pre| + |line| + 2 + |rest| && b[|pre| + |line| + 2..] == rest
  {
  }

  /** The first strtok finds the line. */
  lemma LineCut(pre: string, line: string, rest: string)
    requires PlainLine(line) && Terminated(pre + line + CRLF + rest)
    ensures var b := pre + line + [NUL] + ("\n" + rest);
      && Terminated(b) && |b| == |pre| + |line| + 2 + |rest|
      && Strtok(pre + line + CRLF + rest, |pre|, CRLF) == Token(Some(|pre|), |pre| + |line| + 1, b)
      && StringAt(b, |pre|) == line
  {
    hide Strtok, StringAt;
    var end := "\n" + rest;
    assert pre + line + CRLF + rest == pre + line + ['\r'] + end;
    TokenInside(pre, line, '\r', end, CRLF);
    StringInside(pre, line, end);
  }

  /** One line anywhere in the buffer: it faults exactly when it is bare, the cuts are private to
      it, and the offset moves to the next line. */
  lemma LineExact(pre: string, line: string, rest: string)
    requires PlainLine(line) && Terminated(pre + line + CRLF + rest)
    ensures var r := ParseLine(pre + line + CRLF + rest, |pre|);
      if Bare(line) then r == BadLine else
      && r.Line? && FieldOf(line) == Some(r.header)
      && r.offset == |pre| + |line| + 2 <= |r.buf|
      && r.buf[r.offset..] == rest
  {
    hide Strtok, StringAt, ParseField, FieldOf, Bare, PlainLine;
    BareIff(line);
    var end := "\n" + rest;
    LineCut(pre, line, rest);
    if Bare(line) {
      FieldMissing(pre, line, end);
    } else {
      FieldPresent(pre, line, end);
      hide TokenEnd;
      BehindLine(pre, line, TokenEnd(line, ": "), rest);
      hide CutLine;
    }
  }

  lemma EmptyString(pre: string, end: string)
    requires Terminated(pre + "" + [NUL] + end)
    ensures Strtok(pre + "" + [NUL] + end, |pre|, "").start == None
  {
  }

  lemma ValueInside(pre: string, raw: string, end: string)
    requires raw != "" && FreeOf(raw, "") && Terminated(pre + raw + [NUL] + end)
    ensures var buf := pre + raw + [NUL] + end;
      && buf[|pre|] == raw[0]
      && StringAt(buf, if raw[0] == ' ' then |pre| + 1 else |pre|) == if raw[0] == ' ' then raw[1..] else raw
  {
    hide StringAt;
    StringInside(pre, raw, end);
    assert pre + raw + [NUL] + end == (pre + [raw[0]]) + raw[1..] + [NUL] + end;
    StringInside(pre + [raw[0]], raw[1..], end);
  }

  lemma TailStep(pre: string, lines: seq<string>, body: string, slack: string)
    requires lines != []
    ensures pre + Tail(lines, body, slack) == pre + lines[0] + CRLF + Tail(lines[1..], body, slack)
  {
    hide Lines;
    assert Lines(lines) == lines[0] + CRLF + Lines(lines[1..]) by { LinesUnfold(lines); }
    SuffixKeptApart(lines[0] + CRLF, Lines(lines[1..]), CRLF, body, [NUL], slack);
  }

  lemma LinesUnfold(lines: seq<string>)
    requires lines != []
    ensures Lines(lines) == lines[0] + CRLF + Lines(lines[1..])
  {
  }

  lemma SuffixKeptApart(a: string, b: string, c: string, d: string, e: string, f: string)
    ensures (a + b) + c + d + e + f == a + (b + c + d + e + f)
  {
  }

  /** Only the end of the header section looks like a blank line. */
  lemma TailHead(lines: seq<string>, body: string, slack: string)
    requires PlainLines(lines)
    ensures BlankAt(Tail(lines, body, slack), 0) <==> lines == []
    ensures lines == [] ==> Tail(lines, body, slack)[2..] == body + [NUL] + slack
    ensures |Tail(lines, body, slack)| > 0
  {
    if lines != [] {
      assert PlainLine(lines[0]);
    }
  }

  lemma {:induction false} BareStep(lines: seq<string>)
    requires lines != []
    ensures SomeBare(lines) <==> Bare(lines[0]) || SomeBare(lines[1..])
    ensures !SomeBare(lines) ==> FieldsOf(lines) == [FieldsOf(lines)[0]] + FieldsOf(lines[1..])
  {
    hide Bare, FieldOf;
    if SomeBare(lines) {
      var i :| 0 <= i < |lines| && Bare(lines[i]);
      assert i > 0 ==> lines[1..][i - 1] == lines[i];
    } else {
      FieldsStep(lines);
    }
  }

  lemma {:induction false} FieldsStep(lines: seq<string>)
    requires lines != [] && !SomeBare(lines)
    ensures !SomeBare(lines[1..]) && FieldsOf(lines) == [FieldsOf(lines)[0]] + FieldsOf(lines[1..])
  {
    hide Bare, FieldOf;
    var all, more := FieldsOf(lines), FieldsOf(lines[1..]);
    forall i | 0 <= i < |more| ensures more[i] == all[i + 1] {
      assert lines[1..][i] == lines[i + 1];
    }
  }

  /** The header loop on any lines, wherever they start: it faults if and only if one of them is
      bare, and otherwise takes each line's field and stops right at the body. */
  lemma {:induction false} HeadersExact(pre: string, lines: seq<string>, body: string, slack: string, acc: seq<Header>)
    requires lines != [] && PlainLines(lines)
    requires Terminated(pre + Tail(lines, body, slack))
    ensures var r := ParseHeaders(pre + Tail(lines, body, slack), |pre|, acc);
      if SomeBare(lines) then r == Faulted else
      && r.Stopped? && r.headers == acc + FieldsOf(lines)
      && r.offset <= |r.buf|
      && r.buf[r.offset..] == body + [NUL] + slack
    decreases |lines|
  {
    hide ParseLine, Tail, Bare, SomeBare, FieldOf, PlainLine;
    var rest := Tail(lines[1..], body, slack);
    TailStep(pre, lines, body, slack);
    LineExact(pre, lines[0], rest);
    TailHead(lines[1..], body, slack);
    BareStep(lines);
    if !Bare(lines[0]) {
      var Line(b, o, h) := ParseLine(pre + Tail(lines, body, slack), |pre|);
      assert b == b[..o] + rest;
      if |lines| == 1 {
        assert b[o + 2..] == rest[2..];
        NoneBare(lines[1..]);
        FieldsOfOne(lines);
      } else {
        HeadersExact(b[..o], lines[1..], body, slack, acc + [h]);
        if !SomeBare(lines) {
          FirstField(lines);
          assert acc + [h] + FieldsOf(lines[1..]) == acc + FieldsOf(lines);
        }
      }
    }
  }

  lemma NoneBare(lines: seq<string>)
    requires lines == []
    ensures !SomeBare(lines)
  {
  }

  lemma FieldsOfOne(lines: seq<string>)
    requires |lines| == 1 && !SomeBare(lines)
    ensures FieldOf(lines[0]).Some? && FieldsOf(lines) == [FieldOf(lines[0]).value]
  {
    FirstField(lines);
  }

  lemma FirstField(lines: seq<string>)
    requires lines != [] && !SomeBare(lines)
    ensures FieldOf(lines[0]) == Some(FieldsOf(lines)[0])
  {
    BareIff(lines[0]);
  }

  // ---------- The request line ----------

  /** The request line is consumed whole and nothing behind its terminator is touched. */
  lemma {:induction false} StartExact(line: string, tail: string)
    requires PlainLine(line) && Terminated(line + CRLF + tail)
    ensures var r := ParseStart(line + CRLF + tail);
      match StartOf(line)
      case None => r == BadStart
      case Some((verb, path)) =>
        && r.Start? && r.verb == verb && r.path == path
        && r.offset == |line| + 2 <= |r.buf|
        && r.buf[r.offset..] == tail
  {
    hide Strtok, StringAt, TokenStart, TokenEnd, FreeOf;
    var end, e := "\n" + tail, TokenEnd(line, " ");
    FreeOfNul(line);
    LineCut("", line, tail);
    assert line + CRLF + tail == "" + line + CRLF + tail;
    if e == |line| {
      OneWord(line, end);
    } else {
      hide StartBehind, PlainLine;
      StrtokCuts("", line, end, " ");
      SecondWord(line, TokenStart(line, " "), e, tail, CutLine("", line, e, end));
    }
  }

  lemma {:induction false} OneWord(line: string, end: string)
    requires FreeOf(line, "") && Terminated("" + line + [NUL] + end) && TokenEnd(line, " ") == |line|
    ensures var m := Strtok("" + line + [NUL] + end, 0, " ");
      m.start == None || Strtok(m.buf, m.save, " ").start == None
  {
    hide Strtok, TokenStart, TokenEnd;
    StrtokInside("", line, end, " ");
    TokenBounds(line, " ");
    assert "" + line + [NUL] + end == line + "" + [NUL] + end;
    StrtokInside(line, "", end, " ");
    TokenBounds("", " ");
  }

  /** From the first cut on. */
  lemma {:induction false} SecondWord(line: string, s: nat, e: nat, tail: string, b: string)
    requires PlainLine(line) && s <= e < |line| && b == CutLine("", line, e, "\n" + tail) && Terminated(b)
    ensures var after := line[e + 1..];
      var s', e' := TokenStart(after, " "), TokenEnd(after, " ");
      && |b| == |line| + 2 + |tail|
      && var r := StartBehind(Token(Some(s), e + 1, b), |line| + 2);
      if s' == |after| then r == BadStart
      else
        && r.Start? && r.offset == |line| + 2 && r.verb == line[s..e] && r.path == after[s'..e']
        && r.buf[|line| + 2..] == tail
  {
    hide Strtok, StringAt, TokenStart, TokenEnd, Terminated, CutLine;
    var after := line[e + 1..];
    var s', e' := TokenStart(after, " "), TokenEnd(after, " ");
    PathToken(line, e, tail, b);
    if s' < |after| {
      var p := Strtok(b, e + 1, " ");
      StrtokFrame(p.buf, p.save, " ", |line|);
      var v := Strtok(p.buf, p.save, " ");
      LineKept(line, e, e', tail, p.buf, v.buf);
      WordsKept(line, v.buf, s, e, s', e');
    }
  }

  lemma {:induction false} PathToken(line: string, e: nat, tail: string, b: string)
    requires PlainLine(line) && e < |line| && b == CutLine("", line, e, "\n" + tail) && Terminated(b)
    ensures var after := line[e + 1..];
      var s', e' := TokenStart(after, " "), TokenEnd(after, " ");
      && |b| == |line| + 2 + |tail| && b[|line|] == NUL
      && Strtok(b, e + 1, " ") ==
        if s' == |after| then Token(None, |line|, b)
        else if e + 1 + e' < |line| then Token(Some(e + 1 + s'), e + 2 + e', b[e + 1 + e' := NUL])
        else Token(Some(e + 1 + s'), |line|, b)
  {
    hide Strtok, TokenStart, TokenEnd;
    var pre, after := line[..e] + [NUL], line[e + 1..];
    assert b == pre + after + [NUL] + ("\n" + tail);
    StrtokInside(pre, after, "\n" + tail, " ");
  }

  lemma LineKept(line: string, e: nat, e': nat, tail: string, p: string, v: string)
    requires e < |line| && e' <= |line| - e - 1 && |p| == |v|
    requires var cut := CutLine("", line, e, "\n" + tail);
      p == if e + 1 + e' < |line| then cut[e + 1 + e' := NUL] else cut
    requires var n := if e + 1 + e' < |line| then e + 2 + e' else |line|;
      v[..n] == p[..n] && v[|line|..] == p[|line|..]
    ensures v[e] == NUL && v[e + 1 + e'] == NUL && v[|line| + 2..] == tail
    ensures forall k :: 0 <= k < e + 1 + e' && k != e ==> v[k] == line[k]
  {
    var cut := CutLine("", line, e, "\n" + tail);
    assert v[|line| + 2..] == v[|line|..][2..] == p[|line|..][2..] == cut[|line| + 2..];
    assert v[|line|] == v[|line|..][0] == NUL;
    var n := if e + 1 + e' < |line| then e + 2 + e' else |line|;
    forall k | 0 <= k < n ensures v[k] == p[k] { assert v[..n][k] == p[..n][k]; }
  }

  lemma WordsKept(line: string, buf: string, s: nat, e: nat, s': nat, e': nat)
    requires PlainLine(line) && Terminated(buf) && s <= e < |line| < |buf| && s' <= e' <= |line| - e - 1
    requires forall k :: 0 <= k < e + 1 + e' && k != e ==> buf[k] == line[k]
    requires buf[e] == NUL && buf[e + 1 + e'] == NUL
    ensures StringAt(buf, s) == line[s..e]
    ensures StringAt(buf, e + 1 + s') == line[e + 1..][s'..e']
  {
    hide StringAt;
    StringFound(buf, s, line[s..e]);
    assert line[e + 1..][s'..e'] == line[e + 1 + s'..e + 1 + e'];
    assert buf[e + 1 + s'..e + 1 + e'] == line[e + 1 + s'..e + 1 + e'];
    StringFound(buf, e + 1 + s', line[e + 1 + s'..e + 1 + e']);
  }

  // ---------- Faults and results of the whole parser ----------

  function RawRequest(start: string, lines: seq<string>, body: string, slack: string): string {
    start + CRLF + Tail(lines, body, slack)
  }

  /** Every request of non-empty lines with at least one header line: the parser faults if and only
      if the request line has no second word or some header line is bare, and otherwise gives the
      first two words, the field of every line in order, and the exact body. */
  lemma {:induction false} ParseExact(start: string, lines: seq<string>, body: string, slack: string)
    requires PlainLine(start) && lines != [] && PlainLines(lines) && FreeOf(body, "")
    requires Terminated(RawRequest(start, lines, body, slack))
    ensures StartOf(start).Some? <==> HasTwoWords(start)
    ensures Parse(RawRequest(start, lines, body, slack)) ==
      if !HasTwoWords(start) || SomeBare(lines) then Fault
      else Parsed(Request(StartOf(start).value.0, StartOf(start).value.1, FieldsOf(lines), body))
  {
    hide ParseStart, ParseHeaders, StringAt, StartOf, HasTwoWords, SomeBare, FieldsOf, Tail, PlainLine;
    var tail := Tail(lines, body, slack);
    StartIff(start);
    StartExact(start, tail);
    var text := RawRequest(start, lines, body, slack);
    if HasTwoWords(start) {
      var Start(buf, offset, v, p) := ParseStart(text);
      var pre := buf[..offset];
      assert buf == pre + tail;
      StopsInside(buf, offset, []);
      HeadersExact(pre, lines, body, slack, []);
      if !SomeBare(lines) {
        var r := ParseHeaders(buf, offset, []);
        assert r.buf == r.buf[..r.offset] + body + [NUL] + slack;
        StringInside(r.buf[..r.offset], body, slack);
        assert [] + FieldsOf(lines) == FieldsOf(lines);
      }
    }
  }

  // ---------- Requests without header lines ----------

  lemma {:induction false} HeadersOnlyGrow(buf: seq<char>, offset: nat, acc: seq<Header>)
    requires Terminated(buf)
    ensures var r := ParseHeaders(buf, offset, acc); r.Stopped? ==> acc <= r.headers
    decreases |buf| - offset
  {
    hide ParseLine;
    if offset < |buf| && ParseLine(buf, offset).Line? {
      var Line(b, o, h) := ParseLine(buf, offset);
      HeadersOnlyGrow(b, o, acc + [h]);
    }
  }

  lemma {:induction false} BreaksSkipped(body: string)
    ensures TokenStart(CRLF + body, CRLF) == 2 + TokenStart(body, CRLF)
    ensures TokenEnd(CRLF + body, CRLF) == 2 + TokenEnd(body, CRLF)
  {
    var text := CRLF + body;
    assert text[1..] == "\n" + body && text[1..][1..] == body;
    assert text[0] in CRLF && text[1..][0] in CRLF;
    var s := TokenStart(body, CRLF);
    assert text[2 + s..] == body[s..];
  }

  /** Only breaks: strtok finds nothing, and the blank line stays in front of the body. */
  lemma {:induction false} BreaksOnly(pre: string, body: string, slack: string)
    requires FreeOf(body, "") && Terminated(pre + Tail([], body, slack)) && TokenStart(body, CRLF) == |body|
    ensures var buf := pre + Tail([], body, slack);
      ParseHeaders(buf, |pre|, []) == Stopped(buf, |pre|, []) && StringAt(buf, |pre|) == CRLF + body
  {
    hide Strtok, StringAt, TokenStart, TokenEnd;
    var text := CRLF + body;
    assert pre + Tail([], body, slack) == pre + text + [NUL] + slack;
    BreaksSkipped(body);
    StrtokInside(pre, text, slack, CRLF);
    StringInside(pre, text, slack);
  }

  lemma {:induction false} BodyToken(pre: string, body: string, slack: string, buf: string)
    requires FreeOf(body, "") && Terminated(buf) && buf == pre + (CRLF + body) + [NUL] + slack
    requires TokenStart(body, CRLF) < |body|
    ensures var s, e := TokenStart(body, CRLF), TokenEnd(body, CRLF);
      var t := Strtok(buf, |pre|, CRLF);
      t.start == Some(|pre| + 2 + s) && t.buf == if e == |body| then buf else buf[|pre| + 2 + e := NUL]
  {
    hide Strtok, TokenStart, TokenEnd;
    BreaksSkipped(body);
    StrtokInside(pre, CRLF + body, slack, CRLF);
  }

  lemma {:induction false} FirstBodyLine(body: string)
    requires FreeOf(body, "") && TokenStart(body, CRLF) < |body|
    ensures var line := body[TokenStart(body, CRLF)..TokenEnd(body, CRLF)]; PlainLine(line) && FreeOf(line, "")
  {
    TokenBounds(body, CRLF);
    hide TokenStart, TokenEnd;
  }

  /** The line that strtok finds behind the blank line, with the buffer cut behind it. */
  lemma {:induction false} BodyLineCut(pre: string, body: string, slack: string) returns (end: string)
    requires FreeOf(body, "") && Terminated(pre + Tail([], body, slack)) && TokenStart(body, CRLF) < |body|
    ensures var s, e := TokenStart(body, CRLF), TokenEnd(body, CRLF);
      var line, front := body[s..e], pre + CRLF + body[..s];
      var b := front + line + [NUL] + end;
      && PlainLine(line) && Terminated(b) && |b| == |pre + Tail([], body, slack)|
      && var t := Strtok(pre + Tail([], body, slack), |pre|, CRLF);
         t.start == Some(|front|) && t.buf == b && StringAt(b, |front|) == line
  {
    hide Strtok, StringAt, TokenStart, TokenEnd, Terminated;
    var text, s, e := CRLF + body, TokenStart(body, CRLF), TokenEnd(body, CRLF);
    var buf := pre + text + [NUL] + slack;
    assert pre + Tail([], body, slack) == buf by { assert Lines([]) == ""; }
    hide Tail, FreeOf, PlainLine;
    BodyToken(pre, body, slack, buf);
    FirstBodyLine(body);
    end := if e == |body| then slack else body[e + 1..] + [NUL] + slack;
    BodyShapes(pre, body, s, e, slack, end);
    StringInside(pre + CRLF + body[..s], body[s..e], end);
  }

  lemma BodyShapes(pre: string, body: string, s: nat, e: nat, slack: string, end: string)
    requires s <= e <= |body| && end == if e == |body| then slack else body[e + 1..] + [NUL] + slack
    ensures var b := (pre + CRLF + body[..s]) + body[s..e] + [NUL] + end;
      var buf := pre + (CRLF + body) + [NUL] + slack;
      b == if e == |body| then buf else buf[|pre| + 2 + e := NUL]
  {
  }

  /** A first body line right behind the blank line is taken for a header, and the offset, which does
      not count the blank line, stops at the cut behind it: the body is lost. Behind further breaks
      it stops before that. */
  lemma {:induction false} BodyLineTaken(pre: string, body: string, slack: string)
    requires FreeOf(body, "") && Terminated(pre + Tail([], body, slack)) && TokenStart(body, CRLF) < |body|
    ensures var s, e := TokenStart(body, CRLF), TokenEnd(body, CRLF);
      var line, r := body[s..e], ParseHeaders(pre + Tail([], body, slack), |pre|, []);
      if Bare(line) then r == Faulted
      else if s == 0 then
        && r.Stopped? && Terminated(r.buf) && r.offset < |r.buf| && FieldOf(line).Some?
        && r.headers == [FieldOf(line).value] && StringAt(r.buf, r.offset) == ""
      else r.Stopped? ==> FieldOf(line).Some? && [FieldOf(line).value] <= r.headers
  {
    hide Strtok, StringAt, TokenStart, TokenEnd, ParseField, FieldOf, Bare, Tail;
    var s, e := TokenStart(body, CRLF), TokenEnd(body, CRLF);
    var line, front := body[s..e], pre + CRLF + body[..s];
    var end := BodyLineCut(pre, body, slack);
    BareIff(line);
    var buf := pre + Tail([], body, slack);
    if Bare(line) {
      FieldMissing(front, line, end);
    } else {
      FieldPresent(front, line, end);
      var b, h := CutLine(front, line, TokenEnd(line, ": "), end), FieldOf(line).value;
      assert ParseLine(buf, |pre|) == Line(b, |pre| + |line| + 2, h);
      assert [] + [h] == [h];
      HeadersOnlyGrow(b, |pre| + |line| + 2, [h]);
      if s == 0 {
        CutStays(front, line, TokenEnd(line, ": "), end);
        StopsAtNul(b, |front| + |line|, [h]);
      }
    }
  }

  lemma CutStays(pre: string, line: string, e: nat, end: string)
    requires e < |line|
    ensures |pre| + |line| < |CutLine(pre, line, e, end)| && CutLine(pre, line, e, end)[|pre| + |line|] == NUL
  {
  }

  lemma StopsAtNul(buf: string, p: nat, acc: seq<Header>)
    requires Terminated(buf) && p < |buf| && buf[p] == NUL
    ensures ParseHeaders(buf, p, acc) == Stopped(buf, p, acc) && !BlankAt(buf, p) && StringAt(buf, p) == ""
  {
    assert Strtok(buf, p, CRLF) == Token(None, p, buf);
  }

  /** Every request without header lines. The parser faults if the request line has no second word,
      or the first line of the body is bare; a body of line breaks comes back with the blank line in
      front of it; otherwise the first body line becomes a header, and right behind the blank line it
      is all that is left of the body. */
  lemma {:induction false} HeaderlessExact(start: string, body: string, slack: string)
    requires PlainLine(start) && FreeOf(body, "") && Terminated(RawRequest(start, [], body, slack))
    ensures StartOf(start).Some? <==> HasTwoWords(start)
    ensures var r := Parse(RawRequest(start, [], body, slack));
      var s, e := TokenStart(body, CRLF), TokenEnd(body, CRLF);
      var line := body[s..e];
      if !HasTwoWords(start) then r == Fault else
      var (verb, path) := StartOf(start).value;
      if s == |body| then r == Parsed(Request(verb, path, [], CRLF + body))
      else if Bare(line) then r == Fault
      else
        && FieldOf(line).Some?
        && if s == 0 then r == Parsed(Request(verb, path, [FieldOf(line).value], ""))
           else r.Parsed? ==> [FieldOf(line).value] <= r.request.headers
  {
    hide ParseStart, ParseHeaders, StringAt, StartOf, HasTwoWords, Tail, PlainLine, TokenStart, TokenEnd, FieldOf, Bare;
    var tail, text := Tail([], body, slack), RawRequest(start, [], body, slack);
    var s, e := TokenStart(body, CRLF), TokenEnd(body, CRLF);
    StartIff(start);
    StartExact(start, tail);
    BareIff(body[s..e]);
    if HasTwoWords(start) {
      var Start(buf, offset, v, p) := ParseStart(text);
      var pre := buf[..offset];
      assert buf == pre + tail;
      StopsInside(buf, offset, []);
      if s == |body| {
        BreaksOnly(pre, body, slack);
      } else {
        BodyLineTaken(pre, body, slack);
      }
    }
  }

  // ---------- Requests that end before the blank line ----------

  lemma CutTailStep(pre: string, lines: seq<string>, slack: string)
    requires lines != []
    ensures pre + Lines(lines) + [NUL] + slack == pre + lines[0] + CRLF + (Lines(lines[1..]) + [NUL] + slack)
  {
    LinesUnfold(lines);
    hide Lines;
    Grouped(pre, lines[0], Lines(lines[1..]), slack);
  }

  lemma Grouped(pre: string, line: string, more: string, slack: string)
    ensures pre + (line + CRLF + more) + [NUL] + slack == pre + line + CRLF + (more + [NUL] + slack)
  {
  }

  /** Where the text ends behind a line break, the loop stops with the headers so far and an empty
      body. */
  lemma {:induction false} HeadersCutOff(pre: string, lines: seq<string>, slack: string, acc: seq<Header>)
    requires PlainLines(lines) && Terminated(pre + Lines(lines) + [NUL] + slack)
    ensures var r := ParseHeaders(pre + Lines(lines) + [NUL] + slack, |pre|, acc);
      if SomeBare(lines) then r == Faulted else
      && r.Stopped? && Terminated(r.buf) && r.offset < |r.buf|
      && r.headers == acc + FieldsOf(lines) && StringAt(r.buf, r.offset) == ""
    decreases |lines|
  {
    hide ParseLine, Bare, SomeBare, FieldOf, PlainLine, StringAt;
    if lines == [] {
      NoneBare(lines);
      assert (pre + Lines(lines) + [NUL] + slack)[|pre|] == NUL;
      StopsAtNul(pre + Lines(lines) + [NUL] + slack, |pre|, acc);
      assert acc + [] == acc && FieldsOf(lines) == [];
    } else {
      var rest := Lines(lines[1..]) + [NUL] + slack;
      CutTailStep(pre, lines, slack);
      LineExact(pre, lines[0], rest);
      BareStep(lines);
      if !Bare(lines[0]) {
        var Line(b, o, h) := ParseLine(pre + lines[0] + CRLF + rest, |pre|);
        assert b == b[..o] + Lines(lines[1..]) + [NUL] + slack;
        assert !BlankAt(b, o) by { NotBlank(lines[1..], slack, b, o); }
        HeadersCutOff(b[..o], lines[1..], slack, acc + [h]);
        if !SomeBare(lines) {
          FirstField(lines);
          assert acc + [h] + FieldsOf(lines[1..]) == acc + FieldsOf(lines);
        }
      }
    }
  }

  lemma NotBlank(lines: seq<string>, slack: string, b: string, o: nat)
    requires PlainLines(lines) && o <= |b| && b[o..] == Lines(lines) + [NUL] + slack
    ensures !BlankAt(b, o)
  {
    assert |b[o..]| > 0 && b[o] == b[o..][0];
    if lines != [] {
      assert PlainLine(lines[0]);
    }
  }

  /** A request that ends behind its last header line: the parser faults exactly as with a blank line,
      and otherwise gives the same with an empty body. */
  lemma {:induction false} ParseCutOff(start: string, lines: seq<string>, slack: string)
    requires PlainLine(start) && PlainLines(lines) && Terminated(start + CRLF + (Lines(lines) + [NUL] + slack))
    ensures StartOf(start).Some? <==> HasTwoWords(start)
    ensures Parse(start + CRLF + (Lines(lines) + [NUL] + slack)) ==
      if !HasTwoWords(start) || SomeBare(lines) then Fault
      else Parsed(Request(StartOf(start).value.0, StartOf(start).value.1, FieldsOf(lines), ""))
  {
    hide ParseStart, ParseHeaders, StringAt, StartOf, HasTwoWords, SomeBare, FieldsOf, PlainLine, Lines;
    var tail := Lines(lines) + [NUL] + slack;
    StartIff(start);
    StartExact(start, tail);
    if HasTwoWords(start) {
      var Start(buf, offset, v, p) := ParseStart(start + CRLF + tail);
      var pre := buf[..offset];
      assert buf == pre + Lines(lines) + [NUL] + slack;
      StopsInside(buf, offset, []);
      HeadersCutOff(pre, lines, slack, []);
      if !SomeBare(lines) {
        assert [] + FieldsOf(lines) == FieldsOf(lines);
      }
    }
  }

  /** A last line that is not ended at all: the offset counts a line break that is not there, so the
      loop goes on two places behind the terminator. In a buffer with nothing but NULs left it stops
      there; in one that is full it has left the buffer. */
  lemma {:induction false} LastLineUnended(pre: string, line: string, slack: string, acc: seq<Header>)
    requires PlainLine(line) && Terminated(pre + line + [NUL] + slack)
    requires forall i :: 0 <= i < |slack| ==> slack[i] == NUL
    ensures var r := ParseHeaders(pre + line + [NUL] + slack, |pre|, acc);
      if Bare(line) || |slack| < 2 then r == Faulted else
      && r.Stopped? && Terminated(r.buf) && r.offset < |r.buf| && FieldOf(line).Some?
      && r.headers == acc + [FieldOf(line).value] && StringAt(r.buf, r.offset) == ""
  {
    hide Strtok, StringAt, ParseField, FieldOf, Bare, TokenStart, TokenEnd;
    var buf := pre + line + [NUL] + slack;
    BareIff(line);
    LineToEnd(pre, line, slack);
    if Bare(line) {
      FieldMissing(pre, line, slack);
    } else {
      FieldPresent(pre, line, slack);
      var b, h, o := CutLine(pre, line, TokenEnd(line, ": "), slack), FieldOf(line).value, |pre| + |line| + 2;
      assert ParseLine(buf, |pre|) == Line(b, o, h);
      if |slack| >= 2 {
        SlackStays(pre, line, TokenEnd(line, ": "), slack);
        StopsAtNul(b, o, acc + [h]);
      } else {
        CutLength(pre, line, TokenEnd(line, ": "), slack);
      }
    }
  }

  lemma {:induction false} LineToEnd(pre: string, line: string, slack: string)
    requires PlainLine(line) && Terminated(pre + line + [NUL] + slack)
    ensures var buf := pre + line + [NUL] + slack;
      Strtok(buf, |pre|, CRLF) == Token(Some(|pre|), |pre| + |line|, buf) && StringAt(buf, |pre|) == line
  {
    hide Strtok, StringAt;
    TokenInside(pre, line, NUL, slack, CRLF);
    StringInside(pre, line, slack);
  }

  lemma CutLength(pre: string, line: string, e: nat, slack: string)
    requires e < |line|
    ensures |CutLine(pre, line, e, slack)| == |pre| + |line| + 1 + |slack|
  {
  }

  lemma SlackStays(pre: string, line: string, e: nat, slack: string)
    requires e < |line| && |slack| >= 2 && forall i :: 0 <= i < |slack| ==> slack[i] == NUL
    ensures var b := CutLine(pre, line, e, slack); |pre| + |line| + 2 < |b| && b[|pre| + |line| + 2] == NUL
  {
    assert CutLine(pre, line, e, slack)[|pre| + |line| + 2] == slack[1];
  }

  // ---------- Round trip ----------

  predicate LegalToken(s: string) { s != "" && FreeOf(s, " \r\n") }
  predicate LegalName(s: string) { s != "" && FreeOf(s, ": \r\n") }
  predicate LegalText(s: string) { FreeOf(s, CRLF) }

  predicate LegalHeaders(hs: seq<Header>) {
    forall i :: 0 <= i < |hs| ==> LegalName(hs[i].name) && LegalText(hs[i].value)
  }

  function LowerNames(hs: seq<Header>): (r: seq<Header>)
    ensures |r| == |hs|
  {
    seq(|hs|, i requires 0 <= i < |hs| => Header(Lower(hs[i].name), hs[i].value))
  }

  /** The same headers, with the names in lower case. */
  predicate LowerCased(got: seq<Header>, hs: seq<Header>) {
    |got| == |hs| && forall i :: 0 <= i < |hs| ==>
      SameLetters(got[i].name, hs[i].name) && NoCapital(got[i].name) && got[i].value == hs[i].value
  }

  lemma LowerNamesExact(hs: seq<Header>)
    ensures LowerCased(LowerNames(hs), hs)
  {
    forall i | 0 <= i < |hs|
      ensures SameLetters(LowerNames(hs)[i].name, hs[i].name) && NoCapital(LowerNames(hs)[i].name)
    {
      LowerExact(hs[i].name);
    }
  }

  function RequestText(verb: string, path: string, version: string,
                       hs: seq<Header>, body: string, slack: string): string {
    (verb + " " + path + " " + version) + CRLF + HeadersText(hs) + CRLF + body + [NUL] + slack
  }

  lemma PrintedLine(h: Header)
    requires LegalName(h.name) && LegalText(h.value)
    ensures PlainLine(HeaderLine(h)) && FieldOf(HeaderLine(h)) == Some(Header(Lower(h.name), h.value))
  {
    hide Lower;
    var line := HeaderLine(h);
    assert forall i :: 0 <= i < |h.name| ==> line[i] == h.name[i];
    assert line[|h.name|] == ':';
    TokenUnique(line, ": ", 0, |h.name|);
    hide TokenStart, TokenEnd;
    assert line[..|h.name|] == h.name;
    assert line[|h.name| + 1..] == " " + h.value;
    assert (" " + h.value)[1..] == h.value;
  }

  lemma PrintedHeaders(hs: seq<Header>)
    requires LegalHeaders(hs)
    ensures PlainLines(HeaderLines(hs)) && !SomeBare(HeaderLines(hs)) && FieldsOf(HeaderLines(hs)) == LowerNames(hs)
  {
    hide HeaderLine, Bare, FieldOf, Lower, PlainLine, LegalName, LegalText;
    forall i | 0 <= i < |hs|
      ensures PlainLine(HeaderLines(hs)[i]) && !Bare(HeaderLines(hs)[i])
      ensures FieldOf(HeaderLines(hs)[i]) == Some(LowerNames(hs)[i])
    {
      PrintedLine(hs[i]);
      BareIff(HeaderLine(hs[i]));
    }
  }

  lemma FirstWord(word: string, rest: string)
    requires LegalToken(word)
    ensures TokenStart(word + " " + rest, " ") == 0 && TokenEnd(word + " " + rest, " ") == |word|
  {
    var line := word + " " + rest;
    assert forall i :: 0 <= i < |word| ==> line[i] == word[i];
    TokenUnique(line, " ", 0, |word|);
  }

  lemma PrintedStart(verb: string, path: string, version: string)
    requires LegalToken(verb) && LegalToken(path) && LegalText(version)
    ensures var line := verb + " " + path + " " + version;
      PlainLine(line) && StartOf(line) == Some((verb, path))
  {
    var line, after := verb + " " + path + " " + version, path + " " + version;
    assert line == verb + " " + after;
    FirstWord(verb, after);
    FirstWord(path, version);
    hide TokenStart, TokenEnd;
    assert line[..|verb|] == verb && line[|verb| + 1..] == after;
    assert after[..|path|] == path;
  }

  /** The round trip: printing a request and parsing it gives the method, the path, the headers in
      order with lower-case names and exact values, and the exact body -- if and only if there is
      at least one header. */
  lemma {:induction false} RoundTripIff(verb: string, path: string, version: string,
                                        hs: seq<Header>, body: string, slack: string)
    requires LegalToken(verb) && LegalToken(path) && LegalText(version)
    requires LegalHeaders(hs) && FreeOf(body, "")
    requires Terminated(RequestText(verb, path, version, hs, body, slack))
    ensures var r := Parse(RequestText(verb, path, version, hs, body, slack));
      (r.Parsed? && r.request.verb == verb && r.request.path == path && r.request.body == body
       && LowerCased(r.request.headers, hs))
      <==> hs != []
  {
    hide ParseStart, StringAt, ParseHeaders, Lower, StartOf, LegalToken, LegalHeaders, PlainLine, HasTwoWords,
      SomeBare, FieldsOf, LowerNames, HeaderLines, HeadersText, Lines;
    var start, lines := verb + " " + path + " " + version, HeaderLines(hs);
    PrintedStart(verb, path, version);
    PrintedHeaders(hs);
    LinesOfHeaders(hs);
    var text := RequestText(verb, path, version, hs, body, slack);
    assert text == RawRequest(start, lines, body, slack);
    if hs != [] {
      ParseExact(start, lines, body, slack);
      LowerNamesExact(hs);
    } else {
      assert lines == [];
      HeaderlessExact(start, body, slack);
    }
  }
}
