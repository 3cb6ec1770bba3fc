/** The writing half of phase2/src/server/context.ts: chunked responses on a kept-alive socket,
    measured against the reader of MessageReader. A chunk is the bytes that Buffer.from produced. */
module Chunked {
  import opened Options
  import opened Text
  import opened Numerals
  import opened Headers
  import opened MessageReader

  function StartLine(status: int): string {
    "HTTP/1.1" + " " + PrintInt(status)
  }

  function DateHeader(date: string): Header { Header("Date", date) }
  function ConnectionHeader(): Header { Header("Connection", "Keep-Alive") }
  function KeepAliveHeader(): Header { Header("Keep-Alive", "timeout=5") }
  function EncodingHeader(): Header { Header("Transfer-Encoding", "chunked") }
  function ServerHeader(): Header { Header("Server", "Node.js Only") }

  /** The fields of every head, with the clock's date as a parameter. */
  function FixedHeaders(date: string): seq<Header> {
    [DateHeader(date), ConnectionHeader(), KeepAliveHeader(), EncodingHeader(), ServerHeader()]
  }

  function FixedText(status: int, date: string): string {
    StartLine(status) + CRLF + (HeaderLine(DateHeader(date)) + CRLF) + (HeaderLine(ConnectionHeader()) + CRLF)
    + (HeaderLine(KeepAliveHeader()) + CRLF) + (HeaderLine(EncodingHeader()) + CRLF)
    + (HeaderLine(ServerHeader()) + CRLF)
  }

  function HeadLines(status: int, date: string, headers: seq<Header>): seq<string> {
    [StartLine(status)] + HeaderLines(FixedHeaders(date) + headers)
  }

  function Chunk(data: string): string {
    Print(|data|, Hex) + CRLF + data + CRLF
  }

  const LAST_CHUNK: string := "0" + CRLF + CRLF

  class HttpContext {
    /** Everything written to the socket so far. */
    var sent: string

    constructor ()
      ensures sent == ""
    {
      sent := "";
    }

    method Write(s: string)
      modifies this
      ensures sent == old(sent) + s
    {
      sent := sent + s;
    }

    /** The status line and the fields of every response. */
    method WriteFixed(status: int, date: string)
      modifies this
      ensures sent == old(sent) + FixedText(status, date)
    {
      hide StartLine, DateHeader, ConnectionHeader, KeepAliveHeader, EncodingHeader, ServerHeader, HeaderLine;
      Write(StartLine(status) + CRLF);
      Write(HeaderLine(DateHeader(date)) + CRLF);
      Write(HeaderLine(ConnectionHeader()) + CRLF);
      Write(HeaderLine(KeepAliveHeader()) + CRLF);
      Write(HeaderLine(EncodingHeader()) + CRLF);
      Write(HeaderLine(ServerHeader()) + CRLF);
    }

    method WriteHeaders(status: int, date: string, headers: seq<Header>)
      modifies this
      ensures sent == old(sent) + Lines(HeadLines(status, date, headers)) + CRLF
    {
      ghost var before, lines := sent, HeadLines(status, date, headers);
      hide FixedText, Lines, HeaderLine, HeadLines;
      FixedLines(status, date, headers);
      OwnLines(status, date, headers);
      WriteFixed(status, date);
      var i := 0;
      while i < |headers|
        invariant i <= |headers|
        invariant sent == before + Lines(lines[..6 + i])
      {
        assert lines[6 + i] == HeaderLine(headers[i]);
        LinesSnoc(lines, 6 + i);
        Write(HeaderLine(headers[i]) + CRLF);
        i := i + 1;
      }
      assert lines[..6 + i] == lines;
      Write(CRLF);
    }

    method WriteBody(data: string)
      modifies this
      ensures sent == old(sent) + Chunk(data)
    {
      Write(Print(|data|, Hex) + CRLF);
      Write(data);
      Write(CRLF);
    }

    method EndBody()
      modifies this
      ensures sent == old(sent) + LAST_CHUNK
    {
      Write("0" + CRLF);
      Write(CRLF);
    }

    method Redirect(url: string, date: string, headers: seq<Header>)
      modifies this
      ensures sent == old(sent) + Emit(Reply(302, date, [Header("Location", url)] + headers, []))
    {
      WriteHeaders(302, date, [Header("Location", url)] + headers);
      EndBody();
    }
  }

  lemma OwnLines(status: int, date: string, headers: seq<Header>)
    ensures var lines := HeadLines(status, date, headers);
      |lines| == 6 + |headers| && forall i :: 0 <= i < |headers| ==> lines[6 + i] == HeaderLine(headers[i])
  {
    hide HeaderLine;
  }

  lemma FixedLines(status: int, date: string, headers: seq<Header>)
    ensures |HeadLines(status, date, headers)| >= 6
    ensures Lines(HeadLines(status, date, headers)[..6]) == FixedText(status, date)
  {
    hide StartLine, HeaderLine, DateHeader, ConnectionHeader, KeepAliveHeader, EncodingHeader, ServerHeader;
    var lines := HeadLines(status, date, headers);
    assert lines[..0] == [];
    LinesSnoc(lines, 0);
    LinesSnoc(lines, 1);
    LinesSnoc(lines, 2);
    LinesSnoc(lines, 3);
    LinesSnoc(lines, 4);
    LinesSnoc(lines, 5);
  }

  lemma {:induction false} LinesSnoc(lines: seq<string>, i: nat)
    requires i < |lines|
    ensures Lines(lines[..i + 1]) == Lines(lines[..i]) + lines[i] + CRLF
    decreases |lines|
  {
    if i == 0 {
      assert lines[..1][1..] == [] && lines[..0] == [];
    } else {
      assert lines[..i + 1][1..] == lines[1..][..i] && lines[..i][1..] == lines[1..][..i - 1];
      LinesSnoc(lines[1..], i - 1);
    }
  }

  /** The head, byte for byte. */
  lemma HeadText(status: int, date: string, headers: seq<Header>)
    ensures Lines(HeadLines(status, date, headers)) ==
      "HTTP/1.1 " + PrintInt(status) + "\r\n" + ("Date: " + date + "\r\n") + "Connection: Keep-Alive\r\n"
      + "Keep-Alive: timeout=5\r\n" + "Transfer-Encoding: chunked\r\n" + "Server: Node.js Only\r\n"
      + HeadersText(headers)
  {
    hide StartLine, HeaderLine, DateHeader, ConnectionHeader, KeepAliveHeader, EncodingHeader, ServerHeader, Lines,
      HeadersText, PrintInt;
    var lines := HeadLines(status, date, headers);
    FixedLines(status, date, headers);
    OwnLines(status, date, headers);
    assert lines[6..] == HeaderLines(headers);
    assert lines == lines[..6] + lines[6..];
    LinesConcat(lines[..6], lines[6..]);
    LinesOfHeaders(headers);
    StartText(status, date);
    ConnectionText();
    EncodingText();
  }

  lemma StartText(status: int, date: string)
    ensures StartLine(status) + CRLF == "HTTP/1.1 " + PrintInt(status) + "\r\n"
    ensures HeaderLine(DateHeader(date)) + CRLF == "Date: " + date + "\r\n"
  {
    hide PrintInt;
    assert "HTTP/1.1" + " " == "HTTP/1.1 " && "Date" + ": " == "Date: ";
  }

  lemma ConnectionText()
    ensures HeaderLine(ConnectionHeader()) + CRLF == "Connection: Keep-Alive\r\n"
    ensures HeaderLine(KeepAliveHeader()) + CRLF == "Keep-Alive: timeout=5\r\n"
  {
  }

  lemma EncodingText()
    ensures HeaderLine(EncodingHeader()) + CRLF == "Transfer-Encoding: chunked\r\n"
    ensures HeaderLine(ServerHeader()) + CRLF == "Server: Node.js Only\r\n"
  {
  }

  /** One response as the handlers produce it: headers, chunks, end. */
  datatype Reply = Reply(status: int, date: string, headers: seq<Header>, chunks: seq<string>)

  function Chunks(chunks: seq<string>): string {
    if chunks == [] then "" else Chunk(chunks[0]) + Chunks(chunks[1..])
  }

  function EmitBody(chunks: seq<string>): string {
    Chunks(chunks) + LAST_CHUNK
  }

  function Emit(r: Reply): string {
    Lines(HeadLines(r.status, r.date, r.headers)) + CRLF + EmitBody(r.chunks)
  }

  function Concat(chunks: seq<string>): string {
    if chunks == [] then "" else chunks[0] + Concat(chunks[1..])
  }

  // ---------- Round trip ----------

  lemma SizeIsPlain(n: nat)
    ensures '\r' !in Print(n, Hex) && ';' !in Print(n, Hex) && ' ' !in Print(n, Hex)
  {
  }

  /** What the decoder sees at the start of any chunk. */
  lemma ChunkHead(data: string, rest: string)
    ensures var s := Chunk(data) + rest;
      && IndexOf(s, CRLF).Some?
      && var i := IndexOf(s, CRLF).value;
      && i + 2 <= |s| && ChunkSize(s[..i]) == Some(|data|) && s[i + 2..] == data + CRLF + rest
  {
    hide Print, IndexOf, Read;
    var size := Print(|data|, Hex);
    var s := Chunk(data) + rest;
    assert s == size + CRLF + (data + CRLF + rest);
    SizeIsPlain(|data|);
    LacksSeparator(size, CRLF, '\r');
    LacksSeparator(size, ";", ';');
    FirstSeparator(size, CRLF, data + CRLF + rest);
    assert s[..|size|] == size && s[|size| + 2..] == data + CRLF + rest;
    PrintRead(|data|, Hex);
  }

  /** An empty chunk is the last chunk: its bytes are the terminator's. */
  lemma EmptyChunkEnds(rest: string)
    ensures Chunk("") == LAST_CHUNK
    ensures Decode(LAST_CHUNK + rest) == Some(("", rest))
  {
    assert Print(0, Hex) == "0";
    assert "0" + CRLF + "" + CRLF == LAST_CHUNK;
    ChunkHead("", rest);
    assert "" + CRLF + rest == Lines([]) + CRLF + rest;
    LinesRead([], rest);
  }

  lemma FullChunkDecodes(data: string, rest: string)
    requires data != ""
    ensures Decode(Chunk(data) + rest) ==
      match Decode(rest) case None => None case Some((body, tail)) => Some((data + body, tail))
  {
    hide Chunk, ChunkSize;
    ChunkHead(data, rest);
    var d := data + CRLF + rest;
    assert d[|data|..|data| + 2] == CRLF && d[..|data|] == data && d[|data| + 2..] == rest;
  }

  /** The first empty chunk, or the end of the list. */
  function FirstEmpty(chunks: seq<string>): (k: nat)
    ensures k <= |chunks| && (k < |chunks| ==> chunks[k] == "")
    ensures k == |chunks| <==> "" !in chunks
  {
    if chunks == [] || chunks[0] == "" then 0 else 1 + FirstEmpty(chunks[1..])
  }

  /** The decoder returns the chunks before the first empty one; what follows that chunk, the
      terminator included, is left for whoever reads next. */
  lemma {:induction false} DecodeExact(chunks: seq<string>, trailing: string)
    ensures var k := FirstEmpty(chunks);
      Decode(EmitBody(chunks) + trailing) ==
      Some((Concat(chunks[..k]), if k == |chunks| then trailing else EmitBody(chunks[k + 1..]) + trailing))
    decreases |chunks|
  {
    hide Chunk, Decode;
    if chunks == [] {
      EmptyChunkEnds(trailing);
      assert EmitBody(chunks) == LAST_CHUNK;
    } else {
      var rest := EmitBody(chunks[1..]) + trailing;
      assert EmitBody(chunks) + trailing == Chunk(chunks[0]) + rest;
      if chunks[0] == "" {
        EmptyChunkEnds(rest);
      } else {
        FullChunkDecodes(chunks[0], rest);
        DecodeExact(chunks[1..], trailing);
        var k := FirstEmpty(chunks);
        assert chunks[..k][1..] == chunks[1..][..k - 1];
        if k < |chunks| {
          assert chunks[k + 1..] == chunks[1..][k..];
        }
      }
    }
  }

  lemma BodyRoundTripIff(chunks: seq<string>, trailing: string)
    ensures Decode(EmitBody(chunks) + trailing) == Some((Concat(chunks), trailing)) <==> "" !in chunks
  {
    hide Decode, Chunk;
    DecodeExact(chunks, trailing);
    var k := FirstEmpty(chunks);
    if k == |chunks| {
      assert chunks[..k] == chunks;
    } else {
      assert |EmitBody(chunks[k + 1..]) + trailing| > |trailing|;
    }
  }

  // ---------- Whole responses, back to back ----------

  predicate CleanReply(r: Reply) {
    AllPrintable(r.headers) && !Contains(r.date, CRLF)
  }

  /** The start line has no space behind the status. */
  lemma StartLineRead(policy: Policy, status: int)
    ensures ReadStatus(policy, StartLine(status))
         == if policy.statusAlone && 100 <= status <= 999 then Some((status, "")) else None
    ensures StartLine(status) != "" && !Contains(StartLine(status), CRLF)
  {
    hide PrintInt, Read, Contains, Split;
    NumberIsPlain(status);
    LacksSeparator("HTTP/1.1", " ", ' ');
    LacksSeparator(PrintInt(status), " ", ' ');
    SplitOnce("HTTP/1.1", " ", PrintInt(status));
    assert Split(PrintInt(status), " ") == [PrintInt(status)] by { SplitNone(PrintInt(status)); }
    StatusNumber(status);
    LacksSeparator(StartLine(status), CRLF, '\r');
  }

  lemma PlainPrintable(h: Header)
    requires h.name != "" && (forall k :: 0 <= k < |h.name| ==> h.name[k] > ' ' && h.name[k] != ':')
    requires !Contains(h.value, CRLF)
    ensures Printable(h)
  {
    hide Contains;
    LacksSeparator(h.name, ":", ':');
    LacksSeparator(h.name, CRLF, '\r');
  }

  lemma FixedPrintable(date: string)
    requires !Contains(date, CRLF)
    ensures AllPrintable(FixedHeaders(date))
  {
    hide Contains, Printable, ConnectionHeader, KeepAliveHeader, EncodingHeader, ServerHeader;
    PlainPrintable(DateHeader(date));
    ConnectionPrintable();
    KeepAlivePrintable();
    EncodingPrintable();
    ServerPrintable();
  }

  lemma ConnectionPrintable()
    ensures Printable(ConnectionHeader())
  {
    hide Contains, Printable;
    LacksSeparator("Keep-Alive", CRLF, '\r');
    PlainPrintable(ConnectionHeader());
  }

  lemma KeepAlivePrintable()
    ensures Printable(KeepAliveHeader())
  {
    hide Contains, Printable;
    LacksSeparator("timeout=5", CRLF, '\r');
    PlainPrintable(KeepAliveHeader());
  }

  lemma EncodingPrintable()
    ensures Printable(EncodingHeader())
  {
    hide Contains, Printable;
    LacksSeparator("chunked", CRLF, '\r');
    PlainPrintable(EncodingHeader());
  }

  lemma ServerPrintable()
    ensures Printable(ServerHeader())
  {
    hide Contains, Printable;
    LacksSeparator("Node.js Only", CRLF, '\r');
    PlainPrintable(ServerHeader());
  }

  lemma FieldSkipped(h: Header, hs: seq<Header>, name: string)
    requires |h.name| != |name|
    ensures FieldValues([h] + hs, name) == FieldValues(hs, name)
  {
    assert ([h] + hs)[1..] == hs;
  }

  /** Among the fixed fields only Transfer-Encoding bears on the framing. */
  lemma FixedFieldValues(date: string, name: string)
    requires name == TransferEncoding() || name == ContentLength()
    ensures FieldValues(Trimmed(FixedHeaders(date)), name)
         == if name == TransferEncoding() then [ChunkedCoding()] else []
  {
    hide Trim, Lower, FieldValues;
    var fixed := Trimmed(FixedHeaders(date));
    assert fixed == [fixed[0]] + fixed[1..] && fixed[1..] == [fixed[1]] + fixed[2..];
    assert fixed[2..] == [fixed[2]] + fixed[3..] && fixed[3..] == [fixed[3]] + fixed[4..];
    assert fixed[4..] == [fixed[4]] + [];
    FieldSkipped(fixed[0], fixed[1..], name);
    FieldSkipped(fixed[1], fixed[2..], name);
    FieldSkipped(fixed[2], fixed[3..], name);
    FieldSkipped(fixed[4], [], name);
    LastField(fixed[3], fixed[4..], name);
  }

  lemma LastField(h: Header, hs: seq<Header>, name: string)
    requires h == Header("Transfer-Encoding", Trim("chunked")) && FieldValues(hs, name) == FieldValues([], name)
    requires name == TransferEncoding() || name == ContentLength()
    ensures FieldValues([h] + hs, name) == if name == TransferEncoding() then [ChunkedCoding()] else []
  {
    hide Trim, Lower;
    assert ([h] + hs)[1..] == hs;
    EncodingField();
  }

  lemma EncodingField()
    ensures Lower("Transfer-Encoding") == TransferEncoding()
    ensures Trim("chunked") == ChunkedCoding() && Plain(ChunkedCoding())
  {
    assert Lower("chunked") == "chunked";
  }

  lemma NamesDiffer()
    ensures TransferEncoding() != ContentLength()
  {
    assert |TransferEncoding()| != |ContentLength()|;
  }

  lemma FramingFields(date: string, own: seq<Header>)
    ensures var all := Trimmed(FixedHeaders(date) + own);
      && FieldValues(all, TransferEncoding()) != []
      && Codings(all) == [ChunkedCoding()] + Codings(Trimmed(own))
      && FieldValues(all, ContentLength()) == FieldValues(Trimmed(own), ContentLength())
  {
    hide Trim, Members, FixedHeaders, FieldValues, Plain, TransferEncoding, ContentLength, ChunkedCoding;
    var fixed, rest := Trimmed(FixedHeaders(date)), Trimmed(own);
    assert Trimmed(FixedHeaders(date) + own) == fixed + rest;
    FixedFieldValues(date, TransferEncoding());
    FixedFieldValues(date, ContentLength());
    NamesDiffer();
    FieldValuesConcat(fixed, rest, TransferEncoding());
    FieldValuesConcat(fixed, rest, ContentLength());
    EncodingField();
    PlainMember(ChunkedCoding(), FieldValues(rest, TransferEncoding()));
  }

  /** The handler's own headers leave the framing alone. */
  predicate Unframed(policy: Policy, own: seq<Header>) {
    Codings(own) == [] && (FieldValues(own, ContentLength()) == [] || policy.lengthBesideCoding)
  }

  lemma FramingDecided(policy: Policy, status: nat, date: string, own: seq<Header>)
    ensures var f := FramingOf(policy, status, Trimmed(FixedHeaders(date) + own));
      if Bodyless(status) then f == NoBody
      else if Unframed(policy, Trimmed(own)) then f == ChunkedBody
      else f == Invalid || f == UntilClose
  {
    hide Trimmed, FixedHeaders, FieldValues, Bodyless, TransferEncoding, ContentLength, ChunkedCoding, Codings;
    FramingFields(date, own);
  }

  lemma {:induction false} BodyShorter(chunks: seq<string>)
    ensures |Concat(chunks)| < |EmitBody(chunks)|
  {
    hide Print;
    if chunks != [] {
      BodyShorter(chunks[1..]);
      assert |Chunk(chunks[0])| > |chunks[0]|;
    }
  }

  /** What a reader is meant to get of a response. */
  function Sent(r: Reply): Message {
    Message(r.status, "", Trimmed(FixedHeaders(r.date) + r.headers), Concat(r.chunks))
  }

  /** Checkable before the response is written. */
  predicate Separates(policy: Policy, r: Reply) {
    && policy.statusAlone
    && 200 <= r.status <= 999 && r.status != 204 && r.status != 304
    && "" !in r.chunks
    && Unframed(policy, Trimmed(r.headers))
  }

  lemma TakenBack(framing: Framing, chunks: seq<string>, trailing: string)
    requires framing.NoBody? || framing.ChunkedBody? || framing.Invalid? || framing.UntilClose?
    ensures TakeBody(framing, EmitBody(chunks) + trailing) == Some((Concat(chunks), trailing))
       <==> framing == ChunkedBody && "" !in chunks
  {
    hide Decode, EmitBody, Concat;
    BodyShorter(chunks);
    BodyRoundTripIff(chunks, trailing);
  }

  /** The head is read as written, and the framing decides about the rest. */
  lemma ReplyRead(policy: Policy, r: Reply, trailing: string)
    requires CleanReply(r)
    ensures ReadMessage(policy, Emit(r) + trailing) ==
      if !policy.statusAlone || !(100 <= r.status <= 999) then None else
      match TakeBody(FramingOf(policy, r.status, Sent(r).headers), EmitBody(r.chunks) + trailing)
      case None => None
      case Some((body, rest)) => Some((Sent(r).(body := body), rest))
  {
    hide ReadMessage, TakeBody, FramingOf, Lines, ReadStatus, EmitBody, StartLine, Concat, Trimmed, FixedHeaders,
      Contains, Printable;
    var all := FixedHeaders(r.date) + r.headers;
    FixedPrintable(r.date);
    StartLineRead(policy, r.status);
    assert Emit(r) + trailing == Lines([StartLine(r.status)] + HeaderLines(all)) + CRLF + (EmitBody(r.chunks) + trailing);
    HeadRead(policy, StartLine(r.status), all, EmitBody(r.chunks) + trailing);
  }

  /** What one response costs the next one on the same connection: the reader gets the head and the
      body and stops exactly at the following bytes if and only if it takes a status line without a
      reason, the status may have a body, no empty chunk was written, and the handler's headers add no
      transfer coding (nor a Content-Length, unless the reader ignores it). A reader that insists on
      the space behind the status refuses every response; behind a bodyless status all chunk bytes
      are left over. */
  lemma ReplyRoundTripIff(policy: Policy, r: Reply, trailing: string)
    requires CleanReply(r)
    ensures ReadMessage(policy, Emit(r) + trailing) == Some((Sent(r), trailing)) <==> Separates(policy, r)
    ensures !policy.statusAlone ==> ReadMessage(policy, Emit(r) + trailing) == None
    ensures policy.statusAlone && (100 <= r.status < 200 || r.status == 204 || r.status == 304) ==>
      ReadMessage(policy, Emit(r) + trailing) == Some((Sent(r).(body := ""), EmitBody(r.chunks) + trailing))
  {
    hide ReadMessage, Emit, FramingOf, Decode, EmitBody, Concat, Trimmed, FixedHeaders, Unframed, CleanReply;
    ReplyRead(policy, r, trailing);
    if policy.statusAlone && 100 <= r.status <= 999 {
      FramingDecided(policy, r.status, r.date, r.headers);
      TakenBack(FramingOf(policy, r.status, Sent(r).headers), r.chunks, trailing);
    }
  }

  /** Whenever the body is right and the boundary is not, chunk bytes are left over. */
  lemma Leftover(policy: Policy, r: Reply, trailing: string) returns (left: seq<string>)
    requires CleanReply(r) && !Separates(policy, r)
    requires ReadMessage(policy, Emit(r) + trailing).Some?
    requires ReadMessage(policy, Emit(r) + trailing).value.0 == Sent(r)
    ensures ReadMessage(policy, Emit(r) + trailing).value.1 == EmitBody(left) + trailing
  {
    hide ReadMessage, Emit, FramingOf, Decode, EmitBody, Concat, Trimmed, FixedHeaders, Unframed, CleanReply;
    ReplyRead(policy, r, trailing);
    FramingDecided(policy, r.status, r.date, r.headers);
    DecodeExact(r.chunks, trailing);
    BodyShorter(r.chunks);
    var k := FirstEmpty(r.chunks);
    left := if Bodyless(r.status) || k == |r.chunks| then r.chunks else r.chunks[k + 1..];
  }

  /** Chunk bytes cannot be taken for a response. */
  lemma ChunksAreNoMessage(policy: Policy, chunks: seq<string>, after: string)
    ensures ReadMessage(policy, EmitBody(chunks) + after).None?
  {
    hide Print, Split, IndexOf, Occurs, Contains, FramingOf, TakeBody, ReadHeaders;
    var n := if chunks == [] then 0 else |chunks[0]|;
    var size := Print(n, Hex);
    var data := if chunks == [] then CRLF + after else chunks[0] + CRLF + (EmitBody(chunks[1..]) + after);
    assert EmitBody(chunks) + after == size + CRLF + data by { ZeroChunk(); }
    SizeIsPlain(n);
    LacksSeparator(size, CRLF, '\r');
    LacksSeparator(size, " ", ' ');
    FirstSeparator(size, CRLF, data);
    SplitNone(size);
    assert (size + CRLF + data)[..|size|] == size;
  }

  lemma ZeroChunk()
    ensures LAST_CHUNK == Print(0, Hex) + CRLF + CRLF
  {
  }

  function EmitAll(rs: seq<Reply>): string {
    if rs == [] then "" else Emit(rs[0]) + EmitAll(rs[1..])
  }

  /** Reads `n` messages, and what follows them. */
  function ReadAll(policy: Policy, s: string, n: nat): Option<(seq<Message>, string)>
    decreases n
  {
    if n == 0 then Some(([], s)) else
    match ReadMessage(policy, s)
    case None => None
    case Some((m, rest)) =>
      match ReadAll(policy, rest, n - 1)
      case None => None
      case Some((more, rest')) => Some(([m] + more, rest'))
  }

  function AllSent(rs: seq<Reply>): (ms: seq<Message>)
    ensures |ms| == |rs|
  {
    seq(|rs|, i requires 0 <= i < |rs| => Sent(rs[i]))
  }

  lemma ReadAllStep(policy: Policy, s: string, n: nat, m: Message, ms: seq<Message>, rest: string)
    requires n > 0
    ensures ReadAll(policy, s, n) == Some(([m] + ms, rest)) <==>
      var r := ReadMessage(policy, s);
      r.Some? && r.value.0 == m && ReadAll(policy, r.value.1, n - 1) == Some((ms, rest))
  {
    hide ReadMessage;
    var r := ReadAll(policy, s, n);
    if r == Some(([m] + ms, rest)) {
      assert r.value.0[0] == m && r.value.0[1..] == ms;
    }
  }

  /** Any number of responses back to back come apart into exactly what was sent if and only if each
      of them does on its own: a lost boundary is never found again. */
  lemma {:induction false} StreamRoundTripIff(policy: Policy, rs: seq<Reply>, trailing: string)
    requires forall i :: 0 <= i < |rs| ==> CleanReply(rs[i])
    ensures ReadAll(policy, EmitAll(rs) + trailing, |rs|) == Some((AllSent(rs), trailing))
       <==> forall i :: 0 <= i < |rs| ==> Separates(policy, rs[i])
    decreases |rs|
  {
    hide ReadMessage, Emit, Sent, Separates, CleanReply;
    if rs == [] {
      assert EmitAll(rs) + trailing == trailing;
    } else {
      var rest := EmitAll(rs[1..]) + trailing;
      assert EmitAll(rs) + trailing == Emit(rs[0]) + rest;
      assert AllSent(rs) == [Sent(rs[0])] + AllSent(rs[1..]);
      ReadAllStep(policy, EmitAll(rs) + trailing, |rs|, Sent(rs[0]), AllSent(rs[1..]), trailing);
      hide ReadAll, EmitAll, AllSent;
      if Separates(policy, rs[0]) {
        ReplyRoundTripIff(policy, rs[0], rest);
        StreamRoundTripIff(policy, rs[1..], trailing);
        assert (forall i :: 0 <= i < |rs| ==> Separates(policy, rs[i]))
          <==> forall i :: 0 <= i < |rs[1..]| ==> Separates(policy, rs[1..][i]) by { TailSeparates(policy, rs); }
      } else {
        LostBoundary(policy, rs, trailing);
      }
    }
  }

  lemma TailSeparates(policy: Policy, rs: seq<Reply>)
    requires rs != [] && Separates(policy, rs[0])
    ensures (forall i :: 0 <= i < |rs| ==> Separates(policy, rs[i]))
       <==> forall i :: 0 <= i < |rs[1..]| ==> Separates(policy, rs[1..][i])
  {
    hide Separates;
    if forall i :: 0 <= i < |rs[1..]| ==> Separates(policy, rs[1..][i]) {
      forall i | 0 < i < |rs| ensures Separates(policy, rs[i]) { assert rs[i] == rs[1..][i - 1]; }
    }
  }

  lemma LostBoundary(policy: Policy, rs: seq<Reply>, trailing: string)
    requires rs != [] && CleanReply(rs[0]) && !Separates(policy, rs[0])
    ensures ReadAll(policy, EmitAll(rs) + trailing, |rs|) != Some((AllSent(rs), trailing))
  {
    hide ReadMessage, Emit, Sent, Separates, CleanReply, EmitBody, EmitAll;
    var rest := EmitAll(rs[1..]) + trailing;
    assert EmitAll(rs) + trailing == Emit(rs[0]) + rest by { EmitAllStep(rs, trailing); }
    var r := ReadMessage(policy, Emit(rs[0]) + rest);
    assert AllSent(rs) == [Sent(rs[0])] + AllSent(rs[1..]);
    ReadAllStep(policy, EmitAll(rs) + trailing, |rs|, Sent(rs[0]), AllSent(rs[1..]), trailing);
    if r.Some? && r.value.0 == Sent(rs[0]) {
      var left := Leftover(policy, rs[0], rest);
      ChunksAreNoMessage(policy, left, rest);
      BodyShorter(left);
      if |rs| == 1 {
        assert EmitAll(rs[1..]) == "" by { EmitAllEmpty(rs[1..]); }
        assert |r.value.1| > |trailing|;
      }
    }
  }

  lemma EmitAllStep(rs: seq<Reply>, trailing: string)
    requires rs != []
    ensures EmitAll(rs) + trailing == Emit(rs[0]) + (EmitAll(rs[1..]) + trailing)
  {
    hide Emit;
  }

  lemma EmitAllEmpty(rs: seq<Reply>)
    requires rs == []
    ensures EmitAll(rs) == ""
  {
  }
}
