/** src/response.c: the Content-Length framed printer, measured against the reader of MessageReader. */
module Response {
  import opened Options
  import opened Text
  import opened Numerals
  import opened CStrings
  import opened Headers
  import opened MessageReader

  /** response_create starts from status 200, no headers and no body. */
  datatype Response = Response(status: int, headers: seq<Header>, body: Option<string>) {
    /** What strlen and %s see of the body. */
    function Body(): string { CutNul(body.GetOr("")) }
  }

  function StatusLine(status: int): string {
    "HTTP/1.1" + " " + PrintInt(status) + " " + "OK"
  }

  function LengthHeader(n: nat): Header { Header("Content-Length", Print(n, Dec)) }

  function ResponseText(r: Response): string {
    StatusLine(r.status) + CRLF +
    "Content-Length: " + Print(|r.Body()|, Dec) + CRLF +
    HeadersText(r.headers) + CRLF + r.Body()
  }

  /** response_to_string: the text, unless a header was freed or one of the two fixed buffers is
      overrun. */
  method ResponseToString(status: int, headers: Headers, body: Option<string>) returns (r: Printed)
    ensures var text := ResponseText(Response(status, Entries(headers.fields), body));
      if AllLive(headers.fields, headers.freed) then r == if |text| < 1048576 then Printed(text) else Overrun
      else !r.Printed? && r == PrintLoop(headers.fields, headers.freed, "")
  {
    hide PrintLoop, HeadersText, Print, StatusLine;
    if AllLive(headers.fields, headers.freed) {
      PrintLive(headers.fields, headers.freed);
    } else {
      PrintDead(headers.fields, headers.freed);
    }
    var headersText := headers.Print();
    if !headersText.Printed? { return headersText; }
    var bodyText := CutNul(body.GetOr(""));
    var text := StatusLine(status) + CRLF +
                "Content-Length: " + Print(|bodyText|, Dec) + CRLF +
                headersText.text + CRLF + bodyText;
    r := if |text| < BUFFER then Printed(text) else Overrun;
  }

  // ---------- Framing ----------

  lemma StatusRead(policy: Policy, status: int)
    ensures ReadStatus(policy, StatusLine(status)) == if 100 <= status <= 999 then Some((status, "OK")) else None
    ensures StatusLine(status) != "" && !Contains(StatusLine(status), CRLF)
  {
    hide PrintInt, Read, Contains, Split;
    NumberIsPlain(status);
    TwoWords("HTTP/1.1", PrintInt(status), "OK");
    LacksSeparator("OK", " ", ' ');
    SplitNone("OK");
    assert (["HTTP/1.1", PrintInt(status)] + ["OK"])[2..] == ["OK"];
    StatusNumber(status);
    LacksSeparator(StatusLine(status), CRLF, '\r');
  }

  function AllHeaders(r: Response): seq<Header> { [LengthHeader(|r.Body()|)] + r.headers }

  lemma TextIsHeadAndBody(r: Response, trailing: string)
    ensures ResponseText(r) + trailing
         == Lines([StatusLine(r.status)] + HeaderLines(AllHeaders(r))) + CRLF + (r.Body() + trailing)
  {
    hide StatusLine, Print, HeadersText, Lines, HeaderLines;
    var all, body, start := AllHeaders(r), r.Body(), StatusLine(r.status);
    assert Lines([start] + HeaderLines(all)) == start + CRLF + HeadersText(all) by { HeadText(start, all); }
    assert HeadersText(all) == LengthText(|body|) + HeadersText(r.headers) by { OwnLast(|body|, r.headers); }
    assert ResponseText(r) == start + CRLF + LengthText(|body|) + HeadersText(r.headers) + CRLF + body by {
      LengthApart(start, |body|);
    }
    Regrouped(start, LengthText(|body|), HeadersText(r.headers), body, trailing);
  }

  function LengthText(n: nat): string { "Content-Length: " + Print(n, Dec) + CRLF }

  lemma HeadText(start: string, hs: seq<Header>)
    ensures Lines([start] + HeaderLines(hs)) == start + CRLF + HeadersText(hs)
  {
    LinesOfHeaders(hs);
    assert ([start] + HeaderLines(hs))[1..] == HeaderLines(hs);
  }

  lemma OwnLast(n: nat, own: seq<Header>)
    ensures HeadersText([LengthHeader(n)] + own) == LengthText(n) + HeadersText(own)
  {
    hide Print;
    assert ([LengthHeader(n)] + own)[1..] == own;
    assert "Content-Length" + ": " == "Content-Length: ";
    assert HeaderText(LengthHeader(n)) == LengthText(n);
  }

  lemma LengthApart(start: string, n: nat)
    ensures start + CRLF + "Content-Length: " + Print(n, Dec) + CRLF == start + CRLF + LengthText(n)
  {
    hide Print;
  }

  lemma Regrouped(start: string, length: string, headers: string, body: string, trailing: string)
    ensures start + CRLF + length + headers + CRLF + body + trailing
         == start + CRLF + (length + headers) + CRLF + (body + trailing)
  {
  }

  lemma LengthHeaderPrintable(n: nat)
    ensures Printable(LengthHeader(n))
  {
    hide Print, Contains;
    NumberIsPlain(n);
    LacksSeparator(Print(n, Dec), CRLF, '\r');
    LacksSeparator("Content-Length", CRLF, '\r');
    LacksSeparator("Content-Length", ":", ':');
  }

  lemma NumeralPlain(n: nat)
    ensures Plain(Print(n, Dec))
  {
    hide Print, Value;
    var s := Print(n, Dec);
    PrintRead(n, Dec);
    forall i | 0 <= i < |s| ensures '0' <= s[i] <= '9' {
      assert s[i] in s && IsDigit(s[i], Dec);
    }
  }

  /** The printer's own length comes first among the fields that decide the framing. */
  lemma FramingFields(n: nat, own: seq<Header>)
    ensures var all := Trimmed([LengthHeader(n)] + own);
      && all == [LengthHeader(n)] + Trimmed(own)
      && FieldValues(all, TransferEncoding()) == FieldValues(Trimmed(own), TransferEncoding())
      && |FieldValues(all, ContentLength())| == 1 + |FieldValues(Trimmed(own), ContentLength())|
      && Lengths(all) == [Print(n, Dec)] + Lengths(Trimmed(own))
  {
    hide Print, Trim, Members, Plain;
    NumeralPlain(n);
    PlainMember(Print(n, Dec), FieldValues(Trimmed(own), ContentLength()));
    var all := [LengthHeader(n)] + Trimmed(own);
    assert Trimmed([LengthHeader(n)] + own) == all;
    assert all[1..] == Trimmed(own);
    assert Lower("Content-Length") == ContentLength();
    assert |Lower("Content-Length")| != |TransferEncoding()|;
  }

  /** The handler's own Content-Length fields do not contradict the printed one. */
  predicate OwnLengthsAgree(policy: Policy, own: seq<Header>, n: nat) {
    if policy.repeatedLength then AllRead(Lengths(own), n) else FieldValues(own, ContentLength()) == []
  }

  lemma FramingDecided(policy: Policy, status: nat, n: nat, own: seq<Header>)
    ensures FramingOf(policy, status, Trimmed([LengthHeader(n)] + own)) ==
      if Bodyless(status) then NoBody
      else if FieldValues(Trimmed(own), TransferEncoding()) != [] then
        if !policy.lengthBesideCoding then Invalid else CodedFraming(Codings(Trimmed(own)))
      else if OwnLengthsAgree(policy, Trimmed(own), n) then Length(n) else Invalid
  {
    hide Print, Read, Members, Trimmed, FieldValues, Bodyless, TransferEncoding, ContentLength;
    FramingFields(n, own);
    PrintRead(n, Dec);
    var lengths, rest := Lengths(Trimmed([LengthHeader(n)] + own)), Lengths(Trimmed(own));
    assert AllRead(lengths, n) <==> AllRead(rest, n) by {
      if AllRead(lengths, n) {
        forall i | 0 <= i < |rest| ensures Read(rest[i], Dec) == Some(n) { assert rest[i] == lengths[i + 1]; }
      }
    }
    if !policy.repeatedLength && FieldValues(Trimmed(own), ContentLength()) == [] {
      NoMembers();
    }
  }

  lemma NoMembers()
    ensures Members([]) == []
  {
  }

  /** The reader finds the status, the header fields, exactly the body, and exactly the bytes that
      were written after it. */
  predicate ReadsBack(policy: Policy, r: Response, trailing: string) {
    ReadMessage(policy, ResponseText(r) + trailing)
    == Some((Message(r.status, "OK", Trimmed([LengthHeader(|r.Body()|)] + r.headers), r.Body()), trailing))
  }

  /** Checkable before printing. With a Transfer-Encoding the length is not looked at: the best
      that can happen is a body that ends with the connection. */
  predicate Framed(policy: Policy, r: Response, trailing: string) {
    var own := Trimmed(r.headers);
    && 100 <= r.status <= 999
    && if 100 <= r.status < 200 || r.status == 204 || r.status == 304 then r.Body() == ""
       else if FieldValues(own, TransferEncoding()) == [] then OwnLengthsAgree(policy, own, |r.Body()|)
       else policy.lengthBesideCoding && CodedFraming(Codings(own)).UntilClose? && trailing == ""
  }

  /** What each framing makes of the body and the bytes behind it. */
  lemma TakenBack(framing: Framing, body: string, trailing: string)
    ensures TakeBody(framing, body + trailing) == Some((body, trailing)) <==>
      match framing
      case NoBody => body == ""
      case ChunkedBody => false
      case Length(n) => n == |body|
      case UntilClose => trailing == ""
      case Invalid => false
  {
    hide Decode;
    var s := body + trailing;
    DecodeShrinks(s);
    assert s[..|body|] == body && s[|body|..] == trailing;
    if framing.NoBody? && body == "" {
      assert s == trailing;
    }
    if framing.UntilClose? && trailing == "" {
      assert s == body;
    }
  }

  /** Framing, for one message and the bytes that happen to follow it. */
  lemma FramingExact(policy: Policy, r: Response, trailing: string)
    requires AllPrintable(r.headers)
    ensures ReadsBack(policy, r, trailing) <==> Framed(policy, r, trailing)
  {
    hide StatusLine, ResponseText, ReadMessage, ReadStatus, Contains, Lines, TakeBody, FramingOf, Trimmed, FieldValues,
      CodedFraming, OwnLengthsAgree, LengthHeader, Printable, TransferEncoding, Codings;
    var all := AllHeaders(r);
    LengthHeaderPrintable(|r.Body()|);
    assert AllPrintable(all);
    StatusRead(policy, r.status);
    TextIsHeadAndBody(r, trailing);
    HeadRead(policy, StatusLine(r.status), all, r.Body() + trailing);
    if 100 <= r.status <= 999 {
      FramingDecided(policy, r.status, |r.Body()|, r.headers);
      TakenBack(FramingOf(policy, r.status, Trimmed(all)), r.Body(), trailing);
      TakenBack(CodedFraming(Codings(Trimmed(r.headers))), r.Body(), trailing);
      CodedKinds(Codings(Trimmed(r.headers)));
    }
  }

  lemma CodedKinds(codings: seq<string>)
    ensures var f := CodedFraming(codings); f.ChunkedBody? || f.Invalid? || f.UntilClose?
  {
  }

  /** A message keeps its boundary whatever follows it if and only if its status may have a body or
      the body is empty, no header is a Transfer-Encoding, and every Content-Length among them
      agrees with the printed one (for a reader that takes no repeated one: there is none). */
  lemma FramingIff(policy: Policy, r: Response)
    requires AllPrintable(r.headers)
    ensures (forall trailing :: ReadsBack(policy, r, trailing)) <==>
      var own := Trimmed(r.headers);
      && 100 <= r.status <= 999
      && if 100 <= r.status < 200 || r.status == 204 || r.status == 304 then r.Body() == ""
         else FieldValues(own, TransferEncoding()) == [] && OwnLengthsAgree(policy, own, |r.Body()|)
  {
    forall trailing ensures ReadsBack(policy, r, trailing) <==> Framed(policy, r, trailing) {
      FramingExact(policy, r, trailing);
    }
    hide ReadsBack, Trimmed, FieldValues, OwnLengthsAgree, CodedFraming, Codings;
    assert !ReadsBack(policy, r, "x") <==> !Framed(policy, r, "x");
  }
}
