/** NUL-terminated strings in a buffer, and the C library functions that request_parse uses on
    them. A pointer is an index. The saved pointer of strtok is passed explicitly, as if each thread
    had its own; StrtokRace says when the one of the library does the same. */
module CStrings {
  import opened Options
  import opened Text

  const NUL: char := '\0'

  /** The last cell is NUL, so every scan stops inside the buffer. */
  predicate Terminated(buf: seq<char>) {
    |buf| > 0 && buf[|buf| - 1] == NUL
  }

  /** p + strspn(p, delims) */
  function Skip(buf: seq<char>, p: nat, delims: string): (q: nat)
    requires Terminated(buf) && p < |buf| && NUL !in delims
    ensures p <= q < |buf|
    decreases |buf| - p
  {
    if buf[p] in delims then Skip(buf, p + 1, delims) else p
  }

  /** p + strcspn(p, delims) */
  function Seek(buf: seq<char>, p: nat, delims: string): (q: nat)
    requires Terminated(buf) && p < |buf|
    ensures p <= q < |buf|
    decreases |buf| - p
  {
    if buf[p] == NUL || buf[p] in delims then p else Seek(buf, p + 1, delims)
  }

  /** Skip finds the first character outside `delims`. */
  lemma {:induction false} SkipMeaning(buf: seq<char>, p: nat, delims: string)
    requires Terminated(buf) && p < |buf| && NUL !in delims
    ensures var q := Skip(buf, p, delims);
      buf[q] !in delims && forall k :: p <= k < q ==> buf[k] in delims
    decreases |buf| - p
  {
    if buf[p] in delims {
      SkipMeaning(buf, p + 1, delims);
    }
  }

  /** Seek finds the first character that ends a token. */
  lemma {:induction false} SeekMeaning(buf: seq<char>, p: nat, delims: string)
    requires Terminated(buf) && p < |buf|
    ensures var q := Seek(buf, p, delims);
      (buf[q] == NUL || buf[q] in delims) && forall k :: p <= k < q ==> buf[k] != NUL && buf[k] !in delims
    decreases |buf| - p
  {
    if buf[p] != NUL && buf[p] !in delims {
      SeekMeaning(buf, p + 1, delims);
    }
  }

  /** The string at p. */
  function StringAt(buf: seq<char>, p: nat): string
    requires Terminated(buf) && p < |buf|
  {
    buf[p..Seek(buf, p, "")]
  }

  /** What a `char*` means: the text before the first NUL. */
  function CutNul(s: string): (r: string)
    ensures NUL !in r && r <= s && (|r| < |s| ==> s[|r|] == NUL)
  {
    if s == "" || s[0] == NUL then "" else [s[0]] + CutNul(s[1..])
  }

  /** The token's position if there is one, the saved pointer, and the buffer after the cut. */
  datatype Token = Token(start: Option<nat>, save: nat, buf: seq<char>)

  function Strtok(buf: seq<char>, p: nat, delims: string): (t: Token)
    requires Terminated(buf) && p < |buf| && NUL !in delims
    ensures Terminated(t.buf) && |t.buf| == |buf| && t.save < |buf|
    ensures t.start.Some? ==> p <= t.start.value < |buf| && t.buf[t.start.value] != NUL
    ensures t.start.None? ==> t.buf == buf
  {
    SkipMeaning(buf, p, delims);
    var s := Skip(buf, p, delims);
    SeekMeaning(buf, s, delims);
    if buf[s] == NUL then Token(None, s, buf) else
    var e := Seek(buf, s, delims);
    if buf[e] == NUL then Token(Some(s), e, buf) else Token(Some(s), e + 1, buf[e := NUL])
  }

  // ---------- The same on a mutable buffer ----------

  method StrtokInPlace(buffer: array<char>, p: nat, delims: string) returns (start: Option<nat>, save: nat)
    requires Terminated(buffer[..]) && p < buffer.Length && NUL !in delims
    modifies buffer
    ensures Token(start, save, buffer[..]) == Strtok(old(buffer[..]), p, delims)
  {
    ghost var buf := buffer[..];
    var s := p;
    while buffer[s] in delims
      invariant p <= s < buffer.Length && Skip(buf, p, delims) == Skip(buf, s, delims)
      decreases buffer.Length - s
    {
      s := s + 1;
    }
    if buffer[s] == NUL {
      return None, s;
    }
    var e := s;
    while buffer[e] != NUL && buffer[e] !in delims
      invariant s <= e < buffer.Length && Seek(buf, s, delims) == Seek(buf, e, delims)
      decreases buffer.Length - e
    {
      e := e + 1;
    }
    if buffer[e] == NUL {
      return Some(s), e;
    }
    buffer[e] := NUL;
    return Some(s), e + 1;
  }

  method Strlen(buffer: array<char>, p: nat) returns (n: nat)
    requires Terminated(buffer[..]) && p < buffer.Length
    ensures n == |StringAt(buffer[..], p)|
    ensures p + n < buffer.Length && buffer[p..p + n] == StringAt(buffer[..], p)
  {
    n := 0;
    while buffer[p + n] != NUL
      invariant p + n < buffer.Length && Seek(buffer[..], p, "") == Seek(buffer[..], p + n, "")
      decreases buffer.Length - n
    {
      n := n + 1;
    }
  }

  method Strdup(buffer: array<char>, p: nat) returns (s: string)
    requires Terminated(buffer[..]) && p < buffer.Length
    ensures s == StringAt(buffer[..], p)
  {
    var n := Strlen(buffer, p);
    s := buffer[p..p + n];
  }

  // ---------- Tokens in the middle of a buffer ----------

  predicate FreeOf(s: string, chars: string) {
    forall i :: 0 <= i < |s| ==> s[i] != NUL && s[i] !in chars
  }

  lemma SeekTo(pre: string, tok: string, c: char, rest: string, delims: string)
    requires Terminated(pre + tok + [c] + rest)
    requires FreeOf(tok, delims) && (c == NUL || c in delims)
    ensures Seek(pre + tok + [c] + rest, |pre|, delims) == |pre| + |tok|
  {
    var buf := pre + tok + [c] + rest;
    var q := Seek(buf, |pre|, delims);
    SeekMeaning(buf, |pre|, delims);
    assert buf[|pre| + |tok|] == c;
    assert forall k :: |pre| <= k < |pre| + |tok| ==> buf[k] == tok[k - |pre|];
  }

  lemma StringInside(pre: string, tok: string, rest: string)
    requires Terminated(pre + tok + [NUL] + rest) && FreeOf(tok, "")
    ensures StringAt(pre + tok + [NUL] + rest, |pre|) == tok
  {
    SeekTo(pre, tok, NUL, rest, "");
  }

  /** strtok on a token that starts at the pointer returns it and cuts right behind it. */
  lemma TokenInside(pre: string, tok: string, c: char, rest: string, delims: string)
    requires Terminated(pre + tok + [c] + rest) && NUL !in delims
    requires tok != "" && FreeOf(tok, delims) && (c == NUL || c in delims)
    ensures Strtok(pre + tok + [c] + rest, |pre|, delims) ==
      Token(Some(|pre|), |pre| + |tok| + (if c == NUL then 0 else 1), pre + tok + [NUL] + rest)
  {
    var buf := pre + tok + [c] + rest;
    assert buf[|pre|] == tok[0];
    hide Seek;
    SeekTo(pre, tok, c, rest, delims);
    assert buf[|pre| + |tok| := NUL] == pre + tok + [NUL] + rest;
  }

  // ---------- strtok on the text before a NUL, whatever it is ----------

  /** Where the first token of a text starts, behind the leading delimiters. */
  function TokenStart(text: string, delims: string): (n: nat)
    ensures n <= |text|
    ensures (forall i :: 0 <= i < n ==> text[i] in delims) && (n < |text| ==> text[n] !in delims)
  {
    if text == "" || text[0] !in delims then 0 else 1 + TokenStart(text[1..], delims)
  }

  /** How many characters pass before the first delimiter. */
  function Span(text: string, delims: string): (n: nat)
    ensures n <= |text|
    ensures (forall i :: 0 <= i < n ==> text[i] !in delims) && (n < |text| ==> text[n] in delims)
  {
    if text == "" || text[0] in delims then 0 else 1 + Span(text[1..], delims)
  }

  /** Where it ends. */
  function TokenEnd(text: string, delims: string): (n: nat)
    ensures TokenStart(text, delims) <= n <= |text|
  {
    var s := TokenStart(text, delims);
    s + Span(text[s..], delims)
  }

  lemma {:induction false} TokenBounds(text: string, delims: string)
    ensures var s, e := TokenStart(text, delims), TokenEnd(text, delims);
      && (forall i :: 0 <= i < s ==> text[i] in delims)
      && (forall i :: s <= i < e ==> text[i] !in delims)
      && (s < |text| ==> s < e) && (e < |text| ==> text[e] in delims)
  {
    hide TokenStart, Span;
    var s := TokenStart(text, delims);
    assert forall i :: s <= i < |text| ==> text[i] == text[s..][i - s];
  }

  /** Nothing else is the first token. */
  lemma TokenUnique(text: string, delims: string, s: nat, e: nat)
    requires s < e <= |text| && (e < |text| ==> text[e] in delims)
    requires forall i :: 0 <= i < s ==> text[i] in delims
    requires forall i :: s <= i < e ==> text[i] !in delims
    ensures TokenStart(text, delims) == s && TokenEnd(text, delims) == e
  {
    TokenBounds(text, delims);
    hide TokenStart, TokenEnd;
    assert text[s] !in delims;
  }

  /** strtok takes the first token of any text and cuts behind it; a text without one is kept. */
  lemma {:induction false} StrtokInside(pre: string, text: string, rest: string, delims: string)
    requires Terminated(pre + text + [NUL] + rest) && FreeOf(text, "") && NUL !in delims
    ensures var buf := pre + text + [NUL] + rest;
      var s, e := TokenStart(text, delims), TokenEnd(text, delims);
      Strtok(buf, |pre|, delims) ==
        if s == |text| then Token(None, |pre| + s, buf)
        else if e == |text| then Token(Some(|pre| + s), |pre| + e, buf)
        else Token(Some(|pre| + s), |pre| + e + 1, buf[|pre| + e := NUL])
  {
    var buf := pre + text + [NUL] + rest;
    var s, e := TokenStart(text, delims), TokenEnd(text, delims);
    TokenBounds(text, delims);
    hide TokenStart, TokenEnd;
    assert buf[|pre| + |text|] == NUL;
    forall k | |pre| <= k < |pre| + |text| ensures buf[k] == text[k - |pre|] { }
    SkipsTo(buf, |pre|, |pre| + s, delims);
    SeeksTo(buf, |pre| + s, |pre| + e, delims);
    hide Skip, Seek;
  }

  /** The buffer behind a cut inside the text: what is left of the text is a string of its own. */
  lemma {:induction false} StrtokCuts(pre: string, text: string, rest: string, delims: string)
    requires Terminated(pre + text + [NUL] + rest) && FreeOf(text, "") && NUL !in delims
    requires TokenEnd(text, delims) < |text|
    ensures var s, e := TokenStart(text, delims), TokenEnd(text, delims);
      s < e && Strtok(pre + text + [NUL] + rest, |pre|, delims) ==
      Token(Some(|pre| + s), |pre| + e + 1, (pre + text[..e] + [NUL]) + text[e + 1..] + [NUL] + rest)
  {
    hide Strtok, TokenStart, TokenEnd;
    StrtokInside(pre, text, rest, delims);
    TokenBounds(text, delims);
    CutShape(pre, text, rest, TokenEnd(text, delims));
  }

  lemma CutShape(pre: string, text: string, rest: string, e: nat)
    requires e < |text|
    ensures (pre + text + [NUL] + rest)[|pre| + e := NUL] == (pre + text[..e] + [NUL]) + text[e + 1..] + [NUL] + rest
  {
  }

  lemma PieceFound(pre: string, text: string, s: nat, e: nat, rest: string)
    requires s <= e <= |text| && FreeOf(text, "") && Terminated(pre + text[..e] + [NUL] + rest)
    ensures StringAt(pre + text[..e] + [NUL] + rest, |pre| + s) == text[s..e]
  {
    hide StringAt;
    assert pre + text[..e] + [NUL] + rest == (pre + text[..s]) + text[s..e] + [NUL] + rest;
    StringInside(pre + text[..s], text[s..e], rest);
  }

  lemma SkipsTo(buf: seq<char>, p: nat, q: nat, delims: string)
    requires Terminated(buf) && p <= q < |buf| && NUL !in delims
    requires buf[q] !in delims && forall k :: p <= k < q ==> buf[k] in delims
    ensures Skip(buf, p, delims) == q
  {
    SkipMeaning(buf, p, delims);
  }

  lemma SeeksTo(buf: seq<char>, p: nat, q: nat, delims: string)
    requires Terminated(buf) && p <= q < |buf|
    requires (buf[q] == NUL || buf[q] in delims) && forall k :: p <= k < q ==> buf[k] != NUL && buf[k] !in delims
    ensures Seek(buf, p, delims) == q
  {
    SeekMeaning(buf, p, delims);
  }

  lemma StringFound(buf: string, p: nat, text: string)
    requires Terminated(buf) && p + |text| < |buf|
    requires buf[p..p + |text|] == text && FreeOf(text, "") && buf[p + |text|] == NUL
    ensures StringAt(buf, p) == text
  {
    hide StringAt;
    var rest := buf[p + |text| + 1..];
    assert buf == buf[..p] + text + [NUL] + rest;
    StringInside(buf[..p], text, rest);
  }

  /** strtok changes nothing before its pointer, and nothing at or after the first NUL behind it. */
  lemma StrtokFrame(buf: seq<char>, p: nat, delims: string, k: nat)
    requires Terminated(buf) && p < |buf| && NUL !in delims && p <= k < |buf| && buf[k] == NUL
    ensures Strtok(buf, p, delims).buf[..p] == buf[..p]
    ensures Strtok(buf, p, delims).buf[k..] == buf[k..]
  {
    SkipMeaning(buf, p, delims);
    var s := Skip(buf, p, delims);
    assert s <= k;
    SeekMeaning(buf, s, delims);
  }
}
