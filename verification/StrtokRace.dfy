/** strtok keeps one saved pointer for the whole process, and request_parse runs in every worker.
    Interleaved calls of any number of threads, with that pointer and with one per thread. */
module StrtokRace {
  import opened Options
  import opened Text
  import opened CStrings
  import opened Request

  /** A place in the buffer of a thread. */
  datatype Pointer = Pointer(owner: nat, pos: nat)

  /** strtok(buffer + pos, delims) on the caller's buffer, or strtok(NULL, delims). */
  datatype Call = From(pos: nat) | More

  datatype Event = Event(thread: nat, call: Call, delims: string)

  type Buffers = seq<seq<char>>

  predicate Valid(bufs: Buffers) {
    forall i :: 0 <= i < |bufs| ==> Terminated(bufs[i])
  }

  predicate Inside(bufs: Buffers, p: Pointer) {
    p.owner < |bufs| && p.pos < |bufs[p.owner]|
  }

  predicate Callable(bufs: Buffers, e: Event) {
    e.thread < |bufs| && NUL !in e.delims && (e.call.From? ==> e.call.pos < |bufs[e.thread]|)
  }

  /** The buffers, the saved pointer and the token after a call that starts at `p`. */
  function Tokenize(bufs: Buffers, p: Pointer, delims: string): (r: (Buffers, Pointer, Option<Pointer>))
    requires Valid(bufs) && Inside(bufs, p) && NUL !in delims
    ensures Valid(r.0) && SameSizes(r.0, bufs) && Inside(bufs, r.1) && r.1.owner == p.owner
    ensures r.2.Some? ==> r.2.value.owner == p.owner
  {
    var t := Strtok(bufs[p.owner], p.pos, delims);
    (bufs[p.owner := t.buf], Pointer(p.owner, t.save),
     match t.start case None => None case Some(q) => Some(Pointer(p.owner, q)))
  }

  predicate SameSizes(a: Buffers, b: Buffers) {
    |a| == |b| && forall i :: 0 <= i < |a| ==> |a[i]| == |b[i]|
  }

  /** strtok: one saved pointer. */
  function Shared(bufs: Buffers, save: Pointer, e: Event): (r: (Buffers, Pointer, Option<Pointer>))
    requires Valid(bufs) && Inside(bufs, save) && Callable(bufs, e)
    ensures Valid(r.0) && SameSizes(r.0, bufs) && Inside(bufs, r.1)
  {
    Tokenize(bufs, if e.call.From? then Pointer(e.thread, e.call.pos) else save, e.delims)
  }

  predicate AllInside(bufs: Buffers, saves: seq<nat>) {
    |saves| == |bufs| && forall i :: 0 <= i < |bufs| ==> saves[i] < |bufs[i]|
  }

  /** What request_parse relies on: a saved pointer for every thread. */
  function Private(bufs: Buffers, saves: seq<nat>, e: Event): (r: (Buffers, seq<nat>, Option<Pointer>))
    requires Valid(bufs) && AllInside(bufs, saves) && Callable(bufs, e)
    ensures Valid(r.0) && SameSizes(r.0, bufs) && AllInside(bufs, r.1)
  {
    var t := Tokenize(bufs, Pointer(e.thread, if e.call.From? then e.call.pos else saves[e.thread]), e.delims);
    (t.0, saves[e.thread := t.1.pos], t.2)
  }

  predicate AllCallable(bufs: Buffers, es: seq<Event>) {
    forall i :: 0 <= i < |es| ==> Callable(bufs, es[i])
  }

  /** The buffers and every answer after a schedule. */
  function SharedRun(bufs: Buffers, save: Pointer, es: seq<Event>): (Buffers, seq<Option<Pointer>>)
    requires Valid(bufs) && Inside(bufs, save) && AllCallable(bufs, es)
    decreases |es|
  {
    if es == [] then (bufs, []) else
    var (b, p, r) := Shared(bufs, save, es[0]);
    var (b', rs) := SharedRun(b, p, es[1..]);
    (b', [r] + rs)
  }

  function PrivateRun(bufs: Buffers, saves: seq<nat>, es: seq<Event>): (Buffers, seq<Option<Pointer>>)
    requires Valid(bufs) && AllInside(bufs, saves) && AllCallable(bufs, es)
    decreases |es|
  {
    if es == [] then (bufs, []) else
    var (b, ps, r) := Private(bufs, saves, es[0]);
    var (b', rs) := PrivateRun(b, ps, es[1..]);
    (b', [r] + rs)
  }

  /** Every strtok(NULL) directly follows a call of the same thread. */
  predicate Undisturbed(last: Option<nat>, es: seq<Event>)
    decreases |es|
  {
    es == [] ||
    ((es[0].call.More? ==> last == Some(es[0].thread)) && Undisturbed(Some(es[0].thread), es[1..]))
  }

  /** Then the one pointer does the work of many: same tokens, same buffers. */
  lemma {:induction false} UndisturbedAgrees(bufs: Buffers, save: Pointer, saves: seq<nat>,
                                             last: Option<nat>, es: seq<Event>)
    requires Valid(bufs) && Inside(bufs, save) && AllInside(bufs, saves) && AllCallable(bufs, es)
    requires last.Some? ==> last.value < |bufs| && save == Pointer(last.value, saves[last.value])
    requires Undisturbed(last, es)
    ensures SharedRun(bufs, save, es) == PrivateRun(bufs, saves, es)
    decreases |es|
  {
    hide Tokenize;
    if es != [] {
      var (b, p, r) := Shared(bufs, save, es[0]);
      var (b', ps, r') := Private(bufs, saves, es[0]);
      assert p == Pointer(es[0].thread, ps[es[0].thread]);
      UndisturbedAgrees(b, p, ps, Some(es[0].thread), es[1..]);
    }
  }

  /** A strtok(NULL) behind another thread's call goes on in that thread's string: it gives the right
      answer if and only if both strings are used up. */
  lemma DisturbedAgreesIff(bufs: Buffers, save: Pointer, saves: seq<nat>, e: Event)
    requires Valid(bufs) && Inside(bufs, save) && AllInside(bufs, saves) && Callable(bufs, e)
    requires e.call.More? && save.owner != e.thread
    ensures var got, due := Shared(bufs, save, e).2, Private(bufs, saves, e).2;
      got == due <==> got == None && due == None
  {
  }

  // ---------- Two requests ----------

  function StartLine(verb: string, path: string, version: string): string {
    verb + " " + path + " " + version
  }

  /** The first three calls of request_parse on a request of its own. */
  datatype Cuts = Cuts(line: seq<char>, verb: seq<char>, path: Token)

  function CutsOf(buf: seq<char>, verbLength: nat): Cuts
    requires Terminated(buf) && verbLength + 1 < |buf|
  {
    var line := Strtok(buf, 0, CRLF).buf;
    var verb := Strtok(line, 0, " ").buf;
    Cuts(line, verb, Strtok(verb, verbLength + 1, " "))
  }

  lemma {:induction false} CutsExact(verb: string, path: string, version: string, tail: string)
    requires LegalToken(verb) && LegalToken(path) && LegalText(version)
    requires Terminated(StartLine(verb, path, version) + CRLF + tail)
    ensures var buf := StartLine(verb, path, version) + CRLF + tail;
      && |verb| + 1 < |buf|
      && var c := CutsOf(buf, |verb|);
      && Strtok(buf, 0, CRLF).start == Some(0)
      && Strtok(c.line, 0, " ") == Token(Some(0), |verb| + 1, c.verb)
      && c.path.start == Some(|verb| + 1) && StringAt(c.path.buf, |verb| + 1) == path
  {
    hide Strtok, StringAt, TokenStart, TokenEnd, StartLine;
    var line, after, e := StartLine(verb, path, version), path + " " + version, |verb|;
    LineParts(verb, path, version);
    assert "" + line + CRLF + tail == line + CRLF + tail;
    LineCut("", line, tail);
    FreeOfNul(line);
    FirstWord(verb, after);
    FirstWord(path, version);
    StrtokCuts("", line, "\n" + tail, " ");
    PathToken(line, e, tail, CutLine("", line, e, "\n" + tail));
    PathText(line, verb, path, version, tail);
  }

  lemma LineParts(verb: string, path: string, version: string)
    requires LegalToken(verb) && LegalToken(path) && LegalText(version)
    ensures var line := StartLine(verb, path, version);
      && PlainLine(line) && line == verb + " " + (path + " " + version) && |verb| < |line|
      && line[|verb| + 1..] == path + " " + version
  {
  }

  lemma PathText(line: string, verb: string, path: string, version: string, tail: string)
    requires LegalToken(verb) && LegalToken(path) && line == verb + " " + (path + " " + version)
    requires Terminated(CutLine("", line, |verb|, "\n" + tail))
    ensures var b := CutLine("", line, |verb|, "\n" + tail);
      var k := |verb| + 1 + |path|;
      k < |b| && Terminated(b[k := NUL]) && StringAt(b[k := NUL], |verb| + 1) == path
  {
    hide StringAt;
    var b, k := CutLine("", line, |verb|, "\n" + tail), |verb| + 1 + |path|;
    assert b[|verb| + 1..k] == path;
    StringFound(b[k := NUL], |verb| + 1, path);
  }

  /** Both workers cut off the line and the method; then the first one asks for its path. */
  function Interleaved(): seq<Event> {
    [Event(0, From(0), CRLF), Event(0, From(0), " "),
     Event(1, From(0), CRLF), Event(1, From(0), " "),
     Event(0, More, " ")]
  }

  lemma SharedStep(bufs: Buffers, save: Pointer, es: seq<Event>, i: nat)
    requires Valid(bufs) && Inside(bufs, save) && AllCallable(bufs, es) && i < |es|
    ensures var (b, p, r) := Shared(bufs, save, es[i]);
      SharedRun(bufs, save, es[i..])
      == (SharedRun(b, p, es[i + 1..]).0, [r] + SharedRun(b, p, es[i + 1..]).1)
  {
    hide Shared;
    assert es[i..][1..] == es[i + 1..];
  }

  lemma PrivateStep(bufs: Buffers, saves: seq<nat>, es: seq<Event>, i: nat)
    requires Valid(bufs) && AllInside(bufs, saves) && AllCallable(bufs, es) && i < |es|
    ensures var (b, ps, r) := Private(bufs, saves, es[i]);
      PrivateRun(bufs, saves, es[i..])
      == (PrivateRun(b, ps, es[i + 1..]).0, [r] + PrivateRun(b, ps, es[i + 1..]).1)
  {
    hide Private;
    assert es[i..][1..] == es[i + 1..];
  }

  function In(owner: nat, start: Option<nat>): Option<Pointer> {
    match start case None => None case Some(q) => Some(Pointer(owner, q))
  }

  /** The requests of two workers, each with the length of its method. */
  function SharedOutcome(x: seq<char>, y: seq<char>, save: Pointer): (Buffers, seq<Option<Pointer>>)
    requires Terminated(x) && Terminated(y) && Inside([x, y], save)
  {
    Steps(x, y);
    SharedRun([x, y], save, Interleaved())
  }

  function PrivateOutcome(x: seq<char>, y: seq<char>): (Buffers, seq<Option<Pointer>>)
    requires Terminated(x) && Terminated(y)
  {
    Steps(x, y);
    PrivateRun([x, y], [0, 0], Interleaved())
  }

  predicate TwoRequests(buf: seq<char>, n: nat, buf': seq<char>, n': nat) {
    && Terminated(buf) && n + 1 < |buf| && Strtok(CutsOf(buf, n).line, 0, " ").save == n + 1
    && Terminated(buf') && n' + 1 < |buf'| && Strtok(CutsOf(buf', n').line, 0, " ").save == n' + 1
  }

  /** One call on the buffers of two workers. */
  lemma OnTwo(x: seq<char>, y: seq<char>, p: Pointer, delims: string)
    requires Terminated(x) && Terminated(y) && Inside([x, y], p) && NUL !in delims
    ensures Tokenize([x, y], p, delims) ==
      if p.owner == 0 then var t := Strtok(x, p.pos, delims); ([t.buf, y], Pointer(0, t.save), In(0, t.start))
      else var t := Strtok(y, p.pos, delims); ([x, t.buf], Pointer(1, t.save), In(1, t.start))
  {
    hide Strtok;
    if p.owner == 0 {
      assert [x, y][0 := Strtok(x, p.pos, delims).buf] == [Strtok(x, p.pos, delims).buf, y];
    } else {
      assert [x, y][1 := Strtok(y, p.pos, delims).buf] == [x, Strtok(y, p.pos, delims).buf];
    }
  }

  lemma Steps(x: seq<char>, y: seq<char>)
    requires |x| > 0 && |y| > 0
    ensures |Interleaved()| == 5 && AllCallable([x, y], Interleaved())
    ensures Interleaved()[0..] == Interleaved() && Interleaved()[5..] == []
    ensures Interleaved()[0] == Event(0, From(0), CRLF) && Interleaved()[1] == Event(0, From(0), " ")
    ensures Interleaved()[2] == Event(1, From(0), CRLF) && Interleaved()[3] == Event(1, From(0), " ")
    ensures Interleaved()[4] == Event(0, More, " ")
  {
  }

  lemma SharedFifth(buf: seq<char>, n: nat, buf': seq<char>, n': nat, save: Pointer)
    requires TwoRequests(buf, n, buf', n') && Inside([buf, buf'], save)
    ensures var (b, rs) := SharedOutcome(buf, buf', save);
      b == [CutsOf(buf, n).verb, CutsOf(buf', n').path.buf] && |rs| == 5 && rs[4] == In(1, CutsOf(buf', n').path.start)
  {
    hide Strtok, Interleaved, Tokenize, SharedRun, Terminated, In;
    var es, c, c' := Interleaved(), CutsOf(buf, n), CutsOf(buf', n');
    var p1, p3 := Pointer(0, Strtok(buf, 0, CRLF).save), Pointer(1, Strtok(buf', 0, CRLF).save);
    var p2, p4 := Pointer(0, n + 1), Pointer(1, n' + 1);
    Steps(buf, buf');
    Steps(c.line, buf');
    Steps(c.verb, buf');
    Steps(c.verb, c'.line);
    Steps(c.verb, c'.verb);
    hide AllCallable, Callable;
    OnTwo(buf, buf', Pointer(0, 0), CRLF);
    OnTwo(c.line, buf', Pointer(0, 0), " ");
    OnTwo(c.verb, buf', Pointer(1, 0), CRLF);
    OnTwo(c.verb, c'.line, Pointer(1, 0), " ");
    OnTwo(c.verb, c'.verb, p4, " ");
    SharedStep([buf, buf'], save, es, 0);
    SharedStep([c.line, buf'], p1, es, 1);
    SharedStep([c.verb, buf'], p2, es, 2);
    SharedStep([c.verb, c'.line], p3, es, 3);
    SharedStep([c.verb, c'.verb], p4, es, 4);
    SharedEnd([c.verb, c'.path.buf], Pointer(1, c'.path.save));
  }

  lemma SharedEnd(bufs: Buffers, save: Pointer)
    requires Valid(bufs) && Inside(bufs, save)
    ensures SharedRun(bufs, save, []) == (bufs, [])
  {
  }

  lemma PrivateFifth(buf: seq<char>, n: nat, buf': seq<char>, n': nat)
    requires TwoRequests(buf, n, buf', n')
    ensures var (b, rs) := PrivateOutcome(buf, buf');
      b == [CutsOf(buf, n).path.buf, CutsOf(buf', n').verb] && |rs| == 5 && rs[4] == In(0, CutsOf(buf, n).path.start)
  {
    hide Strtok, Interleaved, Tokenize, PrivateRun, Private, Terminated, In, AllInside;
    var es, c, c' := Interleaved(), CutsOf(buf, n), CutsOf(buf', n');
    var k, k' := Strtok(buf, 0, CRLF).save, Strtok(buf', 0, CRLF).save;
    Steps(buf, buf');
    Steps(c.line, buf');
    Steps(c.verb, buf');
    Steps(c.verb, c'.line);
    Steps(c.verb, c'.verb);
    hide AllCallable, Callable;
    PrivateOnTwo(buf, buf', 0, 0, Event(0, From(0), CRLF));
    PrivateOnTwo(c.line, buf', k, 0, Event(0, From(0), " "));
    PrivateOnTwo(c.verb, buf', n + 1, 0, Event(1, From(0), CRLF));
    PrivateOnTwo(c.verb, c'.line, n + 1, k', Event(1, From(0), " "));
    PrivateOnTwo(c.verb, c'.verb, n + 1, n' + 1, Event(0, More, " "));
    PrivateStep([buf, buf'], [0, 0], es, 0);
    PrivateStep([c.line, buf'], [k, 0], es, 1);
    PrivateStep([c.verb, buf'], [n + 1, 0], es, 2);
    PrivateStep([c.verb, c'.line], [n + 1, k'], es, 3);
    PrivateStep([c.verb, c'.verb], [n + 1, n' + 1], es, 4);
    PrivateEnd([c.path.buf, c'.verb], [c.path.save, n' + 1]);
  }

  lemma PrivateOnTwo(x: seq<char>, y: seq<char>, i: nat, j: nat, e: Event)
    requires Terminated(x) && Terminated(y) && i < |x| && j < |y| && e.thread < 2 && NUL !in e.delims
    requires e.call.From? ==> e.call.pos == 0
    ensures AllInside([x, y], [i, j]) && Callable([x, y], e)
    ensures Private([x, y], [i, j], e) ==
      if e.thread == 0 then
        var t := Strtok(x, if e.call.From? then 0 else i, e.delims); ([t.buf, y], [t.save, j], In(0, t.start))
      else
        var t := Strtok(y, if e.call.From? then 0 else j, e.delims); ([x, t.buf], [i, t.save], In(1, t.start))
  {
    hide Strtok, Tokenize;
    OnTwo(x, y, Pointer(e.thread, if e.call.From? then 0 else if e.thread == 0 then i else j), e.delims);
    assert forall k: nat :: [i, j][0 := k] == [k, j] && [i, j][1 := k] == [i, k];
  }

  lemma PrivateEnd(bufs: Buffers, saves: seq<nat>)
    requires Valid(bufs) && AllInside(bufs, saves)
    ensures PrivateRun(bufs, saves, []) == (bufs, [])
  {
  }

  datatype PrintedRequest = PrintedRequest(verb: string, path: string, version: string, tail: string) {
    predicate Legal() {
      LegalToken(verb) && LegalToken(path) && LegalText(version) && Terminated(Text())
    }
    function Text(): string { StartLine(verb, path, version) + CRLF + tail }
  }

  /** The path that the first worker reads is the other's, whatever the two requests are; with a
      pointer of its own it would be its own. */
  lemma {:induction false} PathTaken(a: PrintedRequest, b: PrintedRequest, save: Pointer)
    requires a.Legal() && b.Legal() && Inside([a.Text(), b.Text()], save)
    ensures var (bufs, rs) := SharedOutcome(a.Text(), b.Text(), save);
      && |rs| == 5 && rs[4] == Some(Pointer(1, |b.verb| + 1))
      && |bufs| == 2 && Terminated(bufs[1]) && |b.verb| + 1 < |bufs[1]| && StringAt(bufs[1], |b.verb| + 1) == b.path
    ensures var (bufs, rs) := PrivateOutcome(a.Text(), b.Text());
      && |rs| == 5 && rs[4] == Some(Pointer(0, |a.verb| + 1))
      && |bufs| == 2 && Terminated(bufs[0]) && |a.verb| + 1 < |bufs[0]| && StringAt(bufs[0], |a.verb| + 1) == a.path
  {
    CutsExact(a.verb, a.path, a.version, a.tail);
    CutsExact(b.verb, b.path, b.version, b.tail);
    hide Strtok, StringAt, SharedOutcome, PrivateOutcome, StartLine, LegalToken, LegalText;
    SharedFifth(a.Text(), |a.verb|, b.Text(), |b.verb|, save);
    PrivateFifth(a.Text(), |a.verb|, b.Text(), |b.verb|);
  }
}
