/** The reading half of phase2/src/server/context.ts: `parse`. */
module Context {
  import opened Options
  import opened Text
  import opened Headers
  import opened MessageReader

  /** A header line split at ": ". The value is undefined when the line has no ": ". */
  datatype Entry = Entry(key: string, value: Option<string>)

  /** The arguments of the HTTPContext, with the URL as the two strings it is resolved from. */
  datatype Context = Context(
    verb: string, rawPath: Option<string>, host: string,
    headers: map<string, seq<Option<string>>>, body: string)

  datatype Result = Ok(context: Context) | TypeError

  /** findIndex((line) => line === "") */
  function FindEmpty(lines: seq<string>): (r: Option<nat>)
    ensures r.Some? ==> r.value < |lines| && lines[r.value] == "" && "" !in lines[..r.value]
    ensures r.None? ==> "" !in lines
  {
    if lines == [] then None
    else if lines[0] == "" then Some(0)
    else
      match FindEmpty(lines[1..])
      case None => None
      case Some(i) =>
        assert lines[..i + 1] == [lines[0]] + lines[1..][..i];
        Some(i + 1)
  }

  function ToEntry(line: string): Entry {
    var parts := Split(line, ": ");
    Entry(Lower(parts[0]), if |parts| > 1 then Some(parts[1]) else None)
  }

  function ToEntries(lines: seq<string>): (r: seq<Entry>)
    ensures |r| == |lines|
  {
    seq(|lines|, i requires 0 <= i < |lines| => ToEntry(lines[i]))
  }

  /** The names that every object inherits from Object.prototype. The accumulator is a plain object, so
      for these `acc[key]` is truthy and has no push. */
  function Prototype(): seq<string> {
    ["constructor", "__proto__"] + WithCapitals()
  }

  function WithCapitals(): seq<string> {
    ["hasOwnProperty", "isPrototypeOf", "propertyIsEnumerable", "toLocaleString", "toString", "valueOf",
     "__defineGetter__", "__defineSetter__", "__lookupGetter__", "__lookupSetter__"]
  }

  predicate Inherited(key: string) { key in Prototype() }

  /** Keys are in lower case, and only two of those names are. */
  lemma InheritedExact(key: string)
    requires NoCapital(key)
    ensures Inherited(key) <==> key == "constructor" || key == "__proto__"
  {
    hide NoCapital;
    assert Inherited(key) <==> key == "constructor" || key == "__proto__" || key in WithCapitals() by {
      assert Prototype()[0] == "constructor" && Prototype()[1] == "__proto__";
    }
    if i :| 0 <= i < |WithCapitals()| && WithCapitals()[i] == key {
      HasCapital(i);
      assert false;
    }
  }

  lemma HasCapital(i: nat)
    requires i < |WithCapitals()|
    ensures !NoCapital(WithCapitals()[i])
  {
    var at := [3, 2, 8, 2, 2, 5, 8, 8, 8, 8];
    CapitalsExact(WithCapitals()[i][at[i]]);
    hide Capitals;
  }

  /** The reduce over the entries; None when it throws. */
  function Group(entries: seq<Entry>, acc: map<string, seq<Option<string>>>): Option<map<string, seq<Option<string>>>> {
    if entries == [] then Some(acc) else
    var Entry(key, value) := entries[0];
    if key in acc then Group(entries[1..], acc[key := acc[key] + [value]])
    else if Inherited(key) then None
    else Group(entries[1..], acc[key := [value]])
  }

  /** The body: the lines behind the first empty one. Without an empty line findIndex gives -1 and
      the slice starts at 0. */
  function BodyOf(request: string): string {
    var rest := Split(request, CRLF)[1..];
    Join(match FindEmpty(rest) case Some(i) => rest[i + 1..] case None => rest, CRLF)
  }

  /** Whether `new URL` accepts a path and a host is a parameter: the URL parser is not modelled. */
  type Resolver = (Option<string>, string) -> bool

  function Parse(request: string, resolves: Resolver): Result {
    var lines := Split(request, CRLF);
    var rest := lines[1..];
    var words := Split(lines[0], " ");
    // slice(0, -1) drops the last element when there is no blank line
    var headerLines := match FindEmpty(rest)
      case Some(i) => rest[..i]
      case None => if rest == [] then [] else rest[..|rest| - 1];
    match Group(ToEntries(headerLines), map[])
    case None => TypeError
    case Some(headers) =>
      // headers["host"][0] throws without a host header
      if "host" !in headers || headers["host"] == [] then TypeError else
      var first := headers["host"][0].GetOr("");
      var host := if first == "" then "localhost" else first;
      var rawPath := if |words| > 1 then Some(words[1]) else None;
      if resolves(rawPath, host) then Ok(Context(Upper(words[0]), rawPath, host, headers, BodyOf(request)))
      else TypeError
  }

  // ---------- Grouping ----------

  function KeysOf(entries: seq<Entry>): set<string> {
    set i | 0 <= i < |entries| :: entries[i].key
  }

  /** The values under a key, in order. */
  function ValuesUnder(entries: seq<Entry>, key: string): seq<Option<string>> {
    if entries == [] then []
    else (if entries[0].key == key then [entries[0].value] else []) + ValuesUnder(entries[1..], key)
  }

  function ValuesIn(m: map<string, seq<Option<string>>>, key: string): seq<Option<string>> {
    if key in m then m[key] else []
  }

  /** The reduce throws exactly on an inherited key, and otherwise collects under each key its
      values in their original order. */
  lemma {:induction false} GroupExact(entries: seq<Entry>, acc: map<string, seq<Option<string>>>, key: string)
    requires forall k <- acc :: !Inherited(k)
    ensures Group(entries, acc).None? <==> exists i :: 0 <= i < |entries| && Inherited(entries[i].key)
    ensures Group(entries, acc).Some? ==>
      && Group(entries, acc).value.Keys == acc.Keys + KeysOf(entries)
      && ValuesIn(Group(entries, acc).value, key) == ValuesIn(acc, key) + ValuesUnder(entries, key)
  {
    hide Inherited;
    if entries != [] {
      var Entry(k, v) := entries[0];
      assert forall i :: 0 <= i < |entries[1..]| ==> entries[1..][i] == entries[i + 1];
      if !Inherited(k) {
        var acc' := acc[k := ValuesIn(acc, k) + [v]];
        GroupExact(entries[1..], acc', key);
        GroupStep(entries, acc);
        KeysStep(entries);
        assert acc'.Keys == acc.Keys + {k};
        if (exists i :: 0 <= i < |entries| && Inherited(entries[i].key)) {
          var i :| 0 <= i < |entries| && Inherited(entries[i].key);
          assert Inherited(entries[1..][i - 1].key);
        }
      }
    }
  }

  lemma GroupStep(entries: seq<Entry>, acc: map<string, seq<Option<string>>>)
    requires entries != [] && !Inherited(entries[0].key)
    ensures Group(entries, acc)
         == Group(entries[1..], acc[entries[0].key := ValuesIn(acc, entries[0].key) + [entries[0].value]])
  {
    assert [] + [entries[0].value] == [entries[0].value];
  }

  lemma KeysStep(entries: seq<Entry>)
    requires entries != []
    ensures KeysOf(entries) == {entries[0].key} + KeysOf(entries[1..])
  {
  }

  // ---------- Round trip ----------

  /** One line, split behind the name. */
  predicate Carried(h: Header) {
    OneLine(h) && !Contains(h.name, ": ")
  }

  /** Nothing in the header would be taken for a separator. */
  predicate Separable(h: Header) {
    Carried(h) && !Contains(h.value, ": ")
  }

  predicate AllSeparable(hs: seq<Header>) {
    forall i :: 0 <= i < |hs| ==> Separable(hs[i])
  }

  /** The values of the headers with this name, in any letter case, in order. */
  function ValuesNamed(hs: seq<Header>, key: string): seq<Option<string>> {
    if hs == [] then []
    else (if Named(hs[0], key) then [Some(hs[0].value)] else []) + ValuesNamed(hs[1..], key)
  }

  function Lowered(hs: seq<Header>): (r: seq<Entry>)
    ensures |r| == |hs|
  {
    seq(|hs|, i requires 0 <= i < |hs| => Entry(Lower(hs[i].name), Some(hs[i].value)))
  }

  /** A key is the one of a name if it has its letters and no capital. */
  lemma KeyIff(name: string, key: string)
    ensures Lower(name) == key <==> SameLetters(name, key) && NoCapital(key)
  {
    LowerExact(name);
    CaseKept(key);
    LettersIff(name, key);
    hide SameLetters, Lower, NoCapital;
  }

  lemma {:induction false} ValuesLowered(hs: seq<Header>, key: string)
    requires NoCapital(key)
    ensures ValuesUnder(Lowered(hs), key) == ValuesNamed(hs, key)
  {
    hide SameLetters, Lower, NoCapital;
    if hs != [] {
      KeyIff(hs[0].name, key);
      ValuesLowered(hs[1..], key);
      assert Lowered(hs)[1..] == Lowered(hs[1..]);
    }
  }

  function RequestLine(verb: string, path: string, version: string): string {
    verb + " " + path + " " + version
  }

  function RequestText(verb: string, path: string, version: string, hs: seq<Header>, body: string): string {
    Lines([RequestLine(verb, path, version)]) + HeadersText(hs) + CRLF + body
  }

  lemma {:induction false} SplitLines(lines: seq<string>, s: string)
    requires forall i :: 0 <= i < |lines| ==> !Contains(lines[i], CRLF)
    ensures Split(Lines(lines) + s, CRLF) == lines + Split(s, CRLF)
    decreases |lines|
  {
    hide Split, Contains;
    if lines == [] {
      assert Lines(lines) + s == s;
    } else {
      assert Lines(lines) + s == lines[0] + CRLF + (Lines(lines[1..]) + s);
      SplitOnce(lines[0], CRLF, Lines(lines[1..]) + s);
      SplitLines(lines[1..], s);
    }
  }

  /** The lines that split("\r\n") finds: the body may contain any number of further breaks. */
  lemma RequestLines(verb: string, path: string, version: string, hs: seq<Header>, body: string)
    requires !Contains(RequestLine(verb, path, version), CRLF) && AllSeparable(hs)
    ensures Split(RequestText(verb, path, version, hs, body), CRLF)
         == [RequestLine(verb, path, version)] + HeaderLines(hs) + [""] + Split(body, CRLF)
  {
    hide Contains, Split, RequestLine;
    var start := RequestLine(verb, path, version);
    var lines := [start] + HeaderLines(hs) + [""];
    LacksSeparator("", CRLF, '\r');
    forall i | 0 <= i < |lines|
      ensures !Contains(lines[i], CRLF)
    {
      if 0 < i < |lines| - 1 {
        HeaderLineClean(hs[i - 1]);
      }
    }
    SplitLines(lines, body);
    LinesConcat([start] + HeaderLines(hs), [""]);
    LinesConcat([start], HeaderLines(hs));
    LinesOfHeaders(hs);
    assert Lines([""]) == CRLF;
    assert Lines(lines) + body == RequestText(verb, path, version, hs, body);
  }

  lemma PlainSplit(s: string, sep: string)
    requires Simple(sep)
    ensures Split(s, sep) == [s] <==> !Contains(s, sep)
    ensures Split(s, sep)[0] == s <==> !Contains(s, sep)
  {
    if Contains(s, sep) {
      assert |Split(s, sep)[0]| < |s|;
    }
  }

  /** split(": ") drops everything behind a second ": ": a value survives if and only if it has none. */
  lemma ValueKeptIff(h: Header)
    requires Carried(h)
    ensures ToEntry(HeaderLine(h)) == Entry(Lower(h.name), Some(Split(h.value, ": ")[0]))
    ensures SameLetters(ToEntry(HeaderLine(h)).key, h.name) && NoCapital(ToEntry(HeaderLine(h)).key)
    ensures ToEntry(HeaderLine(h)).value == Some(h.value) <==> !Contains(h.value, ": ")
  {
    LowerExact(h.name);
    hide Contains, Lower, Split, SameLetters, NoCapital;
    SplitOnce(h.name, ": ", h.value);
    PlainSplit(h.value, ": ");
  }

  /** Any line at all: the key is the text before the first ": ", the value the text from there to the
      second one, and undefined without a first. */
  lemma {:induction false} EntryExact(line: string)
    ensures var e := ToEntry(line);
      && NoCapital(e.key)
      && match IndexOf(line, ": ")
         case None => SameLetters(e.key, line) && e.value == None
         case Some(i) =>
           && i + 2 <= |line| && SameLetters(e.key, line[..i])
           && var rest := line[i + 2..];
              e.value == Some(match IndexOf(rest, ": ") case None => rest case Some(j) => rest[..j])
  {
    var r := IndexOf(line, ": ");
    LowerExact(if r.Some? then line[..r.value] else line);
    SplitHead(line);
    if r.Some? {
      SplitHead(line[r.value + 2..]);
    }
    hide Lower, SameLetters, NoCapital, Occurs, Split, IndexOf;
  }

  lemma SplitHead(s: string)
    ensures match IndexOf(s, ": ")
      case None => Split(s, ": ") == [s]
      case Some(i) => i + 2 <= |s| && |Split(s, ": ")| > 1 && Split(s, ": ")[0] == s[..i]
                      && Split(s, ": ")[1..] == Split(s[i + 2..], ": ")
  {
  }

  lemma EntriesOf(hs: seq<Header>)
    requires AllSeparable(hs)
    ensures ToEntries(HeaderLines(hs)) == Lowered(hs)
  {
    hide ToEntry;
    forall i | 0 <= i < |hs|
      ensures ToEntry(HeaderLines(hs)[i]) == Lowered(hs)[i]
    {
      ValueKeptIff(hs[i]);
    }
  }

  lemma BlankFound(lines: seq<string>, tail: seq<string>)
    requires "" !in lines
    ensures FindEmpty(lines + [""] + tail) == Some(|lines|)
  {
    var all := lines + [""] + tail;
    assert all[|lines|] == "";
    var r := FindEmpty(all);
    assert r.Some? && !(r.value > |lines|) by {
      assert all[..|lines| + 1][|lines|] == "";
    }
  }

  /** parse throws exactly when there is no host header, some key is inherited, or the URL parser
      refuses the path on that host. */
  predicate Refused(path: string, hs: seq<Header>, resolves: Resolver) {
    || (forall i :: 0 <= i < |hs| ==> !Named(hs[i], "host"))
    || (exists i :: 0 <= i < |hs| && (Named(hs[i], "constructor") || Named(hs[i], "__proto__")))
    || !resolves(Some(path), HostOf(hs))
  }

  function HostOf(hs: seq<Header>): string {
    if FirstHost(hs) == "" then "localhost" else FirstHost(hs)
  }

  /** The first host value; empty when there is none. */
  function FirstHost(hs: seq<Header>): string {
    if hs == [] then "" else if Named(hs[0], "host") then hs[0].value else FirstHost(hs[1..])
  }

  /** The parts that parse works with. */
  lemma PartsOf(verb: string, path: string, version: string, hs: seq<Header>, body: string)
    requires ' ' !in verb && ' ' !in path
    requires !Contains(RequestLine(verb, path, version), CRLF) && AllSeparable(hs)
    ensures var lines := Split(RequestText(verb, path, version, hs, body), CRLF);
      && |lines| == |hs| + 2 + |Split(body, CRLF)|
      && Split(lines[0], " ") == [verb, path] + Split(version, " ")
      && HeadOf(lines) == HeaderLines(hs)
      && BodyOf(RequestText(verb, path, version, hs, body)) == body
  {
    hide Split, Contains, RequestText, Join;
    RequestLines(verb, path, version, hs, body);
    var lines := Split(RequestText(verb, path, version, hs, body), CRLF);
    assert lines[0] == RequestLine(verb, path, version);
    TwoWords(verb, path, version);
    assert lines[1..] == HeaderLines(hs) + [""] + Split(body, CRLF);
    BlankFound(HeaderLines(hs), Split(body, CRLF));
    assert lines[1..][|hs| + 1..] == Split(body, CRLF);
    JoinSplit(body, CRLF);
  }

  /** The lines between the request line and the first empty one; without an empty one, all but the
      last. */
  function HeadOf(lines: seq<string>): seq<string>
    requires lines != []
  {
    match FindEmpty(lines[1..])
    case Some(k) => lines[1..k + 1]
    case None => if |lines| == 1 then [] else lines[1..|lines| - 1]
  }

  function PathOf(words: seq<string>): Option<string> { if |words| > 1 then Some(words[1]) else None }

  /** The value of the first entry for host. */
  function HostIn(entries: seq<Entry>): string {
    if entries == [] then "localhost"
    else if entries[0].key != "host" then HostIn(entries[1..])
    else if entries[0].value == None || entries[0].value == Some("") then "localhost"
    else entries[0].value.value
  }

  predicate NoHost(entries: seq<Entry>) { forall i :: 0 <= i < |entries| ==> entries[i].key != "host" }

  predicate AnyInherited(entries: seq<Entry>) {
    exists i :: 0 <= i < |entries| && (entries[i].key == "constructor" || entries[i].key == "__proto__")
  }

  /** Every request at all, with the keys and values that EntryExact gives its lines. */
  lemma {:induction false} ParseExact(request: string, resolves: Resolver)
    ensures var lines := Split(request, CRLF);
      var words, entries := Split(lines[0], " "), ToEntries(HeadOf(lines));
      var r := Parse(request, resolves);
      && (r == TypeError <==> NoHost(entries) || AnyInherited(entries) || !resolves(PathOf(words), HostIn(entries)))
      && (r.Ok? ==>
            && SameLetters(r.context.verb, words[0]) && NoSmall(r.context.verb)
            && r.context.rawPath == PathOf(words) && r.context.host == HostIn(entries)
            && r.context.body == BodyOf(request)
            && r.context.headers.Keys == KeysOf(entries)
            && forall key :: ValuesIn(r.context.headers, key) == ValuesUnder(entries, key))
  {
    hide Split, Join, Group, ToEntries, Upper, BodyOf, ValuesUnder, FindEmpty, KeysOf, SameLetters, NoSmall,
      HostIn, NoHost, AnyInherited;
    var lines := Split(request, CRLF);
    var words, entries := Split(lines[0], " "), ToEntries(HeadOf(lines));
    UpperExact(words[0]);
    SameHead(lines);
    hide HeadOf;
    GroupRefuses(HeadOf(lines));
    GroupedByKey(entries);
    HostFound(entries);
    var g := Group(entries, map[]);
    if g.Some? {
      assert ValuesIn(g.value, "host") == ValuesUnder(entries, "host");
    }
  }

  lemma SameHead(lines: seq<string>)
    requires lines != []
    ensures var rest := lines[1..];
      HeadOf(lines) == match FindEmpty(rest)
        case Some(i) => rest[..i]
        case None => if rest == [] then [] else rest[..|rest| - 1]
  {
    hide FindEmpty;
  }

  lemma GroupRefuses(lines: seq<string>)
    ensures Group(ToEntries(lines), map[]).None? <==> AnyInherited(ToEntries(lines))
    ensures Group(ToEntries(lines), map[]).Some? ==> Group(ToEntries(lines), map[]).value.Keys == KeysOf(ToEntries(lines))
  {
    var entries := ToEntries(lines);
    forall i | 0 <= i < |entries|
      ensures Inherited(entries[i].key) <==> entries[i].key == "constructor" || entries[i].key == "__proto__"
    {
      EntryExact(lines[i]);
      InheritedExact(entries[i].key);
    }
    hide ToEntries, Group, Inherited, KeysOf;
    GroupExact(entries, map[], "host");
  }

  /** What `headers["host"][0] || "localhost"` is. */
  lemma {:induction false} HostFound(entries: seq<Entry>)
    ensures ValuesUnder(entries, "host") == [] <==> NoHost(entries)
    ensures ValuesUnder(entries, "host") != [] ==>
      var first := ValuesUnder(entries, "host")[0].GetOr("");
      HostIn(entries) == if first == "" then "localhost" else first
  {
    if entries != [] {
      HostFound(entries[1..]);
      assert forall i :: 0 < i < |entries| ==> entries[i] == entries[1..][i - 1];
    }
  }

  /** The round trip: any request with separable headers is refused for exactly one of three reasons,
      and otherwise comes back with its path, its exact body (blank lines and all) and, under every
      key without capitals, the values of the headers with that name in their original order. */
  lemma ParseRoundTrip(verb: string, path: string, version: string, hs: seq<Header>, body: string, resolves: Resolver)
    requires ' ' !in verb && ' ' !in path
    requires !Contains(RequestLine(verb, path, version), CRLF) && AllSeparable(hs)
    ensures var r := Parse(RequestText(verb, path, version, hs, body), resolves);
      && (r == TypeError <==> Refused(path, hs, resolves))
      && (r.Ok? ==>
            && SameLetters(r.context.verb, verb) && NoSmall(r.context.verb)
            && (NoSmall(verb) ==> r.context.verb == verb)
            && r.context.rawPath == Some(path) && r.context.body == body && r.context.host == HostOf(hs)
            && (forall key :: key in r.context.headers <==>
                  NoCapital(key) && exists i :: 0 <= i < |hs| && Named(hs[i], key))
            && forall key :: NoCapital(key) ==> ValuesIn(r.context.headers, key) == ValuesNamed(hs, key))
  {
    hide Split, Contains, RequestText, Parse, RequestLine, Upper, Lower, Join, SameLetters, NoSmall, NoCapital,
      HostIn, NoHost, AnyInherited, ValuesIn, ValuesUnder, FindEmpty, HeaderLines, KeysOf, AllSeparable, BodyOf,
      ToEntries, Refused, HostOf, Named, ValuesNamed;
    var request := RequestText(verb, path, version, hs, body);
    PartsOf(verb, path, version, hs, body);
    ParseExact(request, resolves);
    EntriesOf(hs);
    RefusedIff(path, hs, resolves);
    HostLowered(hs);
    KeysLowered(hs);
    var r := Parse(request, resolves);
    if r.Ok? {
      SmallsTell(r.context.verb, verb);
      forall key | NoCapital(key) ensures ValuesIn(r.context.headers, key) == ValuesNamed(hs, key) {
        ValuesLowered(hs, key);
      }
    }
  }

  lemma SmallsTell(a: string, b: string)
    requires SameLetters(a, b) && NoSmall(a)
    ensures NoSmall(b) ==> a == b
  {
    hide Forms, Capitals, Smalls;
    forall i | 0 <= i < |a| ensures b[i] in Smalls() || a[i] == b[i] {
      FormsExact(a[i], b[i]);
      FormsExact(b[i], a[i]);
      SmallsExact(a[i]);
      SmallsExact(b[i]);
    }
  }

  lemma KeysLowered(hs: seq<Header>)
    ensures forall key :: key in KeysOf(Lowered(hs)) <==>
      NoCapital(key) && exists i :: 0 <= i < |hs| && Named(hs[i], key)
  {
    hide SameLetters, Lower, NoCapital;
    forall key
      ensures key in KeysOf(Lowered(hs)) <==> NoCapital(key) && exists i :: 0 <= i < |hs| && Named(hs[i], key)
    {
      forall i | 0 <= i < |hs| ensures Lowered(hs)[i].key == key <==> Named(hs[i], key) && NoCapital(key) {
        KeyIff(hs[i].name, key);
      }
    }
  }

  /** The three special keys have no capitals. */
  lemma SpecialKeys()
    ensures NoCapital("host") && NoCapital("constructor") && NoCapital("__proto__")
  {
    hide Capitals;
    forall c | 'a' <= c <= 'z' || c == '_' ensures c !in Capitals() { CapitalsExact(c); }
  }

  lemma RefusedIff(path: string, hs: seq<Header>, resolves: Resolver)
    ensures Refused(path, hs, resolves) <==>
      NoHost(Lowered(hs)) || AnyInherited(Lowered(hs)) || !resolves(Some(path), HostOf(hs))
  {
    SpecialKeys();
    hide SameLetters, Lower, NoCapital, HostOf;
    forall i | 0 <= i < |hs|
      ensures Lowered(hs)[i].key == "host" <==> Named(hs[i], "host")
      ensures Lowered(hs)[i].key == "constructor" <==> Named(hs[i], "constructor")
      ensures Lowered(hs)[i].key == "__proto__" <==> Named(hs[i], "__proto__")
    {
      KeyIff(hs[i].name, "host");
      KeyIff(hs[i].name, "constructor");
      KeyIff(hs[i].name, "__proto__");
    }
  }

  lemma {:induction false} HostLowered(hs: seq<Header>)
    ensures HostIn(Lowered(hs)) == HostOf(hs)
  {
    SpecialKeys();
    hide SameLetters, Lower, NoCapital;
    if hs != [] {
      KeyIff(hs[0].name, "host");
      HostLowered(hs[1..]);
      assert Lowered(hs)[1..] == Lowered(hs[1..]);
    }
  }

  lemma GroupedByKey(entries: seq<Entry>)
    ensures var g := Group(entries, map[]);
      g.Some? ==> forall key :: ValuesIn(g.value, key) == ValuesUnder(entries, key)
  {
    hide Group, Inherited;
    forall key
      ensures Group(entries, map[]).Some? ==>
        ValuesIn(Group(entries, map[]).value, key) == ValuesUnder(entries, key)
    {
      GroupExact(entries, map[], key);
      assert [] + ValuesUnder(entries, key) == ValuesUnder(entries, key);
    }
  }

  // ---------- The body of any request ----------

  predicate BreakAt(s: string, j: nat) {
    j + 2 <= |s| && s[j] == '\r' && s[j + 1] == '\n'
  }

  /** Before its end, joined lines have no two breaks in a row. */
  lemma {:induction false} NoEarlyBlank(lines: seq<string>, rest: string)
    requires lines != [] && (rest == "" || BreakAt(rest, 0))
    requires forall i, j: nat :: 0 <= i < |lines| ==> !BreakAt(lines[i], j)
    requires forall i :: 1 <= i < |lines| ==> lines[i] != ""
    ensures var s := Join(lines, CRLF) + rest;
      && (forall j: nat :: j < |Join(lines, CRLF)| ==> !(BreakAt(s, j) && BreakAt(s, j + 2)))
      && (lines[0] != "" ==> !BreakAt(s, 0))
    decreases |lines|
  {
    var a, s := lines[0], Join(lines, CRLF) + rest;
    assert forall j: nat :: !BreakAt(a, j);
    if |lines| == 1 {
      EndOfLine(a, rest);
    } else {
      var more := lines[1..];
      var s' := Join(more, CRLF) + rest;
      assert s == a + (CRLF + s');
      EndOfLine(a, CRLF + s');
      NoEarlyBlank(more, rest);
      forall j: nat | j < |Join(lines, CRLF)|
        ensures !(BreakAt(s, j) && BreakAt(s, j + 2))
      {
        if j >= |a| + 2 {
          BreakShifts(a + CRLF, s', j - |a| - 2);
          BreakShifts(a + CRLF, s', j - |a|);
          assert s == (a + CRLF) + s';
        } else if j == |a| {
          BreakShifts(a + CRLF, s', 0);
          assert s == (a + CRLF) + s';
        }
      }
    }
  }

  lemma EndOfLine(a: string, rest: string)
    requires rest == "" || BreakAt(rest, 0)
    requires forall j: nat :: !BreakAt(a, j)
    ensures forall j: nat :: j < |a| ==> !BreakAt(a + rest, j)
    ensures rest != "" ==> (a + rest)[|a| + 1] == '\n'
  {
    forall j: nat | j < |a| ensures !BreakAt(a + rest, j) {
      assert !BreakAt(a, j);
    }
  }

  lemma BreakShifts(a: string, b: string, j: nat)
    ensures BreakAt(a + b, |a| + j) <==> BreakAt(b, j)
  {
  }

  /** The position of the first blank line's break, if there is one. */
  ghost predicate FirstBlank(s: string, i: nat) {
    BreakAt(s, i) && BreakAt(s, i + 2) && forall j: nat :: j < i ==> !(BreakAt(s, j) && BreakAt(s, j + 2))
  }

  lemma {:induction false} SplitClean(s: string)
    ensures forall i, j: nat :: 0 <= i < |Split(s, CRLF)| ==> !BreakAt(Split(s, CRLF)[i], j)
    decreases |s|
  {
    var parts, r := Split(s, CRLF), IndexOf(s, CRLF);
    var line := if r.Some? then s[..r.value] else s;
    forall j: nat ensures !BreakAt(line, j) {
      if BreakAt(line, j) {
        assert Occurs(s, CRLF, j);
      }
    }
    if r.Some? {
      SplitClean(s[r.value + 2..]);
      assert parts == [line] + Split(s[r.value + 2..], CRLF);
    }
  }

  /** With an empty line: the lines before it, its break, and the body if anything follows. */
  lemma {:induction false} BodyBehindBlank(request: string, k: nat)
    requires FindEmpty(Split(request, CRLF)[1..]) == Some(k)
    ensures k + 1 < |Split(request, CRLF)|
    ensures var front := Join(Split(request, CRLF)[..k + 1], CRLF);
      && (request == front + CRLF || request == front + (CRLF + CRLF + BodyOf(request)))
      && (request == front + CRLF ==> BodyOf(request) == "")
  {
    hide Split;
    var lines := Split(request, CRLF);
    JoinSplit(request, CRLF);
    var front, tail := lines[..k + 1], lines[k + 2..];
    assert lines[1..][k + 1..] == tail && lines[k + 1] == lines[1..][k] == "";
    assert lines == front + ([""] + tail);
    JoinConcat(front, [""] + tail, CRLF);
    assert ([""] + tail)[1..] == tail;
  }

  /** Lines of a request before the first empty one. */
  ghost predicate Front(lines: seq<string>) {
    && lines != [] && (forall i, j: nat :: 0 <= i < |lines| ==> !BreakAt(lines[i], j))
    && forall i :: 1 <= i < |lines| ==> lines[i] != ""
  }

  lemma FrontNonempty(lines: seq<string>, i: nat)
    requires 1 <= i < |lines|
    requires match FindEmpty(lines[1..]) case Some(k) => i <= k case None => true
    ensures lines[i] != ""
  {
    var b := FindEmpty(lines[1..]);
    assert lines[i] == lines[1..][i - 1];
    if b.Some? {
      assert lines[i] == lines[1..][..b.value][i - 1];
    }
  }

  function FrontLength(lines: seq<string>): (n: nat)
    requires lines != []
    ensures 1 <= n <= |lines|
  {
    match FindEmpty(lines[1..]) case Some(k) => k + 1 case None => |lines|
  }

  lemma {:induction false} FrontClean(request: string)
    ensures Front(Split(request, CRLF)[..FrontLength(Split(request, CRLF))])
  {
    SplitClean(request);
    hide Split, BreakAt;
    var lines := Split(request, CRLF);
    var n := FrontLength(lines);
    var front := lines[..n];
    forall i | 1 <= i < n ensures front[i] != "" {
      FrontNonempty(lines, i);
    }
    assert forall i, j: nat :: 0 <= i < |front| ==> !BreakAt(front[i], j);
  }

  lemma {:induction false} BlankAtEnd(lines: seq<string>, s: string)
    requires Front(lines) && s == Join(lines, CRLF) + CRLF
    ensures |s| >= 2 && BreakAt(s, |s| - 2) && forall i: nat :: !FirstBlank(s, i)
  {
    NoEarlyBlank(lines, CRLF);
    BreakShifts(Join(lines, CRLF), CRLF, 0);
    hide Join;
  }

  lemma {:induction false} BlankInside(lines: seq<string>, body: string, s: string)
    requires Front(lines) && s == Join(lines, CRLF) + (CRLF + CRLF + body)
    ensures forall i: nat :: FirstBlank(s, i) <==> i == |Join(lines, CRLF)|
    ensures s[|Join(lines, CRLF)| + 4..] == body
  {
    var front, rest := Join(lines, CRLF), CRLF + CRLF + body;
    NoEarlyBlank(lines, rest);
    BreakShifts(front, rest, 0);
    BreakShifts(front, rest, 2);
    hide Join;
    assert rest[0] == '\r' && rest[1] == '\n' && rest[2] == '\r' && rest[3] == '\n';
    assert FirstBlank(s, |front|);
  }

  lemma {:induction false} BlankPresent(request: string, k: nat)
    requires FindEmpty(Split(request, CRLF)[1..]) == Some(k)
    ensures forall i: nat :: FirstBlank(request, i) ==> i + 4 <= |request| && BodyOf(request) == request[i + 4..]
    ensures (forall i: nat :: !FirstBlank(request, i)) ==>
      |request| >= 2 && BreakAt(request, |request| - 2) && BodyOf(request) == ""
  {
    hide Split, Join, BodyOf, FirstBlank;
    BodyBehindBlank(request, k);
    var lines, body := Split(request, CRLF), BodyOf(request);
    FrontClean(request);
    var front := lines[..k + 1];
    hide FindEmpty, BreakAt, Front;
    if request == Join(front, CRLF) + CRLF {
      BlankAtEnd(front, request);
    } else {
      BlankInside(front, body, request);
      assert FirstBlank(request, |Join(front, CRLF)|);
    }
  }

  /** A last line that is not empty does not end with a break. */
  lemma EndsInLine(before: string, last: string)
    requires last != "" && (forall j: nat :: !BreakAt(last, j)) && (before == "" || before[|before| - 1] == '\n')
    ensures var s := before + last; |s| >= 2 ==> !BreakAt(s, |s| - 2)
  {
    if |last| >= 2 {
      assert !BreakAt(last, |last| - 2);
      BreakShifts(before, last, |last| - 2);
    }
  }

  lemma {:induction false} JoinEnd(lines: seq<string>) returns (before: string)
    requires lines != []
    ensures Join(lines, CRLF) == before + lines[|lines| - 1]
    ensures if |lines| == 1 then before == "" else before != "" && before[|before| - 1] == '\n'
  {
    if |lines| == 1 {
      before := "";
    } else {
      var n := |lines| - 1;
      JoinConcat(lines[..n], [lines[n]], CRLF);
      assert lines == lines[..n] + [lines[n]];
      before := Join(lines[..n], CRLF) + CRLF;
    }
  }

  lemma {:induction false} NoBlank(lines: seq<string>, s: string)
    requires Front(lines) && s == Join(lines, CRLF)
    ensures forall i: nat :: !FirstBlank(s, i)
    ensures |s| >= 2 ==> !BreakAt(s, |s| - 2)
  {
    assert s + "" == s;
    NoEarlyBlank(lines, "");
    var before := JoinEnd(lines);
    hide Join;
    var last := lines[|lines| - 1];
    if last != "" {
      EndsInLine(before, last);
    }
  }

  lemma {:induction false} BlankAbsent(request: string)
    requires FindEmpty(Split(request, CRLF)[1..]) == None
    ensures forall i: nat :: !FirstBlank(request, i)
    ensures |request| >= 2 ==> !BreakAt(request, |request| - 2)
  {
    hide Split, Join, FirstBlank;
    var lines := Split(request, CRLF);
    JoinSplit(request, CRLF);
    FrontClean(request);
    hide FindEmpty, BreakAt, Front;
    assert lines[..|lines|] == lines;
    NoBlank(lines, request);
  }

  lemma {:induction false} SplitRest(s: string)
    ensures match IndexOf(s, CRLF)
      case None => Split(s, CRLF)[1..] == []
      case Some(i) => i + 2 <= |s| && Split(s, CRLF)[1..] == Split(s[i + 2..], CRLF)
  {
  }

  lemma {:induction false} BodyWithoutBlank(request: string)
    requires FindEmpty(Split(request, CRLF)[1..]) == None
    ensures BodyOf(request) == match IndexOf(request, CRLF) case None => "" case Some(i) => request[i + 2..]
  {
    hide Split, IndexOf, FindEmpty, Occurs;
    SplitRest(request);
    match IndexOf(request, CRLF)
    case None =>
    case Some(i) => JoinSplit(request[i + 2..], CRLF);
  }

  /** For every request at all: the body is everything behind the first two breaks in a row. Without
      them it is empty if the request ends with a break, and otherwise everything behind the first
      line. */
  lemma {:induction false} BodyIsVerbatim(request: string, resolves: Resolver)
    ensures forall i: nat :: FirstBlank(request, i) ==> i + 4 <= |request| && BodyOf(request) == request[i + 4..]
    ensures (forall i: nat :: !FirstBlank(request, i)) ==>
      BodyOf(request) ==
        if |request| >= 2 && BreakAt(request, |request| - 2) then ""
        else match IndexOf(request, CRLF) case None => "" case Some(i) => request[i + 2..]
    ensures var r := Parse(request, resolves); r.Ok? ==> r.context.body == BodyOf(request)
  {
    hide FirstBlank, BodyOf, Split, FindEmpty, Group, ToEntries, Upper, Occurs;
    match FindEmpty(Split(request, CRLF)[1..])
    case Some(k) => BlankPresent(request, k);
    case None =>
      BlankAbsent(request);
      BodyWithoutBlank(request);
  }
}
