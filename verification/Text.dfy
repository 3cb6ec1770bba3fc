/** Searching, splitting, joining and lower-casing text. A byte on the wire is a char. */
module Text {
  import opened Options

  const CRLF: string := "\r\n"

  predicate Occurs(s: string, sep: string, i: nat) {
    i + |sep| <= |s| && s[i..i + |sep|] == sep
  }

  /** Position of the first occurrence of `sep`, as String.prototype.indexOf finds it. */
  function IndexOf(s: string, sep: string): (r: Option<nat>)
    requires sep != ""
    ensures r.Some? ==> Occurs(s, sep, r.value) && forall j: nat :: j < r.value ==> !Occurs(s, sep, j)
    ensures r.None? ==> forall j: nat :: !Occurs(s, sep, j)
  {
    if |s| < |sep| then None
    else if s[..|sep|] == sep then Some(0)
    else
      OccursInTail(s, sep);
      match IndexOf(s[1..], sep)
      case None => None
      case Some(i) => Some(i + 1)
  }

  lemma OccursInTail(s: string, sep: string)
    requires s != ""
    ensures forall j: nat :: Occurs(s, sep, j + 1) <==> Occurs(s[1..], sep, j)
    ensures forall j: nat :: j > 0 && Occurs(s, sep, j) ==> Occurs(s[1..], sep, j - 1)
  {
  }

  predicate Contains(s: string, sep: string)
    requires sep != ""
  {
    IndexOf(s, sep).Some?
  }

  /** A text without one of the separator's characters does not contain it. */
  lemma LacksSeparator(s: string, sep: string, c: char)
    requires c in sep && c !in s
    ensures !Contains(s, sep)
  {
  }

  /** Separators that cannot overlap themselves: " ", ": " and CRLF. */
  predicate Simple(sep: string) {
    |sep| == 1 || (|sep| == 2 && sep[0] != sep[1])
  }

  lemma FirstSeparator(line: string, sep: string, rest: string)
    requires Simple(sep) && !Contains(line, sep)
    ensures IndexOf(line + sep + rest, sep) == Some(|line|)
  {
    var s := line + sep + rest;
    assert Occurs(s, sep, |line|);
    forall j: nat | j < |line|
      ensures !Occurs(s, sep, j)
    {
      if j + |sep| <= |line| {
        assert !Occurs(line, sep, j);
        assert s[j..j + |sep|] == line[j..j + |sep|];
      } else {
        assert s[j + 1] == sep[0];
        assert s[j..j + 2][1] == s[j + 1];
      }
    }
  }

  /** String.prototype.split. */
  function Split(s: string, sep: string): (parts: seq<string>)
    requires sep != ""
    ensures |parts| >= 1
    decreases |s|
  {
    match IndexOf(s, sep)
    case None => [s]
    case Some(i) => [s[..i]] + Split(s[i + |sep|..], sep)
  }

  /** Array.prototype.join. */
  function Join(parts: seq<string>, sep: string): string {
    if parts == [] then ""
    else if |parts| == 1 then parts[0]
    else parts[0] + sep + Join(parts[1..], sep)
  }

  lemma SplitOnce(line: string, sep: string, rest: string)
    requires Simple(sep) && !Contains(line, sep)
    ensures Split(line + sep + rest, sep) == [line] + Split(rest, sep)
  {
    FirstSeparator(line, sep, rest);
    var s := line + sep + rest;
    assert s[..|line|] == line;
    assert s[|line| + |sep|..] == rest;
  }

  lemma {:induction false} JoinSplit(s: string, sep: string)
    requires sep != ""
    ensures Join(Split(s, sep), sep) == s
    decreases |s|
  {
    var r := IndexOf(s, sep);
    if r.Some? {
      JoinSplit(s[r.value + |sep|..], sep);
      assert Split(s, sep)[1..] == Split(s[r.value + |sep|..], sep);
      assert s == s[..r.value] + sep + s[r.value + |sep|..];
    }
  }

  lemma {:induction false} JoinConcat(a: seq<string>, b: seq<string>, sep: string)
    requires a != [] && b != []
    ensures Join(a + b, sep) == Join(a, sep) + sep + Join(b, sep)
    decreases |a|
  {
    if |a| == 1 {
      assert (a + b)[1..] == b;
    } else {
      assert (a + b)[1..] == a[1..] + b;
      JoinConcat(a[1..], b, sep);
      assert a[0] + sep + (Join(a[1..], sep) + sep + Join(b, sep))
          == (a[0] + sep + Join(a[1..], sep)) + sep + Join(b, sep);
    }
  }

  /** Lines, each ended by CRLF. */
  function Lines(lines: seq<string>): string {
    if lines == [] then "" else lines[0] + CRLF + Lines(lines[1..])
  }

  lemma {:induction false} LinesConcat(a: seq<string>, b: seq<string>)
    ensures Lines(a + b) == Lines(a) + Lines(b)
  {
    if a == [] {
      assert a + b == b;
    } else {
      assert (a + b)[1..] == a[1..] + b;
      LinesConcat(a[1..], b);
    }
  }

  // ---------- Letter case ----------

  /** tolower in the C locale. */
  function LowerChar(c: char): char {
    if 'A' <= c <= 'Z' then c + 32 as char else c
  }

  function Lower(s: string): (r: string)
    ensures |r| == |s|
  {
    seq(|s|, i requires 0 <= i < |s| => LowerChar(s[i]))
  }

  function UpperChar(c: char): char {
    if 'a' <= c <= 'z' then c - 32 as char else c
  }

  function Upper(s: string): (r: string)
    ensures |r| == |s|
  {
    seq(|s|, i requires 0 <= i < |s| => UpperChar(s[i]))
  }

  function Capitals(): string { "ABCDEFGHIJKLMNOPQRSTUVWXYZ" }
  function Smalls(): string { "abcdefghijklmnopqrstuvwxyz" }

  predicate NoCapital(s: string) { forall i :: 0 <= i < |s| ==> s[i] !in Capitals() }
  predicate NoSmall(s: string) { forall i :: 0 <= i < |s| ==> s[i] !in Smalls() }

  /** The capital and the small form of one letter: they stand at one place in the two alphabets. */
  predicate Forms(capital: char, small: char) {
    exists k :: 0 <= k < |Capitals()| && k < |Smalls()| && Capitals()[k] == capital && Smalls()[k] == small
  }

  predicate SameLetter(a: char, b: char) { a == b || Forms(a, b) || Forms(b, a) }

  /** The same text up to letter case. */
  predicate SameLetters(a: string, b: string) {
    |a| == |b| && forall i :: 0 <= i < |a| ==> SameLetter(a[i], b[i])
  }

  lemma Alphabets(k: nat)
    requires k < 26
    ensures |Capitals()| == |Smalls()| == 26
    ensures Capitals()[k] == 'A' + k as char && Smalls()[k] == 'a' + k as char
  {
  }

  lemma CapitalsExact(c: char)
    ensures c in Capitals() <==> 'A' <= c <= 'Z'
  {
    hide Capitals;
    if 'A' <= c <= 'Z' {
      Alphabets((c - 'A') as int);
    }
    if c in Capitals() {
      Alphabets(0);
      var k: nat :| k < |Capitals()| && Capitals()[k] == c;
      Alphabets(k);
    }
  }

  lemma SmallsExact(c: char)
    ensures c in Smalls() <==> 'a' <= c <= 'z'
  {
    hide Smalls;
    if 'a' <= c <= 'z' {
      Alphabets((c - 'a') as int);
    }
    if c in Smalls() {
      Alphabets(0);
      var k: nat :| k < |Smalls()| && Smalls()[k] == c;
      Alphabets(k);
    }
  }

  lemma FormsExact(a: char, b: char)
    ensures Forms(a, b) <==> 'A' <= a <= 'Z' && b == a + 32 as char
  {
    hide Capitals, Smalls;
    if 'A' <= a <= 'Z' {
      Alphabets((a - 'A') as int);
    }
    if Forms(a, b) {
      Alphabets(0);
      var k: nat :| k < |Capitals()| && Capitals()[k] == a && Smalls()[k] == b;
      Alphabets(k);
    }
  }

  /** Lower case keeps the letters and leaves no capital. */
  lemma LowerExact(s: string)
    ensures SameLetters(Lower(s), s) && NoCapital(Lower(s))
  {
    hide Forms, Capitals, Smalls;
    forall i | 0 <= i < |s| ensures SameLetter(Lower(s)[i], s[i]) && Lower(s)[i] !in Capitals() {
      CapitalsExact(Lower(s)[i]);
      FormsExact(s[i], Lower(s)[i]);
      FormsExact(Lower(s)[i], s[i]);
    }
  }

  lemma UpperExact(s: string)
    ensures SameLetters(Upper(s), s) && NoSmall(Upper(s))
  {
    hide Forms, Capitals, Smalls;
    forall i | 0 <= i < |s| ensures SameLetter(Upper(s)[i], s[i]) && Upper(s)[i] !in Smalls() {
      SmallsExact(Upper(s)[i]);
      FormsExact(s[i], Upper(s)[i]);
      FormsExact(Upper(s)[i], s[i]);
    }
  }

  /** Lower case tells two texts apart exactly if they differ in more than letter case. */
  lemma LettersIff(a: string, b: string)
    ensures Lower(a) == Lower(b) <==> SameLetters(a, b)
  {
    hide Forms, Capitals, Smalls;
    forall i | 0 <= i < |a| && i < |b|
      ensures LowerChar(a[i]) == LowerChar(b[i]) <==> SameLetter(a[i], b[i])
    {
      FormsExact(a[i], b[i]);
      FormsExact(b[i], a[i]);
    }
    if Lower(a) == Lower(b) {
      forall i | 0 <= i < |a| ensures LowerChar(a[i]) == LowerChar(b[i]) {
        assert Lower(a)[i] == Lower(b)[i];
      }
    }
  }

  /** Texts without capitals, or without small letters, are kept. */
  lemma CaseKept(s: string)
    ensures NoCapital(s) ==> Lower(s) == s
    ensures NoSmall(s) ==> Upper(s) == s
  {
    hide Forms, Capitals, Smalls;
    forall i | 0 <= i < |s| ensures s[i] in Capitals() || LowerChar(s[i]) == s[i] {
      CapitalsExact(s[i]);
    }
    forall i | 0 <= i < |s| ensures s[i] in Smalls() || UpperChar(s[i]) == s[i] {
      SmallsExact(s[i]);
    }
  }

  lemma LowerIdempotent(s: string)
    ensures Lower(Lower(s)) == Lower(s)
  {
  }
}
