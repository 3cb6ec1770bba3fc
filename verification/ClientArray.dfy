/** The array of chat clients in src/chat-server.c as a sequence: swap-remove and the search by
    descriptor. */
module ClientArray {
  import opened Options

  /** Overwrites slot `i` with the last element and drops the last slot. */
  function SwapRemove<T>(s: seq<T>, i: nat): seq<T>
    requires i < |s|
  {
    s[i := s[|s| - 1]][..|s| - 1]
  }

  /** Swap-remove drops exactly one element and keeps the rest, in some order. */
  lemma SwapRemoveKeeps<T>(s: seq<T>, i: nat)
    requires i < |s|
    ensures multiset(SwapRemove(s, i)) + multiset{s[i]} == multiset(s)
  {
    hide SwapRemove;
    var n := |s| - 1;
    SwapRemoveAt(s, i);
    if i == n {
      assert SwapRemove(s, i) == s[..n] && s == s[..n] + [s[n]];
    } else {
      var a, b := s[..i], s[i + 1..n];
      assert SwapRemove(s, i) == a + [s[n]] + b;
      assert s == a + [s[i]] + b + [s[n]];
      Exchanged(a, s[i], b, s[n]);
    }
  }

  lemma Exchanged<T>(a: seq<T>, x: T, b: seq<T>, y: T)
    ensures multiset(a + [y] + b) + multiset{x} == multiset(a + [x] + b + [y])
  {
    assert multiset(a + [y] + b) == multiset(a) + multiset{y} + multiset(b);
    assert multiset(a + [x] + b + [y]) == multiset(a) + multiset{x} + multiset(b) + multiset{y};
  }

  /** Every entry left is an old one from another place. */
  lemma SwapRemoveAt<T>(s: seq<T>, i: nat)
    requires i < |s|
    ensures |SwapRemove(s, i)| == |s| - 1
    ensures forall j :: 0 <= j < |s| - 1 ==> SwapRemove(s, i)[j] == s[if j == i then |s| - 1 else j]
  {
  }

  /** The first index holding `x`. */
  function FirstIndex(s: seq<int>, x: int): (r: Option<nat>)
    ensures r.Some? ==> r.value < |s| && s[r.value] == x && x !in s[..r.value]
    ensures r.None? ==> x !in s
  {
    if s == [] then None
    else if s[0] == x then Some(0)
    else
      match FirstIndex(s[1..], x)
      case None => None
      case Some(i) =>
        assert s[..i + 1] == [s[0]] + s[1..][..i];
        Some(i + 1)
  }

  lemma {:induction false} FirstIndexLeast(s: seq<int>, x: int, i: nat)
    requires i < |s| && s[i] == x
    ensures FirstIndex(s, x).Some? && FirstIndex(s, x).value <= i
  {
    if s[0] != x {
      FirstIndexLeast(s[1..], x, i - 1);
    }
  }

  ghost predicate Distinct(s: seq<int>) {
    forall i, j :: 0 <= i < j < |s| ==> s[i] != s[j]
  }

  lemma FirstIndexUnique(s: seq<int>, i: nat)
    requires i < |s| && Distinct(s)
    ensures FirstIndex(s, s[i]) == Some(i)
  {
  }

  lemma {:induction false} FirstIndexIs(s: seq<int>, x: int, i: nat)
    requires i < |s| && s[i] == x && x !in s[..i]
    ensures FirstIndex(s, x) == Some(i)
  {
  }

  /** The descriptors of a registry, whatever its entries are. */
  function SocketsOf<T>(clients: seq<T>, socket: T -> int): (r: seq<int>)
    ensures |r| == |clients|
    ensures forall i :: 0 <= i < |clients| ==> r[i] == socket(clients[i])
  {
    seq(|clients|, i requires 0 <= i < |clients| => socket(clients[i]))
  }
}
