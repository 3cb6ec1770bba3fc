/** src/chat-server.c: the registry of chat clients and the two branches of the message handler,
    as the heap objects they work on. Add, Remove and the sends of Broadcast are lock sections. */
module ChatServer {
  import opened Options
  import opened ClientArray
  import opened Text
  import opened Numerals
  import C = CStrings

  // ---------- Names and messages ----------

  /** "%03zu" */
  function Padded(n: nat): string {
    var digits := Print(n, Dec);
    if |digits| == 1 then "00" + digits else if |digits| == 2 then "0" + digits else digits
  }

  function DefaultName(n: nat): string { "Client #" + Padded(n) }

  /** "Client #" and at least three digits that read as the number, with no zero beyond the third place
      from the right. */
  lemma DefaultNameExact(n: nat)
    ensures var name := DefaultName(n);
      && |name| >= 11 && name[..8] == "Client #" && Read(name[8..], Dec) == Some(n)
      && (|name| > 11 ==> name[8] != '0')
  {
    var digits := Print(n, Dec);
    PrintRead(n, Dec);
    PrintPositional(n, Dec);
    LeadingZeros(digits);
    hide Print, Value, AllDigits;
    assert DefaultName(n)[8..] == Padded(n);
  }

  lemma LeadingZeros(s: string)
    requires s != "" && AllDigits(s, Dec)
    ensures AllDigits("0" + s, Dec) && Value("0" + s, Dec) == Value(s, Dec)
    ensures AllDigits("00" + s, Dec) && Value("00" + s, Dec) == Value(s, Dec)
  {
    LeadingZero(s);
    LeadingZero("0" + s);
    assert "0" + ("0" + s) == "00" + s;
  }

  lemma {:induction false} LeadingZero(s: string)
    requires AllDigits(s, Dec)
    ensures AllDigits("0" + s, Dec) && Value("0" + s, Dec) == Value(s, Dec)
  {
    var t := "0" + s;
    assert IsDigit('0', Dec);
    if s == "" {
      assert t[..0] == "";
    } else {
      LeadingZero(s[..|s| - 1]);
      assert t[..|t| - 1] == "0" + s[..|s| - 1];
    }
  }

  function PowerOfTen(k: nat): nat { if k == 0 then 1 else 10 * PowerOfTen(k - 1) }

  /** Room for the default name of client number `n` and its terminator: the buffer holds "Client #",
      at least three digits, and every digit of the number. */
  predicate NameFits(n: nat, maxNameLength: nat) {
    maxNameLength >= 12 && n < PowerOfTen(maxNameLength - 9)
  }

  lemma {:induction false} DigitCount(n: nat, k: nat)
    requires k > 0
    ensures |Print(n, Dec)| <= k <==> n < PowerOfTen(k)
    decreases k
  {
    if n >= 10 && k > 1 {
      DigitCount(n / 10, k - 1);
    } else if n < 10 {
      TenAtLeast(k);
    }
  }

  lemma {:induction false} TenAtLeast(k: nat)
    requires k > 0
    ensures PowerOfTen(k) >= 10
  {
    if k > 1 {
      TenAtLeast(k - 1);
    }
  }

  /** So the name of every client from number 10^(max - 9) on overruns the buffer. */
  lemma DefaultNameFits(n: nat, maxNameLength: nat)
    ensures |DefaultName(n)| < maxNameLength <==> NameFits(n, maxNameLength)
  {
    hide Print, PowerOfTen;
    if maxNameLength >= 10 {
      DigitCount(n, maxNameLength - 9);
    }
  }

  /** What `strtok(new_name, "\n")` leaves at `new_name`. */
  function CutNewline(s: string): string {
    C.StringAt(C.Strtok(s + [C.NUL], 0, "\n").buf, 0)
  }

  /** Any text: with `t` what comes before its first NUL, the name is `t` up to the end of its first
      token, leading breaks included, and `t` itself if it has no token. A line without a break comes
      back whole. */
  lemma {:induction false} CutNewlineExact(s: string)
    ensures var t := C.CutNul(s);
      && CutNewline(s) == (if C.TokenStart(t, "\n") == |t| then t else t[..C.TokenEnd(t, "\n")])
      && ('\n' !in t ==> CutNewline(s) == t)
  {
    hide C.TokenStart, C.TokenEnd, C.Strtok, C.StringAt, C.CutNul, C.Terminated, C.FreeOf;
    var t := C.CutNul(s);
    var rest := NulShape(s);
    CutAtToken(t, rest);
    NoBreak(t);
  }

  lemma NulShape(s: string) returns (rest: string)
    ensures var t := C.CutNul(s);
      s + [C.NUL] == "" + t + [C.NUL] + rest && C.FreeOf(t, "") && C.Terminated("" + t + [C.NUL] + rest)
  {
    hide C.CutNul;
    var t := C.CutNul(s);
    rest := if |t| < |s| then s[|t| + 1..] + [C.NUL] else [];
    if |t| < |s| {
      assert s == t + [C.NUL] + s[|t| + 1..];
    }
  }

  lemma {:induction false} NoBreak(t: string)
    ensures C.TokenEnd(t, "\n") == |t| ==> t[..C.TokenEnd(t, "\n")] == t
    ensures '\n' !in t ==> C.TokenEnd(t, "\n") == |t|
  {
    C.TokenBounds(t, "\n");
    hide C.TokenStart, C.TokenEnd;
  }

  lemma {:induction false} CutAtToken(t: string, rest: string)
    requires C.Terminated("" + t + [C.NUL] + rest) && C.FreeOf(t, "")
    ensures C.StringAt(C.Strtok("" + t + [C.NUL] + rest, 0, "\n").buf, 0)
         == if C.TokenStart(t, "\n") == |t| then t else t[..C.TokenEnd(t, "\n")]
  {
    hide C.TokenStart, C.TokenEnd, C.Strtok, C.StringAt;
    var buf, e := "" + t + [C.NUL] + rest, C.TokenEnd(t, "\n");
    C.StrtokInside("", t, rest, "\n");
    C.StringInside("", t, rest);
    if e < |t| {
      assert buf[e := C.NUL][..e] == t[..e];
      C.StringFound(buf[e := C.NUL], 0, t[..e]);
    } else {
      assert t[..e] == t;
    }
  }

  /** A name typed on one line becomes that line. */
  lemma CutOneLine(line: string, rest: string)
    requires line != "" && C.FreeOf(line, "\n")
    ensures CutNewline(line + "\n" + rest) == line
  {
    var buf := line + "\n" + rest + [C.NUL];
    assert buf == "" + line + ['\n'] + (rest + [C.NUL]);
    C.TokenInside("", line, '\n', rest + [C.NUL], "\n");
    C.StringInside("", line, rest + [C.NUL]);
  }

  const RENAME: string := "/rename "

  // ---------- Objects ----------

  class ChatClient {
    var name: string
    const socket: int

    constructor (name: string, socket: int)
      ensures this.name == name && this.socket == socket
    {
      this.name := name;
      this.socket := socket;
    }
  }

  function SocketOf(client: ChatClient): int { client.socket }

  class ChatServer {
    const maxNameLength: nat
    const messageBufferSize: nat
    var clients: seq<ChatClient>
    var clientIncrement: nat
    /** Every send, as descriptor and bytes. */
    var sent: seq<(int, string)>

    constructor (maxNameLength: nat, messageBufferSize: nat)
      ensures this.maxNameLength == maxNameLength && this.messageBufferSize == messageBufferSize
      ensures clients == [] && clientIncrement == 0 && sent == []
    {
      this.maxNameLength := maxNameLength;
      this.messageBufferSize := messageBufferSize;
      clients, clientIncrement, sent := [], 0, [];
    }

    /** No name is longer than the buffers made for names. */
    ghost predicate NamesFit()
      reads this, clients
    {
      forall c <- clients :: |c.name| <= maxNameLength
    }

    /** The locked part of add_chat_client; false when sprintf overruns the buffer for the name, after
        which nothing is promised. */
    method Register(socket: int) returns (ok: bool)
      requires NamesFit()
      modifies this`clients, this`clientIncrement
      ensures ok == NameFits(old(clientIncrement), maxNameLength)
      ensures ok ==>
        && NamesFit() && clientIncrement == old(clientIncrement) + 1
        && |clients| == |old(clients)| + 1 && clients[..|old(clients)|] == old(clients)
        && var added := clients[|clients| - 1];
          fresh(added) && added.socket == socket && added.name == DefaultName(old(clientIncrement))
    {
      var name := DefaultName(clientIncrement);
      DefaultNameFits(clientIncrement, maxNameLength);
      if |name| >= maxNameLength { return false; }
      var added := new ChatClient(name, socket);
      clients := clients + [added];
      clientIncrement := clientIncrement + 1;
      ok := true;
    }

    /** add_chat_client: the result is read from the registry after the lock is released. Without
        another thread in between it is the added client; LateResultIff says when it is with one.
        None when the name overruns its buffer. */
    method Add(socket: int) returns (client: Option<ChatClient>)
      requires NamesFit()
      modifies this`clients, this`clientIncrement
      ensures client.Some? <==> NameFits(old(clientIncrement), maxNameLength)
      ensures client.Some? ==>
        && NamesFit() && fresh(client.value)
        && clients == old(clients) + [client.value] && clientIncrement == old(clientIncrement) + 1
        && client.value.socket == socket && client.value.name == DefaultName(old(clientIncrement))
        && SocketsOf(clients, SocketOf) == old(SocketsOf(clients, SocketOf)) + [socket]
    {
      var ok := Register(socket);
      client := if ok then Some(clients[|clients| - 1]) else None;
    }

    /** remove_chat_client: unlinks the first client that has the leaving client's descriptor. */
    method Remove(client: ChatClient)
      requires NamesFit()
      modifies this`clients
      ensures NamesFit()
      ensures match FirstIndex(old(SocketsOf(clients, SocketOf)), client.socket)
        case None => clients == old(clients)
        case Some(i) => clients == SwapRemove(old(clients), i)
      ensures client in old(clients) && Distinct(old(SocketsOf(clients, SocketOf))) ==>
        multiset(clients) + multiset{client} == multiset(old(clients)) && client !in clients
    {
      ghost var sockets := SocketsOf(clients, SocketOf);
      var i := 0;
      while i < |clients|
        invariant i <= |clients| && clients == old(clients)
        invariant client.socket !in sockets[..i]
      {
        if clients[i].socket == client.socket {
          FirstIndexIs(sockets, client.socket, i);
          UnlinkExact(clients, client);
          forall c | c in SwapRemove(clients, i) ensures c in clients {}
          clients := clients[i := clients[|clients| - 1]][..|clients| - 1];
          return;
        }
        assert sockets[..i + 1] == sockets[..i] + [sockets[i]];
        i := i + 1;
      }
      assert sockets[..i] == sockets;
      UnlinkExact(clients, client);
    }

    /** One message of a client: a renaming if it starts with "/rename ", else a broadcast. */
    method Handle(client: ChatClient, message: string)
      requires client in clients && NamesFit() && |message| <= messageBufferSize
      modifies client, this`sent
      ensures NamesFit()
      ensures if "/rename " <= message then
          var newName := CutNewline(message[8..]);
          if |newName| > maxNameLength
          then client.name == old(client.name) && sent == old(sent) + [(client.socket, "Server: Name too long.")]
          else client.name == newName && sent == old(sent) + [(client.socket, "Server: Name changed.")]
        else
          && client.name == old(client.name) && |sent| == |old(sent)| + |clients| && sent[..|old(sent)|] == old(sent)
          && forall i :: 0 <= i < |clients| ==>
               sent[|old(sent)| + i] == (clients[i].socket, client.name + ": " + C.CutNul(message))
    {
      if RENAME <= message {
        Rename(client, message);
      } else {
        var _ := Broadcast(client, message);
      }
    }

    /** The "/rename " branch, for a message that starts so. */
    method Rename(client: ChatClient, message: string)
      requires client in clients && NamesFit() && RENAME <= message
      modifies client, this`sent
      ensures NamesFit()
      ensures var newName := CutNewline(message[8..]);
        if |newName| > maxNameLength
        then client.name == old(client.name) && sent == old(sent) + [(client.socket, "Server: Name too long.")]
        else client.name == newName && sent == old(sent) + [(client.socket, "Server: Name changed.")]
    {
      var newName := CutNewline(message[8..]);
      if |newName| > maxNameLength {
        sent := sent + [(client.socket, "Server: Name too long.")];
        return;
      }
      client.name := newName;
      sent := sent + [(client.socket, "Server: Name changed.")];
    }

    /** The broadcast branch: the text fits its buffer and goes to every client once, in registry
        order. */
    method Broadcast(client: ChatClient, message: string) returns (text: string)
      requires client in clients && NamesFit() && |message| <= messageBufferSize
      modifies this`sent
      ensures text == client.name + ": " + C.CutNul(message)
      ensures |text| + 1 <= messageBufferSize + maxNameLength + 3
      ensures |sent| == |old(sent)| + |clients| && sent[..|old(sent)|] == old(sent)
      ensures forall i :: 0 <= i < |clients| ==> sent[|old(sent)| + i] == (clients[i].socket, text)
    {
      text := client.name + ": " + C.CutNul(message);
      var i := 0;
      while i < |clients|
        invariant i <= |clients| && |sent| == |old(sent)| + i && sent[..|old(sent)|] == old(sent)
        invariant forall k :: 0 <= k < i ==> sent[|old(sent)| + k] == (clients[k].socket, text)
      {
        sent := sent + [(clients[i].socket, text)];
        i := i + 1;
      }
    }
  }

  /** With distinct descriptors, searching by descriptor removes the leaving client itself. */
  lemma UnlinkExact(clients: seq<ChatClient>, client: ChatClient)
    ensures var i := FirstIndex(SocketsOf(clients, SocketOf), client.socket);
      client in clients && Distinct(SocketsOf(clients, SocketOf)) ==>
        && i.Some? && clients[i.value] == client
        && multiset(SwapRemove(clients, i.value)) + multiset{client} == multiset(clients)
        && client !in SwapRemove(clients, i.value)
  {
    if client in clients && Distinct(SocketsOf(clients, SocketOf)) {
      var k :| 0 <= k < |clients| && clients[k] == client;
      FirstIndexUnique(SocketsOf(clients, SocketOf), k);
      SwapRemoveKeeps(clients, k);
      SwapRemoveAt(clients, k);
      forall j | 0 <= j < |clients| - 1
        ensures SwapRemove(clients, k)[j] != client
      {
        assert SocketsOf(clients, SocketOf)[j] == clients[j].socket;
        assert SocketsOf(clients, SocketOf)[|clients| - 1] == clients[|clients| - 1].socket;
      }
    }
  }

  // ---------- The result of add_chat_client ----------

  /** Removals at these indices are possible one after the other and none is the added client's. */
  predicate OthersLeave<T(==)>(registry: seq<T>, gap: seq<nat>, added: T)
    decreases |gap|
  {
    gap == [] ||
    (gap[0] < |registry| && registry[gap[0]] != added && OthersLeave(SwapRemove(registry, gap[0]), gap[1..], added))
  }

  function AfterGap<T>(registry: seq<T>, gap: seq<nat>, added: T): seq<T>
    requires OthersLeave(registry, gap, added)
    decreases |gap|
  {
    if gap == [] then registry else AfterGap(SwapRemove(registry, gap[0]), gap[1..], added)
  }

  /** As written, add_chat_client returns the last entry of the registry after whatever removals
      other threads made since the lock was released. */
  ghost predicate LateResultRight<T>(others: seq<T>, added: T, gap: seq<nat>) {
    OthersLeave(others + [added], gap, added) ==>
      var now := AfterGap(others + [added], gap, added);
      |now| > 0 && now[|now| - 1] == added
  }

  /** That is the added client whatever happens in between if and only if at most one other client
      is registered. */
  lemma LateResultIff<T(!new)>(others: seq<T>, added: T)
    requires added !in others
    ensures (forall gap :: LateResultRight(others, added, gap)) <==> |others| <= 1
  {
    if |others| <= 1 {
      forall gap
        ensures LateResultRight(others, added, gap)
      {
        FewOthers(others, added, gap);
      }
    } else {
      var all := others + [added];
      var now := SwapRemove(all, 0);
      assert [0][1..] == [] && OthersLeave(now, [], added) && AfterGap(now, [], added) == now;
      assert all[0] == others[0];
      assert OthersLeave(all, [0], added) && AfterGap(all, [0], added) == now;
      assert now[|now| - 1] == others[|others| - 1];
      assert !LateResultRight(others, added, [0]);
    }
  }

  lemma FewOthers<T>(others: seq<T>, added: T, gap: seq<nat>)
    requires |others| <= 1
    ensures LateResultRight(others, added, gap)
    decreases |gap|
  {
    var all := others + [added];
    if gap != [] && OthersLeave(all, gap, added) {
      assert SwapRemove(all, gap[0]) == [] + [added];
      FewOthers([], added, gap[1..]);
    }
  }

  /** With exactly one removal in between it is the added client exactly when the client that left
      stood last among the others. */
  lemma LateResultAfterOne<T>(others: seq<T>, added: T, i: nat)
    requires added !in others && i < |others|
    ensures var now := SwapRemove(others + [added], i);
      now[|now| - 1] == added <==> i == |others| - 1
  {
  }
}
