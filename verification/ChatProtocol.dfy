/** Interleavings of src/chat-server.c: the accept loop, the handler threads joining, leaving and
    broadcasting under one mutex, and a kernel that hands out descriptors again once closed.
    A lock section is several steps; the kernel may act between any two of them. The loop does not
    look at what accept returns, so a failure is registered like a client, and it starts the handler
    for whatever client stands last in the registry once the mutex is released. */
module ChatProtocol {
  import opened Options
  import opened ClientArray

  type Message = string

  /** A client: its descriptor, and the call of accept that it comes from. */
  datatype Client = Client(socket: int, conn: nat)

  /** What a failing accept returns. */
  const FAILED: int := -1

  predicate Real(c: Client) { c.socket != FAILED }

  datatype Lock =
    | Free
    | Unlinking(client: Client)        // in remove_chat_client, after close, before the search
    | Sending(next: nat)               // in the broadcast loop, about to serve index `next`

  datatype Server = Server(
    open: map<int, nat>,               // the kernel: open descriptors and their connections
    connections: nat,                  // calls of accept so far
    accepted: Option<Client>,          // returned by accept, not yet registered
    starting: Option<Client>,          // registered, its handler not yet started
    clients: seq<Client>,
    handlers: multiset<Client>,        // the client that each handler works on
    lock: Lock,
    dangling: bool,                    // an entry was freed that a handler still uses
    // history
    log: seq<Message>,                 // broadcasts, in the order in which they got the mutex
    got: map<nat, seq<Message>>,       // what was sent on each connection
    joined: map<nat, nat>,             // length of the log at registration
    left: map<nat, nat>)               // length of the log at removal

  datatype Event =
    | Accept(fd: int)
    | AcceptFails
    | Register
    | Start                            // read the last entry, without the mutex, and start a handler
    | Close(c: Client)                 // a handler of c takes the mutex and closes the socket
    | Unlink
    | Begin(m: Message)                // a handler takes the mutex for a broadcast
    | Send
    | Finish

  function Init(): Server {
    Server(map[], 0, None, None, [], multiset{}, Free, false, [], map[], map[], map[])
  }

  function Descriptor(c: Client): int { c.socket }

  function Sockets(cs: seq<Client>): seq<int> { SocketsOf(cs, Descriptor) }

  /** Nothing is promised once a handler works on a freed entry: a run ends there. */
  predicate Enabled(s: Server, e: Event) {
    !s.dangling &&
    match e
    case Accept(fd) => s.accepted.None? && s.starting.None? && fd >= 0 && fd !in s.open
    case AcceptFails => s.accepted.None? && s.starting.None?
    case Register => s.lock.Free? && s.accepted.Some?
    case Start => s.starting.Some?
    case Close(c) => s.lock.Free? && c in s.handlers
    case Unlink => s.lock.Unlinking?
    case Begin(_) => s.lock.Free?
    case Send => s.lock.Sending? && s.lock.next < |s.clients|
    case Finish => s.lock.Sending? && s.lock.next == |s.clients|
  }

  /** send() on a descriptor reaches whatever connection it denotes now. */
  function Deliver(s: Server, fd: int, m: Message): map<nat, seq<Message>> {
    if fd in s.open && s.open[fd] in s.got then s.got[s.open[fd] := s.got[s.open[fd]] + [m]] else s.got
  }

  function Last(s: Server): Client
    requires s.clients != []
  {
    s.clients[|s.clients| - 1]
  }

  function Apply(s: Server, e: Event): Server
    requires Enabled(s, e)
  {
    match e
    case Accept(fd) =>
      s.(open := s.open[fd := s.connections], connections := s.connections + 1,
         accepted := Some(Client(fd, s.connections)), got := s.got[s.connections := []])
    case AcceptFails =>
      s.(accepted := Some(Client(FAILED, s.connections)), connections := s.connections + 1)
    case Register =>
      var c := s.accepted.value;
      s.(clients := s.clients + [c], accepted := None, starting := Some(c),
         joined := if Real(c) then s.joined[c.conn := |s.log|] else s.joined)
    case Start =>
      // an empty registry would be read in front of its first entry
      if s.clients == [] then s.(starting := None, dangling := true)
      else s.(starting := None, handlers := s.handlers + multiset{Last(s)})
    case Close(c) =>
      s.(lock := Unlinking(c), open := s.open - {c.socket}, handlers := s.handlers - multiset{c},
         left := if Real(c) then s.left[c.conn := |s.log|] else s.left)
    case Unlink =>
      (match FirstIndex(Sockets(s.clients), s.lock.client.socket)
       case None => s.(lock := Free)
       case Some(i) =>
         s.(lock := Free, clients := SwapRemove(s.clients, i), dangling := s.clients[i] in s.handlers))
    case Begin(m) => s.(lock := Sending(0), log := s.log + [m])
    case Send =>
      if s.log == [] then s else
      s.(lock := Sending(s.lock.next + 1),
         got := Deliver(s, s.clients[s.lock.next].socket, s.log[|s.log| - 1]))
    case Finish => s.(lock := Free)
  }

  predicate Runs(s: Server, es: seq<Event>, end: Server)
    decreases |es|
  {
    if es == [] then s == end else Enabled(s, es[0]) && Runs(Apply(s, es[0]), es[1..], end)
  }

  // ---------- What the events alone say ----------

  /** The calls of accept, what the last one returned, the broadcasts, and how many there were when each
      real client was registered and when its handler left. */
  datatype Story = Story(
    accepts: nat, last: Option<Client>, log: seq<Message>, joined: map<nat, nat>, left: map<nat, nat>)

  function Told(t: Story, e: Event): Story {
    match e
    case Accept(fd) => t.(accepts := t.accepts + 1, last := Some(Client(fd, t.accepts)))
    case AcceptFails => t.(accepts := t.accepts + 1, last := Some(Client(-1, t.accepts)))
    case Register =>
      if t.last.Some? && t.last.value.socket != -1
      then t.(last := None, joined := t.joined[t.last.value.conn := |t.log|])
      else t.(last := None)
    case Close(c) => if c.socket != -1 then t.(left := t.left[c.conn := |t.log|]) else t
    case Begin(m) => t.(log := t.log + [m])
    case _ => t
  }

  function StoryOf(t: Story, es: seq<Event>): Story
    decreases |es|
  {
    if es == [] then t else StoryOf(Told(t, es[0]), es[1..])
  }

  const NOTHING: Story := Story(0, None, [], map[], map[])

  /** The broadcasts, in the order in which they got the mutex. */
  function Broadcasts(es: seq<Event>): seq<Message> {
    if es == [] then [] else (if es[0].Begin? then [es[0].m] else []) + Broadcasts(es[1..])
  }

  predicate Tells(t: Story, s: Server) {
    t == Story(s.connections, s.accepted, s.log, s.joined, s.left)
  }

  lemma StepTells(t: Story, s: Server, e: Event)
    requires Tells(t, s) && Enabled(s, e)
    ensures Tells(Told(t, e), Apply(s, e))
  {
    hide SwapRemove, FirstIndex, Sockets, Deliver;
  }

  lemma {:induction false} EventsTell(t: Story, s: Server, es: seq<Event>, end: Server)
    requires Tells(t, s) && Runs(s, es, end)
    ensures Tells(StoryOf(t, es), end)
    decreases |es|
  {
    hide Apply, Enabled, Tells, Told;
    if es != [] {
      StepTells(t, s, es[0]);
      EventsTell(Told(t, es[0]), Apply(s, es[0]), es[1..], end);
    }
  }

  lemma LogToldBy(t: Story, e: Event)
    ensures Told(t, e).log == t.log + if e.Begin? then [e.m] else []
  {
    assert t.log + [] == t.log;
  }

  lemma {:induction false} LogTold(t: Story, es: seq<Event>)
    ensures StoryOf(t, es).log == t.log + Broadcasts(es)
    decreases |es|
  {
    hide Told;
    if es == [] {
      assert t.log + [] == t.log;
    } else {
      var x := if es[0].Begin? then [es[0].m] else [];
      LogToldBy(t, es[0]);
      LogTold(Told(t, es[0]), es[1..]);
      assert t.log + x + Broadcasts(es[1..]) == t.log + (x + Broadcasts(es[1..]));
    }
  }

  /** In every run: the log, the registrations and the departures are those of the events. */
  lemma RunTells(es: seq<Event>, s: Server)
    requires Runs(Init(), es, s)
    ensures s.log == Broadcasts(es)
    ensures s.joined == StoryOf(NOTHING, es).joined && s.left == StoryOf(NOTHING, es).left
  {
    EventsTell(NOTHING, Init(), es, s);
    LogTold(NOTHING, es);
    hide Runs, StoryOf, Broadcasts;
    assert [] + Broadcasts(es) == Broadcasts(es);
  }

  // ---------- The registry ----------

  predicate Leaving(s: Server, c: Client) { s.lock == Unlinking(c) }

  /** Clients come from different calls of accept and, if real, have different descriptors. */
  ghost predicate DistinctClients(cs: seq<Client>) {
    forall i, j :: 0 <= i < j < |cs| ==>
      cs[i].conn != cs[j].conn && (Real(cs[i]) ==> cs[i].socket != cs[j].socket)
  }

  /** Open descriptors denote different connections, all accepted before. */
  ghost predicate OpenFiles(s: Server) {
    && (forall f :: f in s.open ==> s.open[f] < s.connections && f != FAILED)
    && (forall f, g :: f in s.open && g in s.open && f != g ==> s.open[f] != s.open[g])
  }

  ghost predicate NotOpen(s: Server, conn: nat) {
    forall f :: f in s.open ==> s.open[f] != conn
  }

  /** A real registered descriptor denotes its client's connection, except while that client is being
      unlinked: then it is closed, or already accepted again for another connection. */
  ghost predicate Bound(s: Server) {
    forall i :: 0 <= i < |s.clients| ==>
      var c := s.clients[i];
      && c.conn < s.connections
      && (if Leaving(s, c) || !Real(c) then NotOpen(s, c.conn)
          else c.socket in s.open && s.open[c.socket] == c.conn)
  }

  /** The client that waits to be registered is new to the registry. */
  ghost predicate Fresh(s: Server) {
    s.accepted.Some? ==>
      var a := s.accepted.value;
      && a.conn < s.connections
      && (if Real(a) then a.socket in s.open && s.open[a.socket] == a.conn else NotOpen(s, a.conn))
      && forall i :: 0 <= i < |s.clients| ==> s.clients[i].conn != a.conn
  }

  ghost predicate LockState(s: Server) {
    && (s.lock.Unlinking? ==> s.lock.client in s.clients)
    && (s.lock.Sending? ==> s.lock.next <= |s.clients| && s.log != [])
  }

  /** Handlers work on registered clients. */
  ghost predicate Handled(s: Server) {
    && (s.accepted.Some? ==> s.starting.None?)
    && (!s.dangling ==> forall c :: c in s.handlers ==> c in s.clients)
  }

  ghost predicate Registry(s: Server) {
    DistinctClients(s.clients) && OpenFiles(s) && Bound(s) && Fresh(s) && LockState(s) && Handled(s)
  }

  /** Unlinking finds an entry with the leaver's descriptor: the leaver's own if that is real. */
  lemma UnlinkFinds(s: Server) returns (k: nat)
    requires DistinctClients(s.clients) && LockState(s) && Enabled(s, Unlink)
    ensures k < |s.clients| && s.clients[k].socket == s.lock.client.socket
    ensures Real(s.lock.client) ==> s.clients[k] == s.lock.client
    ensures FirstIndex(Sockets(s.clients), s.lock.client.socket) == Some(k)
    ensures Apply(s, Unlink) == Without(s, k)
  {
    var l :| 0 <= l < |s.clients| && s.clients[l] == s.lock.client;
    assert Sockets(s.clients)[l] == s.lock.client.socket;
    k := FirstIndex(Sockets(s.clients), s.lock.client.socket).value;
  }

  lemma DistinctAfterSwap(cs: seq<Client>, k: nat)
    requires k < |cs| && DistinctClients(cs)
    ensures DistinctClients(SwapRemove(cs, k))
    ensures cs[k] !in SwapRemove(cs, k)
  {
    SwapRemoveAt(cs, k);
    hide SwapRemove;
  }

  /** The state behind an unlink that takes entry k. */
  function Without(s: Server, k: nat): Server
    requires k < |s.clients| && s.lock.Unlinking?
  {
    s.(lock := Free, clients := SwapRemove(s.clients, k), dangling := s.clients[k] in s.handlers)
  }

  predicate Unlinks(s: Server, k: nat) {
    && k < |s.clients| && s.lock.Unlinking? && s.clients[k].socket == s.lock.client.socket
    && (Real(s.lock.client) ==> s.clients[k] == s.lock.client)
  }

  lemma BoundAfterUnlink(s: Server, k: nat)
    requires DistinctClients(s.clients) && Bound(s) && Unlinks(s, k)
    ensures Bound(Without(s, k))
  {
    SwapRemoveAt(s.clients, k);
    hide SwapRemove, NotOpen;
    var s' := Without(s, k);
    forall j | 0 <= j < |s'.clients|
      ensures var c := s'.clients[j];
        && c.conn < s.connections
        && (if Leaving(s', c) || !Real(c) then NotOpen(s', c.conn)
            else c.socket in s.open && s.open[c.socket] == c.conn)
    {
      var i := if j == k then |s.clients| - 1 else j;
      assert s'.clients[j] == s.clients[i] && i != k;
      OpenSame(s, s', s.clients[i].conn);
    }
  }

  lemma OpenSame(s: Server, s': Server, conn: nat)
    requires s'.open == s.open
    ensures NotOpen(s, conn) <==> NotOpen(s', conn)
  {
  }

  lemma FreshAfterUnlink(s: Server, k: nat)
    requires Fresh(s) && Unlinks(s, k)
    ensures Fresh(Without(s, k))
  {
    SwapRemoveAt(s.clients, k);
    hide SwapRemove;
  }

  lemma HandledAfterUnlink(s: Server, k: nat)
    requires Handled(s) && Unlinks(s, k) && !s.dangling
    ensures Handled(Without(s, k))
  {
    SwapRemoveAt(s.clients, k);
    hide SwapRemove;
    var cs, last := SwapRemove(s.clients, k), |s.clients| - 1;
    forall c | c in s.handlers && c != s.clients[k] ensures c in cs {
      var i :| 0 <= i < |s.clients| && s.clients[i] == c;
      assert cs[if i == last then k else i] == c;
    }
  }

  lemma RegistryUnlink(s: Server)
    requires Registry(s) && Enabled(s, Unlink)
    ensures Registry(Apply(s, Unlink))
  {
    var k := UnlinkFinds(s);
    RegistryWithout(s, k);
    hide Registry, Apply;
  }

  lemma RegistryWithout(s: Server, k: nat)
    requires Registry(s) && Unlinks(s, k) && !s.dangling
    ensures Registry(Without(s, k))
  {
    DistinctAfterSwap(s.clients, k);
    BoundAfterUnlink(s, k);
    FreshAfterUnlink(s, k);
    HandledAfterUnlink(s, k);
    hide SwapRemove, Bound, Fresh, DistinctClients, Handled;
  }

  lemma RegistryClose(s: Server, c: Client)
    requires Registry(s) && Enabled(s, Close(c))
    ensures Registry(Apply(s, Close(c)))
  {
    var s' := Apply(s, Close(c));
    assert c in s.clients;
    assert s'.open.Keys == s.open.Keys - {c.socket};
  }

  lemma RegistryStart(s: Server)
    requires Registry(s) && Enabled(s, Start)
    ensures Registry(Apply(s, Start))
  {
    if s.clients != [] {
      assert Last(s) in s.clients;
    }
  }

  lemma RegistryAccept(s: Server, e: Event)
    requires Registry(s) && Enabled(s, e) && (e.Accept? || e.AcceptFails?)
    ensures Registry(Apply(s, e))
  {
  }

  lemma RegistryRegister(s: Server)
    requires Registry(s) && Enabled(s, Register)
    ensures Registry(Apply(s, Register))
  {
    assert forall c :: !Leaving(s, c);
  }

  lemma RegistryBroadcast(s: Server, e: Event)
    requires Registry(s) && Enabled(s, e) && (e.Begin? || e.Send? || e.Finish?)
    ensures Registry(Apply(s, e))
  {
  }

  lemma RegistryStep(s: Server, e: Event)
    requires Registry(s) && Enabled(s, e)
    ensures Registry(Apply(s, e))
  {
    hide Registry;
    match e
    case Unlink => RegistryUnlink(s);
    case Close(c) => RegistryClose(s, c);
    case Start => RegistryStart(s);
    case Accept(_) => RegistryAccept(s, e);
    case AcceptFails => RegistryAccept(s, e);
    case Register => RegistryRegister(s);
    case _ => RegistryBroadcast(s, e);
  }

  // ---------- What each client was sent ----------

  /** How much of the log the client at index j should have. */
  function Upto(s: Server, j: nat): int {
    if s.lock.Sending? && j >= s.lock.next then |s.log| - 1 else |s.log|
  }

  predicate IsSegment(part: seq<Message>, log: seq<Message>, from: int, to: int) {
    0 <= from <= to <= |log| && part == log[from..to]
  }

  /** Every registered client has received the log from its registration on. */
  ghost predicate Serving(s: Server) {
    forall j :: 0 <= j < |s.clients| && Real(s.clients[j]) ==>
      var c := s.clients[j].conn;
      && c in s.joined && c in s.got
      && IsSegment(s.got[c], s.log, s.joined[c], Upto(s, j))
      && (Leaving(s, s.clients[j]) <==> c in s.left)
  }

  /** Every client that left has received the log from its registration to its removal. */
  ghost predicate Served(s: Server) {
    forall c :: c in s.left ==>
      c in s.joined && c in s.got && IsSegment(s.got[c], s.log, s.joined[c], s.left[c])
  }

  /** A connection that was never registered has received nothing. */
  ghost predicate Silent(s: Server) {
    && (forall f :: f in s.open ==> s.open[f] in s.got)
    && (forall c :: c in s.got && c !in s.joined ==> s.got[c] == [])
    && (forall c :: c in s.joined ==> c in s.got && c < s.connections)
    && (s.accepted.Some? ==> s.accepted.value.conn !in s.joined)
  }

  /** Nobody who joined and did not leave is missing from the registry. */
  ghost predicate Present(s: Server) {
    forall c :: c in s.joined && c !in s.left ==>
      exists j :: 0 <= j < |s.clients| && s.clients[j].conn == c && Real(s.clients[j])
  }

  ghost predicate Inv(s: Server) {
    Registry(s) && Serving(s) && Served(s) && Silent(s) && Present(s)
  }

  lemma HistoryAfterAccept(s: Server, fd: int)
    requires Bound(s) && Serving(s) && Served(s) && Silent(s) && Enabled(s, Accept(fd))
    ensures Serving(Apply(s, Accept(fd))) && Served(Apply(s, Accept(fd)))
  {
    hide IsSegment;
    var s' := Apply(s, Accept(fd));
    assert forall c :: c in s.joined ==> s'.got[c] == s.got[c];
    assert forall c :: Leaving(s', c) <==> Leaving(s, c);
    assert forall j: nat :: Upto(s', j) == Upto(s, j);
  }

  lemma SilentAfterAccept(s: Server, fd: int)
    requires Silent(s) && Present(s) && Enabled(s, Accept(fd))
    ensures Silent(Apply(s, Accept(fd))) && Present(Apply(s, Accept(fd)))
  {
  }

  lemma InvAccept(s: Server, fd: int)
    requires Inv(s) && Enabled(s, Accept(fd))
    ensures Inv(Apply(s, Accept(fd)))
  {
    assert Bound(s) && OpenFiles(s);
    hide Registry, Serving, Served, Bound, Silent, Present, OpenFiles;
    RegistryStep(s, Accept(fd));
    HistoryAfterAccept(s, fd);
    SilentAfterAccept(s, fd);
  }

  /** Registration, sends and departures decide what each client was sent. */
  lemma HistorySame(s: Server, s': Server)
    requires Serving(s) && Served(s) && Present(s)
    requires s'.clients == s.clients && s'.lock == s.lock && s'.log == s.log
    requires s'.got == s.got && s'.joined == s.joined && s'.left == s.left
    ensures Serving(s') && Served(s') && Present(s')
  {
    hide IsSegment;
    assert forall c :: Leaving(s', c) <==> Leaving(s, c);
    assert forall j: nat :: Upto(s', j) == Upto(s, j);
  }

  lemma InvAcceptFails(s: Server)
    requires Inv(s) && Enabled(s, AcceptFails)
    ensures Inv(Apply(s, AcceptFails))
  {
    hide Registry, Serving, Served, Present;
    RegistryStep(s, AcceptFails);
    HistorySame(s, Apply(s, AcceptFails));
  }

  lemma PresentAfterRegister(s: Server)
    requires Present(s) && Enabled(s, Register)
    ensures Present(Apply(s, Register))
  {
    var s' := Apply(s, Register);
    forall c | c in s'.joined && c !in s'.left
      ensures exists j :: 0 <= j < |s'.clients| && s'.clients[j].conn == c && Real(s'.clients[j])
    {
      if c in s.joined {
        var j :| 0 <= j < |s.clients| && s.clients[j].conn == c && Real(s.clients[j]);
        assert s'.clients[j].conn == c;
      } else {
        assert s'.clients[|s.clients|].conn == c;
      }
    }
  }

  lemma ServingAfterRegister(s: Server)
    requires Serving(s) && Served(s) && Silent(s) && Enabled(s, Register)
    requires Fresh(s)
    ensures Serving(Apply(s, Register)) && Served(Apply(s, Register))
  {
    var s' := Apply(s, Register);
    var a := s.accepted.value;
    hide IsSegment;
    SegmentEmpty(s.log);
    assert Real(a) ==> a.conn in s.got && s.got[a.conn] == [];
    assert a.conn !in s.joined && a.conn !in s.left;
    forall j | 0 <= j < |s.clients|
      ensures s'.clients[j] == s.clients[j] && s.clients[j].conn != a.conn
    {
    }
  }

  lemma SegmentEmpty(log: seq<Message>)
    ensures IsSegment([], log, |log|, |log|)
  {
  }

  lemma InvRegister(s: Server)
    requires Inv(s) && Enabled(s, Register)
    ensures Inv(Apply(s, Register))
  {
    RegistryStep(s, Register);
    PresentAfterRegister(s);
    ServingAfterRegister(s);
    OpenDistinct(s);
    hide Present, Registry, Serving, Served;
  }

  lemma OpenDistinct(s: Server)
    requires Registry(s)
    ensures forall f :: f in s.open ==> s.open[f] < s.connections
  {
  }

  lemma SilentSame(s: Server, s': Server)
    requires Silent(s) && s'.open == s.open && s'.got == s.got && s'.joined == s.joined
    requires s'.connections == s.connections && s'.accepted == s.accepted
    ensures Silent(s')
  {
  }

  lemma InvStart(s: Server)
    requires Inv(s) && Enabled(s, Start)
    ensures Inv(Apply(s, Start))
  {
    hide Registry, Serving, Served, Silent, Present, Last;
    RegistryStep(s, Start);
    HistorySame(s, Apply(s, Start));
    SilentSame(s, Apply(s, Start));
    hide Apply, Enabled;
  }

  lemma HistoryAfterClose(s: Server, c: Client)
    requires DistinctClients(s.clients) && Handled(s) && Serving(s) && Served(s) && Enabled(s, Close(c))
    ensures Serving(Apply(s, Close(c))) && Served(Apply(s, Close(c)))
  {
    hide IsSegment;
    var s' := Apply(s, Close(c));
    var i :| 0 <= i < |s.clients| && s.clients[i] == c;
    forall j | 0 <= j < |s.clients|
      ensures Leaving(s', s.clients[j]) <==> j == i
      ensures s.clients[j].conn == c.conn ==> j == i
    {
    }
  }

  lemma InvClose(s: Server, c: Client)
    requires Inv(s) && Enabled(s, Close(c))
    ensures Inv(Apply(s, Close(c)))
  {
    RegistryStep(s, Close(c));
    HistoryAfterClose(s, c);
    hide Registry, Serving, Served;
  }

  lemma ServingAfterUnlink(s: Server, k: nat)
    requires DistinctClients(s.clients) && Serving(s) && Unlinks(s, k)
    ensures Serving(Without(s, k))
  {
    SwapRemoveAt(s.clients, k);
    hide SwapRemove, IsSegment;
    var s' := Without(s, k);
    forall j | 0 <= j < |s'.clients| && Real(s'.clients[j])
      ensures var c := s'.clients[j].conn;
        && c in s.joined && c in s.got
        && IsSegment(s.got[c], s.log, s.joined[c], Upto(s', j))
        && (Leaving(s', s'.clients[j]) <==> c in s.left)
    {
      var i := if j == k then |s.clients| - 1 else j;
      assert s'.clients[j] == s.clients[i] && i != k;
      assert Real(s.clients[i]) && Upto(s', j) == |s.log| == Upto(s, i);
      assert !Leaving(s, s.clients[i]);
    }
  }

  lemma PresentAfterUnlink(s: Server, k: nat)
    requires DistinctClients(s.clients) && Present(s) && Serving(s) && Unlinks(s, k)
    ensures Present(Without(s, k))
  {
    SwapRemoveAt(s.clients, k);
    hide SwapRemove, IsSegment;
    var cs, last := SwapRemove(s.clients, k), |s.clients| - 1;
    forall c | c in s.joined && c !in s.left
      ensures exists j :: 0 <= j < |cs| && cs[j].conn == c && Real(cs[j])
    {
      var j :| 0 <= j < |s.clients| && s.clients[j].conn == c && Real(s.clients[j]);
      assert Real(s.clients[k]) ==> Leaving(s, s.clients[k]);
      assert cs[if j == last then k else j] == s.clients[j];
    }
  }

  lemma InvUnlink(s: Server)
    requires Inv(s) && Enabled(s, Unlink)
    ensures Inv(Apply(s, Unlink))
  {
    hide SwapRemove, Bound, Fresh, OpenFiles, IsSegment;
    RegistryStep(s, Unlink);
    var k := UnlinkFinds(s);
    ServingAfterUnlink(s, k);
    PresentAfterUnlink(s, k);
    hide Registry, Serving, Present, Apply;
  }

  lemma SegmentOfLonger(part: seq<Message>, log: seq<Message>, m: Message, from: int, to: int)
    requires IsSegment(part, log, from, to)
    ensures IsSegment(part, log + [m], from, to)
  {
  }

  lemma ServingAfterBegin(s: Server, m: Message)
    requires Serving(s) && Enabled(s, Begin(m))
    ensures Serving(Apply(s, Begin(m)))
  {
    hide IsSegment;
    var s' := Apply(s, Begin(m));
    forall j | 0 <= j < |s.clients| && Real(s.clients[j])
      ensures IsSegment(s.got[s.clients[j].conn], s'.log, s.joined[s.clients[j].conn], |s.log|)
    {
      var c := s.clients[j].conn;
      SegmentOfLonger(s.got[c], s.log, m, s.joined[c], |s.log|);
    }
  }

  lemma ServedAfterBegin(s: Server, m: Message)
    requires Served(s) && Enabled(s, Begin(m))
    ensures Served(Apply(s, Begin(m)))
  {
    hide IsSegment;
    var s' := Apply(s, Begin(m));
    forall c | c in s.left
      ensures IsSegment(s.got[c], s'.log, s.joined[c], s.left[c])
    {
      SegmentOfLonger(s.got[c], s.log, m, s.joined[c], s.left[c]);
    }
  }

  lemma InvBegin(s: Server, m: Message)
    requires Inv(s) && Enabled(s, Begin(m))
    ensures Inv(Apply(s, Begin(m)))
  {
    hide Registry, Serving, Served;
    RegistryStep(s, Begin(m));
    ServingAfterBegin(s, m);
    ServedAfterBegin(s, m);
  }

  /** The send reaches the connection of the client it is meant for, and no other; a failed accept's
      descriptor reaches nobody. */
  lemma SendReaches(s: Server)
    requires Registry(s) && Serving(s) && Enabled(s, Send)
    ensures var c, s' := s.clients[s.lock.next].conn, Apply(s, Send);
      if Real(s.clients[s.lock.next]) then
        && c in s.got && c in s.joined && c !in s.left && 0 <= s.joined[c] < |s.log|
        && s' == s.(lock := Sending(s.lock.next + 1), got := s.got[c := s.log[s.joined[c]..|s.log|]])
      else s' == s.(lock := Sending(s.lock.next + 1))
  {
    var c := s.clients[s.lock.next];
    assert !Leaving(s, c);
    if Real(c) {
      var from := s.joined[c.conn];
      assert s.log[from..|s.log| - 1] + [s.log[|s.log| - 1]] == s.log[from..|s.log|];
    }
  }

  lemma ServingAfterSend(s: Server)
    requires Registry(s) && Serving(s) && Enabled(s, Send)
    ensures Serving(Apply(s, Send))
  {
    SendReaches(s);
    hide Apply, OpenFiles, Bound, Fresh;
    var s' := Apply(s, Send);
    var n := s.lock.next;
    forall j | 0 <= j < |s.clients| && j != n && Real(s.clients[j])
      ensures s'.got[s.clients[j].conn] == s.got[s.clients[j].conn] && Upto(s', j) == Upto(s, j)
    {
    }
  }

  lemma OthersAfterSend(s: Server, c: nat, lock: Lock, g: seq<Message>)
    requires Served(s) && Silent(s) && Present(s) && c in s.joined && c !in s.left
    ensures var s' := s.(lock := lock, got := s.got[c := g]); Served(s') && Silent(s') && Present(s')
  {
    hide IsSegment;
  }

  lemma OthersUnsent(s: Server, lock: Lock)
    requires Served(s) && Silent(s) && Present(s)
    ensures var s' := s.(lock := lock); Served(s') && Silent(s') && Present(s')
  {
    hide IsSegment;
  }

  lemma InvSend(s: Server)
    requires Inv(s) && Enabled(s, Send)
    ensures Inv(Apply(s, Send))
  {
    hide Registry, Serving, Served, Silent, Present, Apply;
    RegistryStep(s, Send);
    ServingAfterSend(s);
    SendReaches(s);
    var c := s.clients[s.lock.next];
    if Real(c) {
      OthersAfterSend(s, c.conn, Sending(s.lock.next + 1), s.log[s.joined[c.conn]..|s.log|]);
    } else {
      OthersUnsent(s, Sending(s.lock.next + 1));
    }
  }

  lemma InvFinish(s: Server)
    requires Inv(s) && Enabled(s, Finish)
    ensures Inv(Apply(s, Finish))
  {
    hide Registry, IsSegment, Served, Silent, Present;
    RegistryStep(s, Finish);
    OthersUnsent(s, Free);
  }

  lemma InvStep(s: Server, e: Event)
    requires Inv(s) && Enabled(s, e)
    ensures Inv(Apply(s, e))
  {
    hide Inv;
    match e
    case Accept(fd) => InvAccept(s, fd);
    case AcceptFails => InvAcceptFails(s);
    case Register => InvRegister(s);
    case Start => InvStart(s);
    case Close(c) => InvClose(s, c);
    case Unlink => InvUnlink(s);
    case Begin(m) => InvBegin(s, m);
    case Send => InvSend(s);
    case Finish => InvFinish(s);
  }

  lemma {:induction false} RunInv(s: Server, es: seq<Event>, end: Server)
    requires Inv(s) && Runs(s, es, end)
    ensures Inv(end)
    decreases |es|
  {
    hide Inv, Apply, Enabled;
    if es != [] {
      InvStep(s, es[0]);
      RunInv(Apply(s, es[0]), es[1..], end);
    }
  }

  // ---------- Every run ----------

  /** Some failed accept is registered. */
  predicate FailureRegistered(s: Server) { exists i :: 0 <= i < |s.clients| && !Real(s.clients[i]) }

  /** The next step registers a second failure beside a first. */
  predicate DoubleFailure(s: Server, e: Event) {
    e.Register? && s.accepted.Some? && !Real(s.accepted.value) && FailureRegistered(s)
  }

  /** The next step reads another client than the one just registered. */
  predicate WrongRead(s: Server, e: Event) {
    e.Start? && s.starting.Some? && (s.clients == [] || Last(s) != s.starting.value)
  }

  predicate BadStep(s: Server, e: Event) { DoubleFailure(s, e) || WrongRead(s, e) }

  /** Checkable along a run, before each step. */
  predicate NoDoubleFailure(s: Server, es: seq<Event>)
    decreases |es|
  {
    es != [] && Enabled(s, es[0]) ==> !DoubleFailure(s, es[0]) && NoDoubleFailure(Apply(s, es[0]), es[1..])
  }

  predicate NoBadStep(s: Server, es: seq<Event>)
    decreases |es|
  {
    es != [] && Enabled(s, es[0]) ==> !BadStep(s, es[0]) && NoBadStep(Apply(s, es[0]), es[1..])
  }

  /** Registered descriptors are distinct in every state of a run. */
  ghost predicate AlwaysDistinct(s: Server, es: seq<Event>)
    decreases |es|
  {
    Distinct(Sockets(s.clients)) && (es != [] && Enabled(s, es[0]) ==> AlwaysDistinct(Apply(s, es[0]), es[1..]))
  }

  lemma DistinctRegister(s: Server)
    requires Registry(s) && Enabled(s, Register) && Distinct(Sockets(s.clients))
    ensures Distinct(Sockets(Apply(s, Register).clients)) <==> !DoubleFailure(s, Register)
  {
    var a, cs := s.accepted.value, s.clients;
    var all := Sockets(cs + [a]);
    assert forall i :: 0 <= i < |cs| ==> all[i] == Sockets(cs)[i] == cs[i].socket;
    assert all[|cs|] == a.socket;
    hide Sockets;
    if Real(a) {
      forall i | 0 <= i < |cs| ensures cs[i].socket != a.socket {
        assert !Leaving(s, cs[i]);
      }
    } else if FailureRegistered(s) {
      var i :| 0 <= i < |cs| && !Real(cs[i]);
      assert all[i] == all[|cs|];
    } else {
      assert forall i :: 0 <= i < |cs| ==> Real(cs[i]);
    }
  }

  /** With distinct descriptors the unlinked entry is the leaver's. */
  lemma UnlinkExact(s: Server) returns (k: nat)
    requires Registry(s) && Enabled(s, Unlink) && Distinct(Sockets(s.clients))
    ensures k < |s.clients| && s.clients[k] == s.lock.client && Apply(s, Unlink) == Without(s, k)
    ensures Distinct(Sockets(Apply(s, Unlink).clients))
  {
    hide SwapRemove, FirstIndex, Bound, Fresh, OpenFiles, Handled;
    k := UnlinkFinds(s);
    var l :| 0 <= l < |s.clients| && s.clients[l] == s.lock.client;
    FirstIndexUnique(Sockets(s.clients), l);
    SwapRemoveAt(s.clients, k);
    hide Registry, DistinctClients, Apply;
    var cs := SwapRemove(s.clients, k);
    forall j | 0 <= j < |cs| ensures Sockets(cs)[j] == Sockets(s.clients)[if j == k then |cs| else j] {
    }
  }

  lemma DistinctStep(s: Server, e: Event)
    requires Registry(s) && Enabled(s, e) && Distinct(Sockets(s.clients))
    ensures Distinct(Sockets(Apply(s, e).clients)) <==> !DoubleFailure(s, e)
  {
    match e
    case Register => DistinctRegister(s);
    case Unlink => var _ := UnlinkExact(s);
    case _ =>
  }

  lemma {:induction false} DistinctFrom(s: Server, es: seq<Event>, end: Server)
    requires Inv(s) && Runs(s, es, end) && Distinct(Sockets(s.clients))
    ensures AlwaysDistinct(s, es) <==> NoDoubleFailure(s, es)
    decreases |es|
  {
    hide Inv, Apply, Enabled, Distinct, Sockets, DoubleFailure;
    if es != [] {
      var s' := Apply(s, es[0]);
      assert Registry(s) by { InvIsRegistry(s); }
      DistinctStep(s, es[0]);
      InvStep(s, es[0]);
      if Distinct(Sockets(s'.clients)) {
        DistinctFrom(s', es[1..], end);
      }
    }
  }

  lemma InvIsRegistry(s: Server)
    requires Inv(s)
    ensures Registry(s)
  {
  }

  /** Registered descriptors stay distinct through a whole run, although the kernel may hand out a
      closed one before its entry is gone, if and only if no failed accept is registered while
      another one still is. */
  lemma RegistryDistinctIff(es: seq<Event>, end: Server)
    requires Runs(Init(), es, end)
    ensures AlwaysDistinct(Init(), es) <==> NoDoubleFailure(Init(), es)
  {
    DistinctFrom(Init(), es, end);
  }

  /** A removal takes exactly the leaving client if its descriptor is real, failures or not, and
      also if descriptors are distinct; a handler is left with the freed entry exactly if a second
      one worked on the same client. */
  lemma RemovalExact(es: seq<Event>, s: Server)
    requires Runs(Init(), es, s) && Enabled(s, Unlink)
    requires Real(s.lock.client) || Distinct(Sockets(s.clients))
    ensures multiset(Apply(s, Unlink).clients) + multiset{s.lock.client} == multiset(s.clients)
    ensures Apply(s, Unlink).dangling <==> s.lock.client in s.handlers
  {
    RunInv(Init(), es, s);
    InvIsRegistry(s);
    hide Inv, Registry, Distinct, Sockets;
    Removed(s);
  }

  lemma Removed(s: Server)
    requires Registry(s) && Enabled(s, Unlink) && (Real(s.lock.client) || Distinct(Sockets(s.clients)))
    ensures multiset(Apply(s, Unlink).clients) + multiset{s.lock.client} == multiset(s.clients)
    ensures Apply(s, Unlink).dangling <==> s.lock.client in s.handlers
    ensures Apply(s, Unlink).lock.Free?
  {
    hide SwapRemove, FirstIndex, Bound, Fresh, OpenFiles, Handled, Apply;
    var k := UnlinkFinds(s);
    if Distinct(Sockets(s.clients)) {
      k := UnlinkExact(s);
    }
    SwapRemoveKeeps(s.clients, k);
  }

  // ---------- Handlers and the entries they use ----------

  /** Every registered client has one handler, except the one whose handler is about to start and the
      one whose handler is unlinking it. */
  ghost predicate Attached(s: Server) {
    && (forall i :: 0 <= i < |s.clients| ==>
          var c := s.clients[i];
          s.handlers[c] == if Leaving(s, c) || s.starting == Some(c) then 0 else 1)
    && (s.starting.Some? ==> s.starting.value in s.clients && !Leaving(s, s.starting.value))
  }

  ghost predicate Good(s: Server) { Distinct(Sockets(s.clients)) && Attached(s) }

  ghost predicate AlwaysGood(s: Server, es: seq<Event>)
    decreases |es|
  {
    Good(s) && (es != [] && Enabled(s, es[0]) ==> AlwaysGood(Apply(s, es[0]), es[1..]))
  }

  lemma AttachedRegister(s: Server)
    requires Registry(s) && Enabled(s, Register) && Attached(s)
    ensures Attached(Apply(s, Register))
  {
    var s', a := Apply(s, Register), s.accepted.value;
    assert s.handlers[a] == 0;
    assert s'.clients[|s.clients|] == a && a in s'.clients;
    forall i | 0 <= i < |s.clients| ensures s'.clients[i] == s.clients[i] != a { }
  }

  lemma AttachedStart(s: Server)
    requires Registry(s) && Enabled(s, Start) && Attached(s)
    ensures s.clients != [] && !Apply(s, Start).dangling
    ensures Attached(Apply(s, Start)) <==> !WrongRead(s, Start)
  {
    var s', c := Apply(s, Start), s.starting.value;
    var i :| 0 <= i < |s.clients| && s.clients[i] == c;
    assert Leaving(s', c) <==> Leaving(s, c);
    if WrongRead(s, Start) {
      assert s'.handlers[s'.clients[i]] == 0;
    }
  }

  lemma AttachedClose(s: Server, c: Client)
    requires Registry(s) && Enabled(s, Close(c)) && Attached(s)
    ensures Attached(Apply(s, Close(c)))
  {
    assert c in s.clients;
  }

  lemma AttachedUnlink(s: Server)
    requires Registry(s) && Enabled(s, Unlink) && Good(s)
    ensures Attached(Apply(s, Unlink)) && !Apply(s, Unlink).dangling
  {
    hide SwapRemove, FirstIndex, Bound, Fresh, OpenFiles, Handled, Apply;
    var k := UnlinkExact(s);
    SwapRemoveAt(s.clients, k);
    hide Distinct, Sockets;
    var s', last := Without(s, k), |s.clients| - 1;
    assert s.handlers[s.clients[k]] == 0;
    forall j | 0 <= j < |s'.clients|
      ensures s'.clients[j] == s.clients[if j == k then last else j] && s'.clients[j] != s.lock.client
    {
    }
    if s.starting.Some? {
      var i :| 0 <= i < |s.clients| && s.clients[i] == s.starting.value;
      assert s'.clients[if i == last then k else i] == s.starting.value;
    }
  }

  lemma AttachedOther(s: Server, e: Event)
    requires Enabled(s, e) && Attached(s)
    requires e.Accept? || e.AcceptFails? || e.Begin? || e.Send? || e.Finish?
    ensures Attached(Apply(s, e)) && Apply(s, e).clients == s.clients && !Apply(s, e).dangling
  {
    var s' := Apply(s, e);
    assert forall c :: Leaving(s', c) <==> Leaving(s, c);
  }

  lemma AttachedStep(s: Server, e: Event)
    requires Registry(s) && Enabled(s, e) && Good(s)
    ensures Attached(Apply(s, e)) <==> !WrongRead(s, e)
    ensures !Apply(s, e).dangling
  {
    match e
    case Register =>
      AttachedRegister(s);
      hide Registry, Good, Attached;
    case Start =>
      AttachedStart(s);
      hide Registry, Good, Attached;
    case Close(c) =>
      AttachedClose(s, c);
      hide Registry, Good, Attached;
    case Unlink =>
      AttachedUnlink(s);
      hide Registry, Good, Attached, Apply;
    case _ =>
      AttachedOther(s, e);
      hide Registry, Good, Attached, Apply;
  }

  lemma GoodStep(s: Server, e: Event)
    requires Registry(s) && Enabled(s, e) && Good(s)
    ensures Good(Apply(s, e)) <==> !BadStep(s, e)
    ensures !Apply(s, e).dangling
  {
    DistinctStep(s, e);
    AttachedStep(s, e);
    hide Registry, Attached, Apply, Distinct, Sockets, DoubleFailure, WrongRead;
  }

  lemma {:induction false} GoodFrom(s: Server, es: seq<Event>, end: Server)
    requires Inv(s) && Runs(s, es, end) && Good(s) && !s.dangling
    ensures AlwaysGood(s, es) <==> NoBadStep(s, es)
    ensures NoBadStep(s, es) ==> !end.dangling && Good(end)
    decreases |es|
  {
    hide Inv, Apply, Enabled, Good, BadStep;
    if es != [] {
      var s' := Apply(s, es[0]);
      assert Registry(s) by { InvIsRegistry(s); }
      GoodStep(s, es[0]);
      InvStep(s, es[0]);
      if Good(s') {
        GoodFrom(s', es[1..], end);
      }
    }
  }

  /** Through a whole run every client has its one handler and descriptors are distinct, if and only if
      no second failure is registered and no other client is read than the one registered; and then
      no handler is ever left with a freed entry. */
  lemma HandlersSoundIff(es: seq<Event>, end: Server)
    requires Runs(Init(), es, end)
    ensures AlwaysGood(Init(), es) <==> NoBadStep(Init(), es)
    ensures NoBadStep(Init(), es) ==> !end.dangling
  {
    GoodFrom(Init(), es, end);
  }

  // ---------- Each bad step can leave a handler with a freed entry ----------

  /** A run without further bad steps to a state in which a handler has a freed entry. */
  ghost predicate DanglesBy(s: Server, more: seq<Event>, end: Server) {
    Runs(s, more, end) && NoBadStep(s, more) && end.dangling
  }

  predicate Quiet(es: seq<Event>) {
    forall i :: 0 <= i < |es| ==> !es[i].Register? && !es[i].Start?
  }

  lemma {:induction false} QuietIsGood(s: Server, es: seq<Event>)
    requires Quiet(es)
    ensures NoBadStep(s, es)
    decreases |es|
  {
    hide Apply, Enabled;
    if es != [] && Enabled(s, es[0]) {
      QuietIsGood(Apply(s, es[0]), es[1..]);
    }
  }

  lemma {:induction false} RunsConcat(s: Server, a: seq<Event>, mid: Server, b: seq<Event>, end: Server)
    requires Runs(s, a, mid) && Runs(mid, b, end)
    ensures Runs(s, a + b, end)
    decreases |a|
  {
    hide Apply, Enabled;
    if a == [] {
      assert a + b == b;
    } else {
      assert (a + b)[1..] == a[1..] + b;
      RunsConcat(Apply(s, a[0]), a[1..], mid, b, end);
    }
  }

  lemma RunsOne(s: Server, e: Event)
    requires Enabled(s, e)
    ensures Runs(s, [e], Apply(s, e))
  {
    assert [e][1..] == [];
  }

  lemma RunsTwo(s: Server, a: Event, b: Event)
    requires Enabled(s, a) && Enabled(Apply(s, a), b)
    ensures Runs(s, [a] + [b], Apply(Apply(s, a), b))
  {
    hide Apply, Enabled, Runs;
    RunsOne(s, a);
    RunsOne(Apply(s, a), b);
    RunsConcat(s, [a], Apply(s, a), [b], Apply(Apply(s, a), b));
  }

  /** A broadcast under way can always be finished. */
  lemma {:induction false} FinishSending(s: Server) returns (more: seq<Event>, end: Server)
    requires s.lock.Sending? && s.lock.next <= |s.clients| && s.log != [] && !s.dangling
    ensures Runs(s, more, end) && Quiet(more) && !end.dangling
    ensures end.lock == Free && end.clients == s.clients && end.handlers == s.handlers
    decreases |s.clients| - s.lock.next
  {
    hide Runs;
    if s.lock.next == |s.clients| {
      more, end := [Finish], Apply(s, Finish);
      RunsOne(s, Finish);
    } else {
      var rest;
      rest, end := FinishSending(Apply(s, Send));
      more := [Send] + rest;
      RunsOne(s, Send);
      RunsConcat(s, [Send], Apply(s, Send), rest, end);
    }
  }

  /** The first of two handlers of one client to leave frees the entry under the other. */
  lemma TwoHandlersDangle(s: Server, x: Client) returns (end: Server)
    requires Registry(s) && Distinct(Sockets(s.clients)) && !s.dangling && s.lock.Free? && s.handlers[x] >= 2
    ensures Runs(s, [Close(x)] + [Unlink], end) && Quiet([Close(x)] + [Unlink]) && end.dangling
  {
    hide Distinct, Sockets, Runs, Registry;
    var closed := Apply(s, Close(x));
    ClosedState(s, x);
    hide Apply;
    AfterUnlink(closed);
    end := Apply(closed, Unlink);
    RunsTwo(s, Close(x), Unlink);
  }

  /** The handlers after a wrong read: one too many for the last client. */
  lemma AfterWrongRead(s: Server) returns (x: Client)
    requires Inv(s) && Good(s) && Enabled(s, Start) && WrongRead(s, Start)
    ensures var t := Apply(s, Start);
      && Inv(t) && Distinct(Sockets(t.clients)) && !t.dangling
      && t.handlers[x] == (if Leaving(t, x) then 1 else 2)
      && forall c :: Leaving(t, c) && c != x ==> c !in t.handlers
  {
    InvIsRegistry(s);
    InvStep(s, Start);
    AttachedStart(s);
    hide Inv, Distinct, Sockets;
    x := Last(s);
    assert x in s.clients;
    if s.lock.Unlinking? {
      OneLeaves(s, s.lock.client);
    }
  }

  lemma ReadDangles(s: Server) returns (more: seq<Event>, end: Server)
    requires Inv(s) && Good(s) && Enabled(s, Start) && WrongRead(s, Start)
    ensures Runs(Apply(s, Start), more, end) && Quiet(more) && end.dangling
  {
    var t := Apply(s, Start);
    hide Inv, Good, Apply, Distinct, Sockets, Runs, Enabled, WrongRead;
    var x := AfterWrongRead(s);
    InvIsRegistry(t);
    match t.lock
    case Free =>
      more := [Close(x)] + [Unlink];
      end := TwoHandlersDangle(t, x);
    case Sending(_) => more, end := SendFirst(t, x);
    case Unlinking(c) => more, end := UnlinkFirst(t, c, x);
  }

  lemma SendFirst(t: Server, x: Client) returns (more: seq<Event>, end: Server)
    requires Inv(t) && Distinct(Sockets(t.clients)) && !t.dangling && t.lock.Sending? && t.handlers[x] >= 2
    ensures Runs(t, more, end) && Quiet(more) && end.dangling
  {
    hide Inv, Apply, Distinct, Sockets, Runs, Enabled, Bound, Fresh, DistinctClients, OpenFiles;
    InvIsRegistry(t);
    var mid;
    more, mid := FinishSending(t);
    RunInv(t, more, mid);
    InvIsRegistry(mid);
    end := TwoHandlersDangle(mid, x);
    RunsConcat(t, more, mid, [Close(x)] + [Unlink], end);
    more := more + ([Close(x)] + [Unlink]);
  }

  lemma OneLeaves(s: Server, c: Client)
    requires Registry(s) && Attached(s) && s.lock == Unlinking(c)
    ensures s.handlers[c] == 0
  {
    var i :| 0 <= i < |s.clients| && s.clients[i] == c;
  }

  lemma AfterUnlink(t: Server)
    requires Registry(t) && Distinct(Sockets(t.clients)) && Enabled(t, Unlink)
    ensures var mid := Apply(t, Unlink);
      && Registry(mid) && Distinct(Sockets(mid.clients)) && mid.lock.Free? && mid.handlers == t.handlers
      && (mid.dangling <==> t.lock.client in t.handlers)
  {
    RegistryStep(t, Unlink);
    hide Registry, Distinct, Sockets, SwapRemove;
    var k := UnlinkExact(t);
    hide Apply;
  }

  lemma UnlinkFirst(t: Server, c: Client, x: Client) returns (more: seq<Event>, end: Server)
    requires Inv(t) && Distinct(Sockets(t.clients)) && !t.dangling && t.lock == Unlinking(c)
    requires if c == x then x in t.handlers else c !in t.handlers && t.handlers[x] >= 2
    ensures Runs(t, more, end) && Quiet(more) && end.dangling
  {
    hide Inv, Apply, Registry, Distinct, Sockets, Runs;
    InvIsRegistry(t);
    AfterUnlink(t);
    var mid := Apply(t, Unlink);
    RunsOne(t, Unlink);
    if c == x {
      more, end := [Unlink], mid;
    } else {
      end := TwoHandlersDangle(mid, x);
      RunsConcat(t, [Unlink], mid, [Close(x)] + [Unlink], end);
      more := [Unlink] + ([Close(x)] + [Unlink]);
    }
  }

  /** Once the second failure has its handler, that one leaves and frees the first failure's entry. */
  lemma FailureDangles(s: Server) returns (more: seq<Event>, end: Server)
    requires Inv(s) && Good(s) && Enabled(s, Register) && DoubleFailure(s, Register)
    ensures Runs(Apply(s, Register), more, end) && NoBadStep(Apply(s, Register), more) && end.dangling
  {
    InvIsRegistry(s);
    var t := SecondFailureStarted(s);
    var b := s.accepted.value;
    end := FirstFreed(s, t, b);
    hide *;
    RunsConcat(Apply(s, Register), [Start], t, [Close(b)] + [Unlink], end);
    more := [Start] + ([Close(b)] + [Unlink]);
    OneThenQuiet(Apply(s, Register), Start, [Close(b)] + [Unlink]);
  }

  lemma OneThenQuiet(s: Server, e: Event, q: seq<Event>)
    requires Enabled(s, e) && !BadStep(s, e) && Quiet(q)
    ensures NoBadStep(s, [e] + q)
  {
    hide Enabled, Apply, BadStep;
    assert ([e] + q)[1..] == q;
    QuietIsGood(Apply(s, e), q);
  }

  lemma SecondFailureStarted(s: Server) returns (t: Server)
    requires Registry(s) && Good(s) && Enabled(s, Register) && DoubleFailure(s, Register)
    ensures var r, b := Apply(s, Register), s.accepted.value;
      && Enabled(r, Start) && !BadStep(r, Start) && Runs(r, [Start], t) && Registry(t)
      && t.clients == s.clients + [b] && t.handlers == s.handlers + multiset{b} && t.lock == Free && !t.dangling
  {
    var r := Apply(s, Register);
    RegistryStep(s, Register);
    t := Apply(r, Start);
    RunsOne(r, Start);
    RegistryStep(r, Start);
  }

  lemma FirstFreed(s: Server, t: Server, b: Client) returns (end: Server)
    requires Attached(s) && s.starting.None? && s.lock.Free? && FailureRegistered(s) && Registry(t) && !Real(b)
    requires t.clients == s.clients + [b] && t.handlers == s.handlers + multiset{b} && t.lock == Free && !t.dangling
    ensures Runs(t, [Close(b)] + [Unlink], end) && Quiet([Close(b)] + [Unlink]) && end.dangling
  {
    hide Registry, Attached, FailureRegistered, Apply, Enabled, Runs;
    FirstFailure(s, t, b);
    end := Apply(Apply(t, Close(b)), Unlink);
    RunsTwo(t, Close(b), Unlink);
  }

  lemma FirstFailure(s: Server, t: Server, b: Client)
    requires Attached(s) && s.starting.None? && s.lock.Free? && FailureRegistered(s) && Registry(t) && !Real(b)
    requires t.clients == s.clients + [b] && t.handlers == s.handlers + multiset{b} && t.lock == Free && !t.dangling
    ensures Enabled(t, Close(b)) && Enabled(Apply(t, Close(b)), Unlink)
    ensures Apply(Apply(t, Close(b)), Unlink).dangling
  {
    ClosedState(t, b);
    var closed := Apply(t, Close(b));
    hide SwapRemove, FirstIndex, Bound, Fresh, OpenFiles, Handled, Attached, Apply;
    var k := UnlinkFinds(closed);
    hide Sockets, FailureRegistered, Registry;
    FirstIsOld(s, t, b, k);
    assert DistinctClients(t.clients) by { RegistryIsDistinct(t); }
    StillHandled(s, t, b, k);
  }

  lemma RegistryIsDistinct(s: Server)
    requires Registry(s)
    ensures DistinctClients(s.clients)
  {
  }

  lemma FirstIsOld(s: Server, t: Server, b: Client, k: nat)
    requires FailureRegistered(s) && t.clients == s.clients + [b]
    requires FirstIndex(Sockets(t.clients), FAILED) == Some(k)
    ensures k < |s.clients|
  {
    hide FirstIndex;
    var i :| 0 <= i < |s.clients| && !Real(s.clients[i]);
    assert Sockets(t.clients)[i] == FAILED;
    FirstIndexLeast(Sockets(t.clients), FAILED, i);
  }

  lemma ClosedState(t: Server, b: Client)
    requires Registry(t) && Enabled(t, Close(b))
    ensures var closed := Apply(t, Close(b));
      && Registry(closed) && Enabled(closed, Unlink) && closed.lock == Unlinking(b)
      && closed.clients == t.clients && closed.handlers == t.handlers - multiset{b}
  {
    hide Registry;
    RegistryStep(t, Close(b));
  }

  lemma StillHandled(s: Server, t: Server, b: Client, k: nat)
    requires Attached(s) && s.starting.None? && s.lock.Free? && k < |s.clients| && DistinctClients(t.clients)
    requires t.clients == s.clients + [b] && t.handlers == s.handlers + multiset{b}
    ensures t.clients[k] in t.handlers - multiset{b}
  {
    assert t.clients[k] == s.clients[k] && t.clients[|s.clients|] == b;
    assert s.handlers[s.clients[k]] == 1;
  }

  /** The exact condition. After any run without a bad step, the next step makes it possible that a
      handler is left with a freed entry, with no further bad step, if and only if it is one: a second
      failure registered beside a first, or another client read than the one just registered. */
  lemma FreedInUseIff(es: seq<Event>, s: Server, e: Event)
    requires Runs(Init(), es, s) && NoBadStep(Init(), es) && Enabled(s, e)
    ensures (exists more, end :: DanglesBy(Apply(s, e), more, end)) <==> BadStep(s, e)
  {
    InitInv();
    RunInv(Init(), es, s);
    GoodFrom(Init(), es, s);
    hide Inv, Good, Apply, NoBadStep, Runs;
    var t := Apply(s, e);
    if DoubleFailure(s, e) {
      var more, end := FailureDangles(s);
      assert DanglesBy(t, more, end);
    } else if WrongRead(s, e) {
      var more, end := ReadDangles(s);
      QuietIsGood(t, more);
      assert DanglesBy(t, more, end);
    } else {
      InvStep(s, e);
      InvIsRegistry(s);
      GoodStep(s, e);
      forall more, end ensures !DanglesBy(t, more, end) {
        if Runs(t, more, end) && NoBadStep(t, more) {
          GoodFrom(t, more, end);
        }
      }
    }
  }

  // ---------- The two kinds, as runs from the start ----------

  lemma Then(es: seq<Event>, s: Server, e: Event) returns (es': seq<Event>, s': Server)
    requires Runs(Init(), es, s) && Enabled(s, e)
    ensures Runs(Init(), es', s') && s' == Apply(s, e) && es' == es + [e]
  {
    hide Apply, Enabled, Runs;
    es', s' := es + [e], Apply(s, e);
    RunsOne(s, e);
    RunsConcat(Init(), es, s, [e], s');
  }

  /** While the mutex is free and the loop is back at accept, one more client can always join, real with
      any descriptor not in use, or failed, and gets its handler. */
  lemma Join(es: seq<Event>, s: Server, e: Event) returns (es': seq<Event>, s': Server)
    requires Runs(Init(), es, s) && s.lock.Free? && s.accepted.None? && s.starting.None? && !s.dangling
    requires e.AcceptFails? || (e.Accept? && e.fd >= 0 && e.fd !in s.open)
    ensures Runs(Init(), es', s') && es' == es + [e] + [Register] + [Start]
    ensures var c := Client(if e.Accept? then e.fd else FAILED, s.connections);
      && s'.clients == s.clients + [c] && s'.handlers == s.handlers + multiset{c} && s'.connections == s.connections + 1
      && s'.open == (if e.Accept? then s.open[e.fd := c.conn] else s.open)
      && s'.accepted == None && s'.starting == None && s'.lock == Free && !s'.dangling
  {
    hide Runs;
    es', s' := Then(es, s, e);
    es', s' := Then(es', s', Register);
    es', s' := Then(es', s', Start);
  }

  /** The late read waits for nobody: with the mutex free or taken, it gives the client that stands last. */
  lemma LateRead(es: seq<Event>, s: Server) returns (end: Server)
    requires Runs(Init(), es, s) && s.starting.Some? && s.clients != [] && !s.dangling
    ensures Runs(s, [Start], end) && end.lock == s.lock && end.starting == None
    ensures end.handlers == s.handlers + multiset{s.clients[|s.clients| - 1]}
  {
    end := Apply(s, Start);
    RunsOne(s, Start);
  }

  /** While the mutex is free a real client's handler can always leave, and takes exactly its entry. */
  lemma Leave(es: seq<Event>, s: Server, c: Client) returns (end: Server)
    requires Runs(Init(), es, s) && s.lock.Free? && !s.dangling && c in s.handlers && Real(c)
    ensures Runs(s, [Close(c)] + [Unlink], end) && end.lock.Free?
    ensures multiset(end.clients) + multiset{c} == multiset(s.clients)
  {
    hide Inv, Registry, Runs, Apply, Distinct, Sockets;
    InitInv();
    RunInv(Init(), es, s);
    InvIsRegistry(s);
    ClosedState(s, c);
    var closed := Apply(s, Close(c));
    Removed(closed);
    end := Apply(closed, Unlink);
    RunsTwo(s, Close(c), Unlink);
  }

  /** Two failures in a row, as every accept fails once the server is stopped: the second handler
      finds its descriptor bad, leaves, and frees the first one's entry. */
  lemma FailuresInARow() returns (es: seq<Event>, end: Server)
    ensures Runs(Init(), es, end) && end.dangling
    ensures es == [AcceptFails] + [Register] + [Start] + [AcceptFails] + [Register] + [Start]
                  + [Close(Client(FAILED, 1))] + [Unlink]
  {
    hide Runs, FirstIndex, Sockets, SwapRemove;
    var a, b := Client(FAILED, 0), Client(FAILED, 1);
    assert Runs(Init(), [], Init()) by { NoEvents(Init()); }
    es, end := Join([], Init(), AcceptFails);
    es, end := Join(es, end, AcceptFails);
    assert end.clients == [a, b] && end.handlers == multiset{a, b};
    es, end := Then(es, end, Close(b));
    SecondLeaves(end, a, b);
    es, end := Then(es, end, Unlink);
  }

  lemma SecondLeaves(s: Server, a: Client, b: Client)
    requires s.clients == [a, b] && a.socket == b.socket && s.lock == Unlinking(b) && !s.dangling && a in s.handlers
    ensures Enabled(s, Unlink) && Apply(s, Unlink).dangling
  {
    assert Sockets(s.clients)[0] == b.socket;
    assert FirstIndex(Sockets(s.clients), b.socket) == Some(0);
  }

  lemma NoEvents(s: Server)
    ensures Runs(s, [], s)
  {
  }

  /** No accept fails here: a and b are served, c is registered, and a leaves before the loop reads
      its result. The read finds b, so b gets a second handler; when the first one leaves, the second
      works on a freed entry. */
  lemma LateReadRun() returns (es: seq<Event>, end: Server)
    ensures Runs(Init(), es, end) && end.dangling
    ensures var a, b := Client(3, 0), Client(4, 1);
      es == [Accept(3)] + [Register] + [Start] + [Accept(4)] + [Register] + [Start] + [Accept(5)] + [Register]
            + [Close(a)] + [Unlink] + [Start] + [Close(b)] + [Unlink]
  {
    hide Runs;
    var s;
    es, s := LateReadStart();
    var b, c := Client(4, 1), Client(5, 2);
    es, s := Then(es, s, Start);
    assert s.handlers == multiset{b, b};
    es, s := Then(es, s, Close(b));
    assert Sockets(s.clients) == [5, 4];
    assert FirstIndex([5, 4], 4) == Some(1);
    es, end := Then(es, s, Unlink);
  }

  lemma LateReadStart() returns (es: seq<Event>, s: Server)
    ensures Runs(Init(), es, s) && !s.dangling && s.lock.Free?
    ensures s.clients == [Client(5, 2), Client(4, 1)] && s.handlers == multiset{Client(4, 1)}
    ensures s.starting == Some(Client(5, 2))
    ensures es == [Accept(3)] + [Register] + [Start] + [Accept(4)] + [Register] + [Start] + [Accept(5)] + [Register]
                  + [Close(Client(3, 0))] + [Unlink]
  {
    hide Runs;
    var a, b, c := Client(3, 0), Client(4, 1), Client(5, 2);
    es, s := TwoServed();
    es, s := Then(es, s, Accept(5));
    es, s := Then(es, s, Register);
    assert s.clients == [a, b, c];
    es, s := Then(es, s, Close(a));
    FirstLeaves(s, a, b, c);
    es, s := Then(es, s, Unlink);
  }

  lemma TwoServed() returns (es: seq<Event>, s: Server)
    ensures Runs(Init(), es, s) && !s.dangling && s.lock.Free? && s.accepted == None && s.starting == None
    ensures s.clients == [Client(3, 0), Client(4, 1)] && s.handlers == multiset{Client(3, 0), Client(4, 1)}
    ensures 5 !in s.open && s.connections == 2
    ensures es == [Accept(3)] + [Register] + [Start] + [Accept(4)] + [Register] + [Start]
  {
    hide Runs, Apply;
    assert Runs(Init(), [], Init()) by { NoEvents(Init()); }
    es, s := Join([], Init(), Accept(3));
    es, s := Join(es, s, Accept(4));
  }

  lemma FirstLeaves(s: Server, a: Client, b: Client, c: Client)
    requires s.clients == [a, b, c] && s.lock == Unlinking(a) && !s.dangling && a !in s.handlers
    ensures Enabled(s, Unlink)
    ensures Apply(s, Unlink) == s.(lock := Free, clients := [c, b])
  {
    assert Sockets(s.clients)[0] == a.socket;
    assert FirstIndex(Sockets(s.clients), a.socket) == Some(0);
    assert SwapRemove([a, b, c], 0) == [c, b];
  }

  lemma InitInv()
    ensures Inv(Init()) && Good(Init()) && !Init().dangling
  {
  }

  /** Total order: what a connection was sent is one contiguous segment of the broadcasts, each message
      as it was broadcast. The segment starts at the registration and ends at the removal, or else at
      the end, or just before the last message while that one has not reached the client. */
  lemma TotalOrderBroadcast(es: seq<Event>, s: Server, c: nat)
    requires Runs(Init(), es, s) && c in StoryOf(NOTHING, es).joined
    ensures var story, all := StoryOf(NOTHING, es), Broadcasts(es);
      && c in s.got
      && (c in story.left ==> IsSegment(s.got[c], all, story.joined[c], story.left[c]))
      && (c !in story.left ==>
            exists j :: 0 <= j < |s.clients| && s.clients[j].conn == c
                        && IsSegment(s.got[c], all, story.joined[c], Upto(s, j)))
  {
    hide Inv, IsSegment, StoryOf, Broadcasts, Runs;
    RunTells(es, s);
    InitInv();
    RunInv(Init(), es, s);
    SegmentOf(s, c);
  }

  lemma SegmentOf(s: Server, c: nat)
    requires Inv(s) && c in s.joined
    ensures c in s.got
    ensures c in s.left ==> IsSegment(s.got[c], s.log, s.joined[c], s.left[c])
    ensures c !in s.left ==>
      exists j :: 0 <= j < |s.clients| && s.clients[j].conn == c && IsSegment(s.got[c], s.log, s.joined[c], Upto(s, j))
  {
    hide Registry, IsSegment;
    if c !in s.left {
      var j :| 0 <= j < |s.clients| && s.clients[j].conn == c && Real(s.clients[j]);
      assert IsSegment(s.got[c], s.log, s.joined[c], Upto(s, j));
    }
  }

  /** A broadcast is always possible while the mutex is free, and when it is finished every real client
      has exactly its message added, and nobody else anything. */
  lemma BroadcastReaches(es: seq<Event>, s: Server, m: Message) returns (more: seq<Event>, end: Server)
    requires Runs(Init(), es, s) && s.lock.Free? && !s.dangling
    ensures Runs(s, more, end) && Broadcasts(more) == [m] && end.lock.Free? && end.clients == s.clients
    ensures end.got.Keys == s.got.Keys
    ensures forall c :: c in s.got ==> end.got[c] == s.got[c] + if Serves(s, c) then [m] else []
  {
    InitInv();
    RunInv(Init(), es, s);
    hide Inv, Apply, Enabled, Runs, Broadcasts, Serves;
    var begun := BroadcastBegun(s, m);
    more, end := SendAll(begun);
    RunsConcat(s, [Begin(m)], begun, more, end);
    OneBroadcast(m, more);
    more := [Begin(m)] + more;
    AddedMessages(s, begun, end, m);
  }

  lemma BroadcastBegun(s: Server, m: Message) returns (begun: Server)
    requires Inv(s) && s.lock.Free? && !s.dangling
    ensures Runs(s, [Begin(m)], begun) && Inv(begun) && begun.lock.Sending? && !begun.dangling
    ensures begun.clients == s.clients && begun.got == s.got && begun.log == s.log + [m] && begun.joined == s.joined
  {
    hide Inv;
    begun := Apply(s, Begin(m));
    InvStep(s, Begin(m));
    RunsOne(s, Begin(m));
  }

  lemma AddedMessages(s: Server, begun: Server, end: Server, m: Message)
    requires Inv(s) && Inv(end) && s.lock.Free? && end.lock.Free? && begun.clients == s.clients == end.clients
    requires end.log == s.log + [m] && end.joined == s.joined && begun.got == s.got && end.got.Keys == s.got.Keys
    requires forall c :: c in begun.got && !Serves(begun, c) ==> end.got[c] == begun.got[c]
    ensures forall c :: c in s.got ==> end.got[c] == s.got[c] + if Serves(s, c) then [m] else []
  {
    hide Inv, Serving, Serves;
    InvIsServing(s);
    InvIsServing(end);
    forall c | c in s.got ensures end.got[c] == s.got[c] + if Serves(s, c) then [m] else [] {
      SameServes(begun, s, c);
      if Serves(s, c) {
        AddedMessage(s, end, c, m);
      } else {
        assert end.got[c] + [] == end.got[c];
      }
    }
  }

  lemma SameServes(a: Server, b: Server, c: nat)
    requires a.clients == b.clients
    ensures Serves(a, c) <==> Serves(b, c)
  {
  }

  /** The connection of a registered client. */
  predicate Serves(s: Server, c: nat) {
    exists j :: 0 <= j < |s.clients| && Real(s.clients[j]) && s.clients[j].conn == c
  }

  lemma OneBroadcast(m: Message, more: seq<Event>)
    requires forall i :: 0 <= i < |more| ==> !more[i].Begin?
    ensures Broadcasts([Begin(m)] + more) == [m]
  {
    NoBroadcast(more);
    assert ([Begin(m)] + more)[1..] == more;
  }

  lemma {:induction false} NoBroadcast(more: seq<Event>)
    requires forall i :: 0 <= i < |more| ==> !more[i].Begin?
    ensures Broadcasts(more) == []
  {
    if more != [] {
      NoBroadcast(more[1..]);
    }
  }

  lemma AddedMessage(s: Server, end: Server, c: nat, m: Message)
    requires Serving(s) && Serving(end) && s.lock.Free? && end.lock.Free? && end.clients == s.clients
    requires end.log == s.log + [m] && end.joined == s.joined && Serves(s, c)
    ensures c in s.got && c in end.got && end.got[c] == s.got[c] + [m]
  {
    var j :| 0 <= j < |s.clients| && Real(s.clients[j]) && s.clients[j].conn == c;
    assert Real(end.clients[j]) && end.clients[j].conn == c;
    var from := s.joined[c];
    assert s.log[from..|s.log|] + [m] == end.log[from..|end.log|];
  }

  /** The rest of a broadcast touches nobody but the registered clients. */
  lemma {:induction false} SendAll(s: Server) returns (more: seq<Event>, end: Server)
    requires Inv(s) && s.lock.Sending? && !s.dangling
    ensures Runs(s, more, end) && Inv(end) && end.lock.Free? && !end.dangling
    ensures forall i :: 0 <= i < |more| ==> !more[i].Begin?
    ensures end.clients == s.clients && end.log == s.log && end.joined == s.joined && end.got.Keys == s.got.Keys
    ensures forall c :: c in s.got && !Serves(s, c) ==> end.got[c] == s.got[c]
    decreases if s.lock.Sending? && s.lock.next <= |s.clients| then |s.clients| - s.lock.next else 0
  {
    assert s.lock.next <= |s.clients| by { assert LockState(s); }
    hide Inv, Serves, Runs;
    if s.lock.next == |s.clients| {
      more, end := [Finish], Apply(s, Finish);
      InvStep(s, Finish);
      RunsOne(s, Finish);
    } else {
      var s' := SendOne(s);
      hide Apply, Enabled;
      var rest;
      rest, end := SendAll(s');
      RunsConcat(s, [Send], s', rest, end);
      more := [Send] + rest;
    }
  }

  lemma SendOne(s: Server) returns (s': Server)
    requires Inv(s) && s.lock.Sending? && !s.dangling && s.lock.next < |s.clients|
    ensures Runs(s, [Send], s') && Inv(s') && s'.lock == Sending(s.lock.next + 1) && !s'.dangling
    ensures s'.clients == s.clients && s'.log == s.log && s'.joined == s.joined && s'.got.Keys == s.got.Keys
    ensures forall c :: Serves(s', c) <==> Serves(s, c)
    ensures forall c :: c in s.got && !Serves(s, c) ==> s'.got[c] == s.got[c]
  {
    hide Inv, Registry, Serving, Runs, Serves, Apply;
    InvIsRegistry(s);
    InvIsServing(s);
    SendReaches(s);
    InvStep(s, Send);
    RunsOne(s, Send);
    s' := Apply(s, Send);
    var n := s.lock.next;
    forall c ensures Serves(s', c) <==> Serves(s, c) { SameServes(s', s, c); }
    if Real(s.clients[n]) {
      ServesAt(s, n);
    }
  }

  lemma InvIsServing(s: Server)
    requires Inv(s)
    ensures Serving(s)
  {
  }

  lemma ServesAt(s: Server, n: nat)
    requires n < |s.clients| && Real(s.clients[n])
    ensures Serves(s, s.clients[n].conn)
  {
  }

  /** Before it is registered, a connection is sent nothing. */
  lemma NothingBeforeJoining(es: seq<Event>, s: Server, c: nat)
    requires Runs(Init(), es, s) && c in s.got && c !in StoryOf(NOTHING, es).joined
    ensures s.got[c] == []
  {
    RunTells(es, s);
    RunInv(Init(), es, s);
    hide Registry, StoryOf, Runs;
  }
}
