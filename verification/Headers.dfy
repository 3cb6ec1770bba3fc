/** src/headers.c: an ordered multimap with case-insensitive names, and who owns its strings. */
module Headers {
  import opened Options
  import opened Text

  datatype Header = Header(name: string, value: string)

  /** An element of `fields`: two pointers. `id` names the allocation of the strings they point to,
      so two slots with one `id` share them. */
  datatype Slot = Slot(entry: Header, id: nat)

  /** The fields, the allocations already freed, and the next allocation. */
  datatype Store = Store(fields: seq<Slot>, freed: set<nat>, next: nat)

  datatype Lookup = Found(value: string) | Missing | UseAfterFree

  /** What headers_to_string makes of a store. */
  datatype Printed = Printed(text: string) | Overrun | ReadsFreed

  /** The buffers that the printers fill have this many bytes. */
  const BUFFER: nat := 1024 * 1024

  // ---------- Values ----------

  /** Scans for a stored name; comparing with a freed name is a fault. */
  function Find(fields: seq<Slot>, freed: set<nat>, name: string): Lookup {
    if fields == [] then Missing
    else if fields[0].id in freed then UseAfterFree
    else if fields[0].entry.name == name then Found(fields[0].entry.value)
    else Find(fields[1..], freed, name)
  }

  /** The loop of headers_delete from index `i` on; None when it compares with a freed name. */
  function DeleteLoop(fields: seq<Slot>, freed: set<nat>, name: string, i: nat, deleted: nat)
    : (r: Option<(seq<Slot>, set<nat>, nat)>)
    requires deleted <= i <= |fields|
    ensures r.Some? ==> |r.value.0| == |fields| && r.value.2 <= |fields|
    decreases |fields| - i
  {
    if i == |fields| then Some((fields, freed, deleted))
    else if fields[i].id in freed then None
    else if fields[i].entry.name == name then DeleteLoop(fields, freed + {fields[i].id}, name, i + 1, deleted + 1)
    else DeleteLoop(fields[i - deleted := fields[i]], freed, name, i + 1, deleted)
  }

  function HeaderLine(h: Header): string { h.name + ": " + h.value }

  function HeaderText(h: Header): string { HeaderLine(h) + CRLF }

  function HeadersText(hs: seq<Header>): string {
    if hs == [] then "" else HeaderText(hs[0]) + HeadersText(hs[1..])
  }

  function HeaderLines(hs: seq<Header>): (r: seq<string>)
    ensures |r| == |hs|
  {
    seq(|hs|, i requires 0 <= i < |hs| => HeaderLine(hs[i]))
  }

  lemma {:induction false} LinesOfHeaders(hs: seq<Header>)
    ensures Lines(HeaderLines(hs)) == HeadersText(hs)
  {
    if hs != [] {
      LinesOfHeaders(hs[1..]);
      assert HeaderLines(hs)[1..] == HeaderLines(hs[1..]);
    }
  }

  /** The loop of headers_to_string, with what the buffer holds so far. */
  function PrintLoop(fields: seq<Slot>, freed: set<nat>, text: string): Printed {
    if fields == [] then Printed(text)
    else if fields[0].id in freed then ReadsFreed
    else
      var longer := text + HeaderText(fields[0].entry);
      if |longer| >= BUFFER then Overrun else PrintLoop(fields[1..], freed, longer)
  }

  /** headers_destroy frees every field once; false when one was freed before. */
  predicate DestroyLoop(fields: seq<Slot>, freed: set<nat>) {
    fields == [] || (fields[0].id !in freed && DestroyLoop(fields[1..], freed + {fields[0].id}))
  }

  function Entries(fields: seq<Slot>): (r: seq<Header>)
    ensures |r| == |fields|
  {
    seq(|fields|, i requires 0 <= i < |fields| => fields[i].entry)
  }

  // ---------- One call ----------

  /** headers_set on non-NULL texts. */
  function SetCalled(s: Store, name: string, value: string): Store {
    Store(s.fields + [Slot(Header(Lower(name), value), s.next)], s.freed, s.next + 1)
  }

  /** headers_delete as written: the name is compared as given and `size` stays. */
  function DeleteWritten(s: Store, name: string): Option<(Store, nat)> {
    match DeleteLoop(s.fields, s.freed, name, 0, 0)
    case None => None
    case Some((fields, freed, n)) => Some((Store(fields, freed, s.next), n))
  }

  /** headers_delete as meant: the name in lower case, and the list shortened. */
  function DeleteIntended(s: Store, name: string): Option<(Store, nat)> {
    match DeleteLoop(s.fields, s.freed, Lower(name), 0, 0)
    case None => None
    case Some((fields, freed, n)) => Some((Store(fields[..|fields| - n], freed, s.next), n))
  }

  // ---------- The object ----------

  class Headers {
    /** `size` is always its length. */
    var fields: seq<Slot>
    /** Allocations handed back to the heap, and the next one it hands out. */
    var freed: set<nat>
    var next: nat

    function State(): Store
      reads this
    {
      Store(fields, freed, next)
    }

    constructor ()
      ensures State() == Store([], {}, 0)
    {
      fields, freed, next := [], {}, 0;
    }

    /** headers_set; a NULL name or value is stored as the empty one. */
    method Set(name: Option<string>, value: Option<string>)
      modifies this
      ensures State() == SetCalled(old(State()), name.GetOr(""), value.GetOr(""))
      ensures fields[..|fields| - 1] == old(fields) && fields[|fields| - 1].entry.value == value.GetOr("")
      ensures var stored := fields[|fields| - 1].entry.name;
        SameLetters(stored, name.GetOr("")) && NoCapital(stored)
    {
      LowerExact(name.GetOr(""));
      var lowered := ToLower(name.GetOr(""));
      fields := fields + [Slot(Header(lowered, value.GetOr("")), next)];
      next := next + 1;
    }

    /** headers_get. */
    method Get(name: string) returns (r: Lookup)
      ensures r == Find(fields, freed, Lower(name))
    {
      var lowered := ToLower(name);
      var i := 0;
      while i < |fields|
        invariant i <= |fields|
        invariant Find(fields, freed, lowered) == Find(fields[i..], freed, lowered)
      {
        if fields[i].id in freed { return UseAfterFree; }
        if fields[i].entry.name == lowered { return Found(fields[i].entry.value); }
        assert fields[i..][1..] == fields[i + 1..];
        i := i + 1;
      }
      r := Missing;
    }

    /** headers_delete as written; None when it reads a string that is already freed. */
    method Delete(name: string) returns (r: Option<nat>)
      modifies this
      ensures match DeleteWritten(old(State()), name)
        case None => r == None
        case Some((s, n)) => State() == s && r == Some(n)
    {
      var deleted := 0;
      var i := 0;
      while i < |fields|
        invariant deleted <= i <= |fields| && next == old(next)
        invariant DeleteLoop(old(fields), old(freed), name, 0, 0) == DeleteLoop(fields, freed, name, i, deleted)
      {
        if fields[i].id in freed { return None; }
        if fields[i].entry.name == name {
          freed := freed + {fields[i].id};
          deleted := deleted + 1;
        } else {
          fields := fields[i - deleted := fields[i]];
        }
        i := i + 1;
      }
      r := Some(deleted);
    }

    /** headers_delete as meant. */
    method DeleteMeant(name: string) returns (r: Option<nat>)
      modifies this
      ensures match DeleteIntended(old(State()), name)
        case None => r == None
        case Some((s, n)) => State() == s && r == Some(n)
    {
      var lowered := ToLower(name);
      r := Delete(lowered);
      if r.Some? {
        fields := fields[..|fields| - r.value];
      }
    }

    /** headers_to_string. */
    method Print() returns (r: Printed)
      ensures r == PrintLoop(fields, freed, "")
    {
      var text := "";
      var i := 0;
      while i < |fields|
        invariant i <= |fields|
        invariant PrintLoop(fields, freed, "") == PrintLoop(fields[i..], freed, text)
      {
        if fields[i].id in freed { return ReadsFreed; }
        text := text + HeaderText(fields[i].entry);
        if |text| >= BUFFER { return Overrun; }
        assert fields[i..][1..] == fields[i + 1..];
        i := i + 1;
      }
      r := Printed(text);
    }

    /** headers_destroy; false when it frees a string twice. */
    method Destroy() returns (ok: bool)
      modifies this
      ensures ok == DestroyLoop(old(fields), old(freed))
      ensures ok ==> freed == old(freed) + Ids(old(fields))
    {
      var i := 0;
      while i < |fields|
        invariant i <= |fields| && fields == old(fields) && freed == old(freed) + Ids(fields[..i])
        invariant DestroyLoop(old(fields), old(freed)) == DestroyLoop(fields[i..], freed)
      {
        if fields[i].id in freed { return false; }
        assert fields[i..][1..] == fields[i + 1..];
        assert fields[..i + 1] == fields[..i] + [fields[i]];
        freed := freed + {fields[i].id};
        i := i + 1;
      }
      assert fields[..i] == fields;
      ok := true;
    }
  }

  /** The lower-casing loop over a private copy of the name. */
  method ToLower(name: string) returns (r: string)
    ensures r == Lower(name)
  {
    var copy := new char[|name|](i requires 0 <= i < |name| => name[i]);
    var i := 0;
    while i < copy.Length
      invariant i <= copy.Length
      invariant copy[..i] == Lower(name[..i])
      invariant copy[i..] == name[i..]
    {
      copy[i] := LowerChar(copy[i]);
      i := i + 1;
    }
    assert name[..i] == name;
    r := copy[..];
  }

  // ---------- Sound stores ----------

  function Ids(fields: seq<Slot>): set<nat> {
    set x | x in fields :: x.id
  }

  /** No two slots share their strings. */
  predicate DistinctIds(fields: seq<Slot>) {
    fields == [] || (fields[0].id !in Ids(fields[1..]) && DistinctIds(fields[1..]))
  }

  predicate AllLive(fields: seq<Slot>, freed: set<nat>) {
    forall i :: 0 <= i < |fields| ==> fields[i].id !in freed
  }

  predicate AllLower(fields: seq<Slot>) {
    forall i :: 0 <= i < |fields| ==> Lower(fields[i].entry.name) == fields[i].entry.name
  }

  predicate Stores(fields: seq<Slot>, name: string) {
    exists i :: 0 <= i < |fields| && fields[i].entry.name == name
  }

  /** Every slot owns live strings of its own, and names are stored in lower case. */
  predicate Sound(s: Store) {
    && DistinctIds(s.fields) && AllLive(s.fields, s.freed) && AllLower(s.fields)
    && (forall i :: 0 <= i < |s.fields| ==> s.fields[i].id < s.next)
    && (forall id <- s.freed :: id < s.next)
  }

  lemma {:induction false} DistinctAt(fields: seq<Slot>, i: nat, j: nat)
    requires DistinctIds(fields) && i < j < |fields|
    ensures fields[i].id != fields[j].id
  {
    if i == 0 {
      assert fields[j] == fields[1..][j - 1];
      assert fields[j] in fields[1..];
    } else {
      DistinctAt(fields[1..], i - 1, j - 1);
    }
  }

  /** The fields with other names, in order. */
  function Kept(fields: seq<Slot>, name: string): (r: seq<Slot>)
    ensures |r| <= |fields|
  {
    if fields == [] then []
    else if fields[0].entry.name == name then Kept(fields[1..], name)
    else [fields[0]] + Kept(fields[1..], name)
  }

  lemma {:induction false} KeptMembers(fields: seq<Slot>, name: string)
    ensures forall x :: x in Kept(fields, name) <==> x in fields && x.entry.name != name
  {
    if fields != [] {
      KeptMembers(fields[1..], name);
      assert forall x :: x in fields <==> x == fields[0] || x in fields[1..];
    }
  }

  lemma {:induction false} KeptAppend(a: seq<Slot>, x: Slot, name: string)
    ensures Kept(a + [x], name) == Kept(a, name) + if x.entry.name == name then [] else [x]
  {
    if a == [] {
      assert a + [x] == [x];
    } else {
      assert (a + [x])[1..] == a[1..] + [x];
      KeptAppend(a[1..], x, name);
    }
  }

  lemma {:induction false} KeptDistinct(fields: seq<Slot>, name: string)
    requires DistinctIds(fields)
    ensures DistinctIds(Kept(fields, name))
  {
    if fields != [] {
      KeptDistinct(fields[1..], name);
      KeptMembers(fields[1..], name);
      assert ([fields[0]] + Kept(fields[1..], name))[1..] == Kept(fields[1..], name);
    }
  }

  /** The allocations behind a name. */
  function IdsOf(fields: seq<Slot>, name: string): set<nat> {
    set x | x in fields && x.entry.name == name :: x.id
  }

  /** What the loop leaves in the slots: the kept fields, then the old last ones. */
  function Compacted(fields: seq<Slot>, name: string): seq<Slot> {
    Kept(fields, name) + fields[|Kept(fields, name)|..]
  }

  /** The slots when the loop has dealt with the first `i`. */
  function Partial(fields: seq<Slot>, name: string, i: nat): (r: seq<Slot>)
    requires i <= |fields|
    ensures |r| == |fields|
  {
    Kept(fields[..i], name) + fields[|Kept(fields[..i], name)|..]
  }

  lemma PartialStep(fields: seq<Slot>, name: string, i: nat)
    requires i < |fields|
    ensures var now := Partial(fields, name, i);
      var k := |Kept(fields[..i], name)|;
      && |now| == |fields| && now[i] == fields[i]
      && (if fields[i].entry.name == name
          then Partial(fields, name, i + 1) == now && |Kept(fields[..i + 1], name)| == k
          else Partial(fields, name, i + 1) == now[k := fields[i]] && |Kept(fields[..i + 1], name)| == k + 1)
  {
    assert fields[..i + 1] == fields[..i] + [fields[i]];
    KeptAppend(fields[..i], fields[i], name);
    hide Kept;
  }

  lemma IdsStep(fields: seq<Slot>, name: string, i: nat)
    requires i < |fields|
    ensures IdsOf(fields[..i + 1], name)
         == IdsOf(fields[..i], name) + if fields[i].entry.name == name then {fields[i].id} else {}
  {
    assert fields[..i + 1] == fields[..i] + [fields[i]];
  }

  /** When the loop gets to slot i, its name is freed already, perhaps by the loop itself. */
  predicate FreedBefore(fields: seq<Slot>, freed: set<nat>, name: string, i: nat) {
    i < |fields| &&
    (fields[i].id in freed ||
     exists j :: 0 <= j < i && fields[j].entry.name == name && fields[j].id == fields[i].id)
  }

  lemma FreedByThen(fields: seq<Slot>, freed: set<nat>, name: string, i: nat)
    requires i < |fields|
    ensures FreedBefore(fields, freed, name, i) <==> fields[i].id in freed + IdsOf(fields[..i], name)
  {
    var front := fields[..i];
    if fields[i].id in IdsOf(front, name) {
      var x :| x in front && x.entry.name == name && x.id == fields[i].id;
      var j :| 0 <= j < i && front[j] == x;
      assert fields[j] == x;
    }
    if j :| 0 <= j < i && fields[j].entry.name == name && fields[j].id == fields[i].id {
      assert front[j] in front;
    }
  }

  lemma DeleteStops(now: seq<Slot>, gone: set<nat>, name: string, i: nat, deleted: nat)
    requires deleted <= i < |now| && now[i].id in gone
    ensures DeleteLoop(now, gone, name, i, deleted) == None
  {
  }

  lemma DeleteStep(now: seq<Slot>, gone: set<nat>, name: string, i: nat, deleted: nat)
    requires deleted <= i < |now| && now[i].id !in gone
    ensures DeleteLoop(now, gone, name, i, deleted) ==
      if now[i].entry.name == name then DeleteLoop(now, gone + {now[i].id}, name, i + 1, deleted + 1)
      else DeleteLoop(now[i - deleted := now[i]], gone, name, i + 1, deleted)
  {
  }

  /** The loop from there on. */
  function LoopFrom(fields: seq<Slot>, freed: set<nat>, name: string, i: nat): Option<(seq<Slot>, set<nat>, nat)>
    requires i <= |fields|
  {
    DeleteLoop(Partial(fields, name, i), freed + IdsOf(fields[..i], name), name, i, i - |Kept(fields[..i], name)|)
  }

  lemma LoopStep(fields: seq<Slot>, freed: set<nat>, name: string, i: nat)
    requires i < |fields|
    ensures LoopFrom(fields, freed, name, i)
         == if FreedBefore(fields, freed, name, i) then None else LoopFrom(fields, freed, name, i + 1)
  {
    FreedByThen(fields, freed, name, i);
    hide Kept, Partial, IdsOf, FreedBefore, DeleteLoop;
    if fields[i].id in freed + IdsOf(fields[..i], name) {
      PartialStep(fields, name, i);
      DeleteStops(Partial(fields, name, i), freed + IdsOf(fields[..i], name), name, i, i - |Kept(fields[..i], name)|);
    } else {
      LoopGoes(fields, freed, name, i);
    }
  }

  lemma LoopGoes(fields: seq<Slot>, freed: set<nat>, name: string, i: nat)
    requires i < |fields| && fields[i].id !in freed + IdsOf(fields[..i], name)
    ensures LoopFrom(fields, freed, name, i) == LoopFrom(fields, freed, name, i + 1)
  {
    hide Kept, Partial, IdsOf, DeleteLoop;
    PartialStep(fields, name, i);
    IdsStep(fields, name, i);
    var gone := freed + IdsOf(fields[..i], name);
    DeleteStep(Partial(fields, name, i), gone, name, i, i - |Kept(fields[..i], name)|);
    assert freed + (IdsOf(fields[..i], name) + {fields[i].id}) == gone + {fields[i].id};
    assert freed + (IdsOf(fields[..i], name) + {}) == gone;
  }

  lemma {:induction false} LoopReaches(fields: seq<Slot>, freed: set<nat>, name: string, i: nat)
    requires i <= |fields| && forall j: nat :: j < i ==> !FreedBefore(fields, freed, name, j)
    ensures LoopFrom(fields, freed, name, 0) == LoopFrom(fields, freed, name, i)
  {
    hide LoopFrom, FreedBefore;
    if i > 0 {
      LoopReaches(fields, freed, name, i - 1);
      LoopStep(fields, freed, name, i - 1);
    }
  }

  lemma LoopEnds(fields: seq<Slot>, freed: set<nat>, name: string)
    ensures LoopFrom(fields, freed, name, 0) == DeleteLoop(fields, freed, name, 0, 0)
    ensures LoopFrom(fields, freed, name, |fields|)
         == Some((Compacted(fields, name), freed + IdsOf(fields, name), |fields| - |Kept(fields, name)|))
  {
    assert fields[..0] == [] && fields[..|fields|] == fields;
    assert Partial(fields, name, 0) == fields && Partial(fields, name, |fields|) == Compacted(fields, name);
    assert freed + IdsOf([], name) == freed;
  }

  /** The first slot at which the loop would read a freed name, or the number of slots. */
  lemma {:induction false} FirstFreed(fields: seq<Slot>, freed: set<nat>, name: string, i: nat) returns (k: nat)
    requires i <= |fields| && forall j: nat :: j < i ==> !FreedBefore(fields, freed, name, j)
    ensures k <= |fields| && forall j: nat :: j < k ==> !FreedBefore(fields, freed, name, j)
    ensures k < |fields| ==> FreedBefore(fields, freed, name, k)
    decreases |fields| - i
  {
    hide FreedBefore;
    if i == |fields| || FreedBefore(fields, freed, name, i) {
      k := i;
    } else {
      k := FirstFreed(fields, freed, name, i + 1);
    }
  }

  /** The loop on any list, shared and freed strings included: it faults if and only if some slot's
      name is freed when it gets there, and otherwise leaves the kept fields in order followed by the
      old last slots, frees exactly the strings of the name and counts them. */
  lemma DeleteExact(fields: seq<Slot>, freed: set<nat>, name: string)
    ensures DeleteLoop(fields, freed, name, 0, 0) ==
      if exists i: nat :: FreedBefore(fields, freed, name, i) then None
      else Some((Compacted(fields, name), freed + IdsOf(fields, name), |fields| - |Kept(fields, name)|))
  {
    LoopEnds(fields, freed, name);
    hide LoopFrom, FreedBefore, DeleteLoop, Compacted, IdsOf, Kept;
    var k := FirstFreed(fields, freed, name, 0);
    LoopReaches(fields, freed, name, k);
    if k < |fields| {
      LoopStep(fields, freed, name, k);
    } else {
      PastTheEnd(fields, freed, name);
    }
  }

  lemma PastTheEnd(fields: seq<Slot>, freed: set<nat>, name: string)
    ensures forall i: nat :: FreedBefore(fields, freed, name, i) ==> i < |fields|
  {
  }

  lemma DeleteAll(fields: seq<Slot>, freed: set<nat>, name: string)
    requires DistinctIds(fields) && AllLive(fields, freed)
    ensures DeleteLoop(fields, freed, name, 0, 0)
         == Some((Compacted(fields, name), freed + IdsOf(fields, name), |fields| - |Kept(fields, name)|))
  {
    hide DeleteLoop, Compacted, IdsOf, Kept;
    DeleteExact(fields, freed, name);
    forall i: nat, j: nat | j < i < |fields| ensures fields[j].id != fields[i].id { DistinctAt(fields, j, i); }
    hide DistinctIds;
    assert forall i: nat :: !FreedBefore(fields, freed, name, i);
  }

  /** On a sound store the loop compacts, frees exactly the strings of the name, and counts them. */
  lemma DeleteCompacts(s: Store, name: string)
    requires Sound(s)
    ensures DeleteWritten(s, name) ==
      Some((Store(Compacted(s.fields, name), s.freed + IdsOf(s.fields, name), s.next),
            |s.fields| - |Kept(s.fields, name)|))
    ensures DeleteIntended(s, name) ==
      Some((Store(Kept(s.fields, Lower(name)), s.freed + IdsOf(s.fields, Lower(name)), s.next),
            |s.fields| - |Kept(s.fields, Lower(name))|))
  {
    hide DeleteLoop, IdsOf, DistinctIds, Kept, Lower, Compacted;
    DeleteAll(s.fields, s.freed, name);
    DeleteAll(s.fields, s.freed, Lower(name));
    CompactedFront(s.fields, Lower(name));
  }

  lemma CompactedFront(fields: seq<Slot>, name: string)
    ensures |Compacted(fields, name)| == |fields|
    ensures Compacted(fields, name)[..|Kept(fields, name)|] == Kept(fields, name)
  {
    hide Kept;
  }

  lemma SetKeepsSound(s: Store, name: string, value: string)
    requires Sound(s)
    ensures Sound(SetCalled(s, name, value))
  {
    LowerIdempotent(name);
    DistinctAppend(s.fields, Slot(Header(Lower(name), value), s.next));
  }

  lemma {:induction false} DistinctAppend(fields: seq<Slot>, x: Slot)
    requires DistinctIds(fields) && forall i :: 0 <= i < |fields| ==> fields[i].id != x.id
    ensures DistinctIds(fields + [x])
  {
    if fields == [] {
      assert fields + [x] == [x];
    } else {
      assert (fields + [x])[1..] == fields[1..] + [x];
      DistinctAppend(fields[1..], x);
    }
  }

  lemma DeleteKeepsSound(s: Store, name: string)
    requires Sound(s)
    ensures DeleteIntended(s, name).Some? && Sound(DeleteIntended(s, name).value.0)
  {
    hide Kept, DeleteIntended, DistinctIds, Compacted, DeleteWritten;
    DeleteCompacts(s, name);
    var lowered := Lower(name);
    var kept := Kept(s.fields, lowered);
    KeptDistinct(s.fields, lowered);
    KeptMembers(s.fields, lowered);
    hide Lower;
    forall i | 0 <= i < |kept|
      ensures kept[i].id !in s.freed + IdsOf(s.fields, lowered) && kept[i].id < s.next
      ensures Lower(kept[i].entry.name) == kept[i].entry.name
    {
      assert kept[i] in kept;
      var j :| 0 <= j < |s.fields| && s.fields[j] == kept[i];
      OwnId(s.fields, j, lowered);
    }
  }

  /** A field with another name does not share the deleted strings. */
  lemma OwnId(fields: seq<Slot>, j: nat, name: string)
    requires DistinctIds(fields) && j < |fields| && fields[j].entry.name != name
    ensures fields[j].id !in IdsOf(fields, name)
  {
    if fields[j].id in IdsOf(fields, name) {
      var x :| x in fields && x.entry.name == name && x.id == fields[j].id;
      var i :| 0 <= i < |fields| && fields[i] == x;
      if i < j { DistinctAt(fields, i, j); } else { DistinctAt(fields, j, i); }
    }
  }

  // ---------- Printing ----------

  /** The first freed field, or the number of fields. */
  function FirstDead(fields: seq<Slot>, freed: set<nat>): (k: nat)
    ensures k <= |fields| && AllLive(fields[..k], freed) && (k < |fields| ==> fields[k].id in freed)
  {
    if fields == [] || fields[0].id in freed then 0
    else
      var k := FirstDead(fields[1..], freed);
      assert fields[..k + 1] == [fields[0]] + fields[1..][..k];
      k + 1
  }

  /** Printing any list: the lines of the fields before the first freed one, which is a fault there,
      unless they overrun the buffer of 1 MiB before that. */
  lemma {:induction false} PrintExact(fields: seq<Slot>, freed: set<nat>, text: string)
    requires |text| < 1048576
    ensures var k := FirstDead(fields, freed);
      var all := text + HeadersText(Entries(fields[..k]));
      PrintLoop(fields, freed, text) ==
        if |all| >= 1048576 then Overrun else if k < |fields| then ReadsFreed else Printed(all)
  {
    var k := FirstDead(fields, freed);
    if k == 0 {
      assert text + HeadersText(Entries(fields[..0])) == text;
    } else {
      var longer, rest := text + HeaderText(fields[0].entry), fields[1..];
      assert Entries(fields[..k])[1..] == Entries(rest[..k - 1]);
      assert text + HeadersText(Entries(fields[..k])) == longer + HeadersText(Entries(rest[..k - 1]));
      if |longer| < 1048576 {
        PrintExact(rest, freed, longer);
      }
    }
  }

  lemma PrintLive(fields: seq<Slot>, freed: set<nat>)
    requires AllLive(fields, freed)
    ensures var all := HeadersText(Entries(fields));
      PrintLoop(fields, freed, "") == if |all| < 1048576 then Printed(all) else Overrun
  {
    hide PrintLoop, HeadersText;
    PrintExact(fields, freed, "");
    assert fields[..FirstDead(fields, freed)] == fields;
    assert "" + HeadersText(Entries(fields)) == HeadersText(Entries(fields));
  }

  /** A freed field is never printed over. */
  lemma PrintDead(fields: seq<Slot>, freed: set<nat>)
    requires !AllLive(fields, freed)
    ensures !PrintLoop(fields, freed, "").Printed?
  {
    hide PrintLoop, HeadersText;
    PrintExact(fields, freed, "");
    assert fields[..|fields|] == fields;
  }

  // ---------- What a lookup means over a whole history ----------

  datatype Op = SetOp(name: string, value: string) | DeleteOp(name: string)

  /** Any sets and intended deletes, from creation. */
  function History(ops: seq<Op>): (s: Store)
    ensures Sound(s)
  {
    if ops == [] then Store([], {}, 0)
    else
      var before := History(ops[..|ops| - 1]);
      match ops[|ops| - 1]
      case SetOp(n, v) => SetKeepsSound(before, n, v); SetCalled(before, n, v)
      case DeleteOp(n) => DeleteKeepsSound(before, n); DeleteIntended(before, n).value.0
  }

  /** The values set under this name, in any letter case, and not deleted since. */
  function Surviving(ops: seq<Op>, name: string): seq<string> {
    if ops == [] then []
    else
      var before, op := Surviving(ops[..|ops| - 1], name), ops[|ops| - 1];
      if !SameLetters(op.name, name) then before
      else if op.SetOp? then before + [op.value] else []
  }

  function ValueIn(x: Slot, name: string): seq<string> {
    if x.entry.name == name then [x.entry.value] else []
  }

  /** Every stored value under a lower-case name, in order. */
  function ValuesOf(fields: seq<Slot>, name: string): seq<string> {
    if fields == [] then []
    else ValueIn(fields[0], name) + ValuesOf(fields[1..], name)
  }

  lemma {:induction false} ValuesAppend(a: seq<Slot>, x: Slot, name: string)
    ensures ValuesOf(a + [x], name) == ValuesOf(a, name) + ValueIn(x, name)
  {
    hide ValueIn;
    if a == [] {
      assert a + [x] == [x];
    } else {
      assert (a + [x])[1..] == a[1..] + [x];
      ValuesAppend(a[1..], x, name);
    }
  }

  lemma {:induction false} ValuesKept(fields: seq<Slot>, gone: string, name: string)
    ensures ValuesOf(Kept(fields, gone), name) == if gone == name then [] else ValuesOf(fields, name)
  {
    if fields != [] {
      ValuesKept(fields[1..], gone, name);
      var rest := Kept(fields[1..], gone);
      assert ([fields[0]] + rest)[1..] == rest;
    }
  }

  lemma {:induction false} FindIsFirst(fields: seq<Slot>, freed: set<nat>, name: string)
    requires AllLive(fields, freed)
    ensures Find(fields, freed, name)
         == if ValuesOf(fields, name) == [] then Missing else Found(ValuesOf(fields, name)[0])
  {
    if fields != [] {
      FindIsFirst(fields[1..], freed, name);
    }
  }

  lemma {:induction false} HistoryValues(ops: seq<Op>, name: string)
    ensures ValuesOf(History(ops).fields, Lower(name)) == Surviving(ops, name)
  {
    if ops != [] {
      var op, before := ops[|ops| - 1], History(ops[..|ops| - 1]);
      HistoryValues(ops[..|ops| - 1], name);
      LettersIff(op.name, name);
      match op
      case SetOp(n, v) => ValuesAppend(before.fields, Slot(Header(Lower(n), v), before.next), Lower(name));
      case DeleteOp(n) =>
        DeleteCompacts(before, n);
        ValuesKept(before.fields, Lower(n), Lower(name));
    }
  }

  /** After any sets and deletes, a lookup in any letter case gives the first value set under that
      name since it was last deleted, and never touches freed memory. */
  lemma GetIsFirstSurviving(ops: seq<Op>, name: string)
    ensures Find(History(ops).fields, History(ops).freed, Lower(name)) ==
      if Surviving(ops, name) == [] then Missing else Found(Surviving(ops, name)[0])
  {
    HistoryValues(ops, name);
    FindIsFirst(History(ops).fields, History(ops).freed, Lower(name));
  }

  predicate Named(h: Header, name: string) { SameLetters(h.name, name) }

  /** A lookup finds the first field whose name has the same letters, and misses if there is none. */
  lemma {:induction false} GetExact(s: Store, name: string)
    requires Sound(s)
    ensures match Find(s.fields, s.freed, Lower(name))
      case Found(v) =>
        (exists k :: 0 <= k < |s.fields| && Named(s.fields[k].entry, name) && s.fields[k].entry.value == v
                     && forall j :: 0 <= j < k ==> !Named(s.fields[j].entry, name))
      case Missing => forall k :: 0 <= k < |s.fields| ==> !Named(s.fields[k].entry, name)
      case UseAfterFree => false
  {
    forall k | 0 <= k < |s.fields|
      ensures Named(s.fields[k].entry, name) <==> s.fields[k].entry.name == Lower(name)
    {
      LettersIff(s.fields[k].entry.name, name);
    }
    hide Named, SameLetters, Lower;
    FindFirst(s.fields, s.freed, Lower(name));
  }

  lemma {:induction false} FindFirst(fields: seq<Slot>, freed: set<nat>, name: string)
    requires AllLive(fields, freed)
    ensures match Find(fields, freed, name)
      case Found(v) =>
        (exists k :: 0 <= k < |fields| && fields[k].entry.name == name && fields[k].entry.value == v
                     && forall j :: 0 <= j < k ==> fields[j].entry.name != name)
      case Missing => forall k :: 0 <= k < |fields| ==> fields[k].entry.name != name
      case UseAfterFree => false
  {
    if fields != [] && fields[0].entry.name != name {
      var rest := fields[1..];
      FindFirst(rest, freed, name);
      assert forall j :: 0 < j < |fields| ==> fields[j] == rest[j - 1];
      if Find(rest, freed, name).Found? {
        var k :| 0 <= k < |rest| && rest[k].entry.name == name && rest[k].entry.value == Find(rest, freed, name).value
          && forall j :: 0 <= j < k ==> rest[j].entry.name != name;
        assert fields[k + 1].entry.name == name;
      }
    }
  }

  /** The intended delete makes its name miss, in any letter case, and no other lookup changes. */
  lemma {:induction false} DeleteThenGet(s: Store, name: string, other: string)
    requires Sound(s)
    ensures DeleteIntended(s, name).Some?
    ensures var after := DeleteIntended(s, name).value.0;
      Find(after.fields, after.freed, Lower(other)) ==
      if SameLetters(other, name) then Missing else Find(s.fields, s.freed, Lower(other))
  {
    LettersIff(other, name);
    DeleteKeepsSound(s, name);
    DeleteCompacts(s, name);
    var after := DeleteIntended(s, name).value.0;
    ValuesKept(s.fields, Lower(name), Lower(other));
    FindIsFirst(after.fields, after.freed, Lower(other));
    FindIsFirst(s.fields, s.freed, Lower(other));
  }

  // ---------- headers_delete as written, seen by lookups only ----------

  ghost predicate LookupsAgree(a: Store, b: Store) {
    forall n :: Find(a.fields, a.freed, n) == Find(b.fields, b.freed, n)
  }

  /** The slots that keep their old contents. */
  function StaleTail(fields: seq<Slot>, name: string): seq<Slot> {
    fields[|Kept(fields, name)|..]
  }

  lemma {:induction false} FindSkips(a: seq<Slot>, b: seq<Slot>, freed: set<nat>, name: string)
    requires AllLive(a, freed) && !Stores(a, name)
    ensures Find(a + b, freed, name) == Find(b, freed, name)
  {
    if a == [] {
      assert a + b == b;
    } else {
      assert a[0].entry.name != name;
      assert (a + b)[1..] == a[1..] + b;
      forall i | 0 <= i < |a[1..]| ensures a[1..][i].entry.name != name { assert a[1..][i] == a[i + 1]; }
      FindSkips(a[1..], b, freed, name);
    }
  }

  lemma {:induction false} FindStops(a: seq<Slot>, b: seq<Slot>, freed: set<nat>, name: string)
    requires AllLive(a, freed) && Stores(a, name)
    ensures Find(a + b, freed, name) == Find(a, freed, name)
    ensures Find(a, freed, name).Found?
  {
    assert (a + b)[1..] == a[1..] + b;
    if a[0].entry.name != name {
      var i :| 0 <= i < |a| && a[i].entry.name == name;
      assert a[1..][i - 1].entry.name == name;
      FindStops(a[1..], b, freed, name);
    }
  }

  lemma {:induction false} KeptAll(fields: seq<Slot>, name: string)
    requires !Stores(fields, name)
    ensures Kept(fields, name) == fields
  {
    if fields != [] {
      assert fields[0].entry.name != name;
      forall i | 0 <= i < |fields[1..]| ensures fields[1..][i].entry.name != name { assert fields[1..][i] == fields[i + 1]; }
      KeptAll(fields[1..], name);
    }
  }

  /** After the delete the kept fields are live and do not store the name. */
  lemma KeptLive(s: Store, name: string)
    requires Sound(s)
    ensures AllLive(Kept(s.fields, name), s.freed + IdsOf(s.fields, name)) && !Stores(Kept(s.fields, name), name)
    ensures forall i :: 0 <= i < |s.fields| ==>
      (s.fields[i].id in s.freed + IdsOf(s.fields, name) <==> s.fields[i].entry.name == name)
  {
    var kept := Kept(s.fields, name);
    KeptMembers(s.fields, name);
    hide Kept;
    forall i | 0 <= i < |s.fields| && s.fields[i].entry.name != name
      ensures s.fields[i].id !in IdsOf(s.fields, name)
    {
      OwnId(s.fields, i, name);
    }
    forall i | 0 <= i < |kept|
      ensures kept[i].id !in s.freed + IdsOf(s.fields, name) && kept[i].entry.name != name
    {
      assert kept[i] in kept;
      var j :| 0 <= j < |s.fields| && s.fields[j] == kept[i];
    }
  }

  /** A tail without the deleted name only repeats kept fields, so lookups cannot tell. */
  lemma HarmlessTail(s: Store, name: string, n: string)
    requires Sound(s) && !Stores(StaleTail(s.fields, name), name)
    ensures Find(Compacted(s.fields, name), s.freed + IdsOf(s.fields, name), n)
         == Find(Kept(s.fields, name), s.freed + IdsOf(s.fields, name), n)
  {
    var kept, tail, freed := Kept(s.fields, name), StaleTail(s.fields, name), s.freed + IdsOf(s.fields, name);
    KeptLive(s, name);
    KeptMembers(s.fields, name);
    if Stores(kept, n) {
      FindStops(kept, tail, freed, n);
    } else {
      forall i | 0 <= i < |tail| ensures tail[i].entry.name != n && tail[i].id !in freed {
        assert tail[i] == s.fields[|kept| + i] && tail[i].entry.name != name;
        assert tail[i] in kept;
      }
      FindSkips(kept, tail, freed, n);
      FindSkips(tail, [], freed, n);
      FindSkips(kept, [], freed, n);
      assert tail + [] == tail && kept + [] == kept;
    }
  }

  lemma {:induction false} FreedIsHit(fields: seq<Slot>, freed: set<nat>, name: string)
    requires forall i :: 0 <= i < |fields| ==> (fields[i].id in freed <==> fields[i].entry.name == name)
    requires Stores(fields, name)
    ensures Find(fields, freed, name) == UseAfterFree
  {
    if fields[0].entry.name != name {
      var i :| 0 <= i < |fields| && fields[i].entry.name == name;
      assert fields[1..][i - 1].entry.name == name;
      FreedIsHit(fields[1..], freed, name);
    }
  }

  /** With a deleted field left in the tail, looking its name up reads freed memory. */
  lemma HarmfulTail(s: Store, name: string)
    requires Sound(s) && Stores(StaleTail(s.fields, name), name)
    ensures Find(Compacted(s.fields, name), s.freed + IdsOf(s.fields, name), name) == UseAfterFree
    ensures Find(Kept(s.fields, name), s.freed + IdsOf(s.fields, name), name) == Missing
  {
    var kept, tail, freed := Kept(s.fields, name), StaleTail(s.fields, name), s.freed + IdsOf(s.fields, name);
    KeptLive(s, name);
    forall i | 0 <= i < |tail| ensures tail[i].id in freed <==> tail[i].entry.name == name {
      assert tail[i] == s.fields[|kept| + i];
    }
    FindSkips(kept, tail, freed, name);
    FreedIsHit(tail, freed, name);
    FindSkips(kept, [], freed, name);
    assert kept + [] == kept;
  }

  /** Checkable before the call: a name with capitals must not be stored at all, and no field to
      be deleted may sit in the slots that stay behind the kept ones. */
  predicate LookupsHarmless(fields: seq<Slot>, name: string) {
    if NoCapital(name) then !Stores(StaleTail(fields, name), name) else !StoresNamed(fields, name)
  }

  /** The name is stored, in some letter case. */
  predicate StoresNamed(fields: seq<Slot>, name: string) {
    exists i :: 0 <= i < |fields| && Named(fields[i].entry, name)
  }

  lemma StoredName(s: Store, name: string)
    requires Sound(s)
    ensures StoresNamed(s.fields, name) <==> Stores(s.fields, Lower(name))
    ensures NoCapital(name) <==> Lower(name) == name
  {
    forall i | 0 <= i < |s.fields|
      ensures Named(s.fields[i].entry, name) <==> s.fields[i].entry.name == Lower(name)
    {
      LettersIff(s.fields[i].entry.name, name);
    }
    LowerExact(name);
    CaseKept(name);
    hide Named, SameLetters, Lower, NoCapital;
  }

  /** Exactly when lookups, taken alone, cannot tell the delete as written from the intended one. */
  lemma WrittenDeleteLookupsIff(s: Store, name: string)
    requires Sound(s)
    ensures DeleteWritten(s, name).Some? && DeleteIntended(s, name).Some?
    ensures LookupsAgree(DeleteWritten(s, name).value.0, DeleteIntended(s, name).value.0)
       <==> LookupsHarmless(s.fields, name)
  {
    DeleteCompacts(s, name);
    StoredName(s, name);
    hide DeleteWritten, DeleteIntended, NoCapital, StoresNamed, Lower;
    if Lower(name) != name {
      CapitalsDeleteNothing(s, name);
      if Stores(s.fields, Lower(name)) {
        CapitalsNoticed(s, name);
      } else {
        NothingStored(s, name);
      }
    } else if LookupsHarmless(s.fields, name) {
      var w, m := DeleteWritten(s, name).value.0, DeleteIntended(s, name).value.0;
      forall n ensures Find(w.fields, w.freed, n) == Find(m.fields, m.freed, n) {
        HarmlessTail(s, name, n);
      }
    } else {
      HarmfulTail(s, name);
    }
  }

  // ---------- headers_delete as written, seen by any later use ----------

  datatype Call =
    | GetCall(name: string)
    | PrintCall
    | SetCall(name: string, value: string)
    | DeleteCall(name: string)
    | DestroyCall

  datatype Answer = Looked(found: Lookup) | Shown(printed: Printed) | Stored | Removed(n: nat) | Destroyed | Crashed

  /** One later call, as the code has it. After a fault or the destruction nothing is left. */
  function Answered(s: Store, c: Call): (Option<Store>, Answer) {
    match c
    case GetCall(n) =>
      var r := Find(s.fields, s.freed, Lower(n));
      if r == UseAfterFree then (None, Crashed) else (Some(s), Looked(r))
    case PrintCall =>
      var r := PrintLoop(s.fields, s.freed, "");
      if r == ReadsFreed then (None, Crashed) else (Some(s), Shown(r))
    case SetCall(n, v) => (Some(SetCalled(s, n, v)), Stored)
    case DeleteCall(n) =>
      (match DeleteWritten(s, n)
       case None => (None, Crashed)
       case Some((s', k)) => (Some(s'), Removed(k)))
    case DestroyCall => (None, if DestroyLoop(s.fields, s.freed) then Destroyed else Crashed)
  }

  /** The answers to a whole program of calls. */
  function Answers(s: Store, calls: seq<Call>): seq<Answer>
    decreases |calls|
  {
    if calls == [] then []
    else
      var (s', a) := Answered(s, calls[0]);
      match s'
      case None => [a]
      case Some(t) => [a] + Answers(t, calls[1..])
  }

  predicate SameAnswers(a: Store, b: Store, calls: seq<Call>) {
    Answers(a, calls) == Answers(b, calls)
  }

  /** No program of lookups, prints, sets, deletes and the final destroy can tell two stores apart. */
  ghost predicate Indistinguishable(a: Store, b: Store) {
    forall calls :: SameAnswers(a, b, calls)
  }

  lemma AbsentName(s: Store, name: string)
    requires !Stores(s.fields, name)
    ensures Compacted(s.fields, name) == s.fields == Kept(s.fields, name)
    ensures s.freed + IdsOf(s.fields, name) == s.freed
  {
    KeptAll(s.fields, name);
    assert IdsOf(s.fields, name) == {};
  }

  /** Stored names have no capitals. */
  lemma CapitalsAbsent(s: Store, name: string)
    requires Sound(s) && Lower(name) != name
    ensures !Stores(s.fields, name)
  {
  }

  /** Without the name nothing happens, in either form. */
  lemma NothingStored(s: Store, name: string)
    requires Sound(s) && !Stores(s.fields, Lower(name))
    ensures DeleteWritten(s, name) == DeleteIntended(s, name) == Some((s, 0))
  {
    hide *;
    DeleteCompacts(s, name);
    if Lower(name) != name {
      CapitalsAbsent(s, name);
    }
    AbsentName(s, name);
    AbsentName(s, Lower(name));
  }

  /** A name with capitals deletes nothing. */
  lemma CapitalsDeleteNothing(s: Store, name: string)
    requires Sound(s) && Lower(name) != name
    ensures DeleteWritten(s, name) == Some((s, 0))
  {
    hide *;
    DeleteCompacts(s, name);
    CapitalsAbsent(s, name);
    AbsentName(s, name);
  }

  lemma CapitalsNoticed(s: Store, name: string)
    requires Sound(s) && Stores(s.fields, Lower(name)) && DeleteIntended(s, name).Some?
    ensures Find(s.fields, s.freed, Lower(name)).Found?
    ensures var m := DeleteIntended(s, name).value.0; Find(m.fields, m.freed, Lower(name)) == Missing
  {
    FindStops(s.fields, [], s.freed, Lower(name));
    DeleteThenGet(s, name, name);
  }

  /** Destroying any list frees nothing twice if and only if no string is freed before and none is
      shared. */
  lemma {:induction false} DestroyIff(fields: seq<Slot>, freed: set<nat>)
    ensures DestroyLoop(fields, freed) <==> DistinctIds(fields) && AllLive(fields, freed)
  {
    if fields != [] {
      var rest, more := fields[1..], freed + {fields[0].id};
      DestroyIff(rest, more);
      assert forall j :: 0 < j < |fields| ==> fields[j] == rest[j - 1];
      if AllLive(rest, more) {
        forall x | x in rest ensures x.id != fields[0].id {
          var i :| 0 <= i < |rest| && rest[i] == x;
        }
      } else if AllLive(fields, freed) {
        var i :| 0 <= i < |rest| && rest[i].id in more;
        assert rest[i] in rest && rest[i] == fields[i + 1];
      }
    }
  }

  /** A slot is left over after every real deletion, and its strings are freed already or shared
      with a kept field: destroying the list frees them twice. */
  lemma LeftoverFreedTwice(s: Store, name: string)
    requires Sound(s) && Stores(s.fields, name)
    ensures !DestroyLoop(Compacted(s.fields, name), s.freed + IdsOf(s.fields, name))
  {
    var kept, all, freed := Kept(s.fields, name), Compacted(s.fields, name), s.freed + IdsOf(s.fields, name);
    KeptMembers(s.fields, name);
    KeptShorter(s.fields, name);
    DestroyIff(all, freed);
    var x := s.fields[|kept|];
    assert x in s.fields && all[|kept|] == x;
    hide Kept;
    if x.entry.name != name {
      var i :| 0 <= i < |kept| && kept[i] == x;
      assert all[i] == x;
      if DistinctIds(all) {
        DistinctAt(all, i, |kept|);
      }
    }
  }

  lemma {:induction false} KeptShorter(fields: seq<Slot>, name: string)
    requires Stores(fields, name)
    ensures |Kept(fields, name)| < |fields|
  {
    if fields[0].entry.name != name {
      var i :| 0 <= i < |fields| && fields[i].entry.name == name;
      assert fields[1..][i - 1].entry.name == name;
      KeptShorter(fields[1..], name);
    }
  }

  lemma GetTells(a: Store, b: Store, name: string)
    requires Find(a.fields, a.freed, Lower(name)).Found? && Find(b.fields, b.freed, Lower(name)) == Missing
    ensures !Indistinguishable(a, b)
  {
    var calls := [GetCall(name)];
    hide Find;
    assert Answers(a, calls)[0] != Answers(b, calls)[0];
    assert !SameAnswers(a, b, calls);
  }

  lemma DestroyTells(a: Store, b: Store)
    requires !DestroyLoop(a.fields, a.freed) && DestroyLoop(b.fields, b.freed)
    ensures !Indistinguishable(a, b)
  {
    var calls := [DestroyCall];
    hide DestroyLoop;
    assert Answers(a, calls) == [Crashed] && Answers(b, calls) == [Destroyed];
    assert !SameAnswers(a, b, calls);
  }

  /** Exactly when the delete as written passes for the intended one in every later use: when there
      is nothing to delete. */
  lemma WrittenDeleteIff(s: Store, name: string)
    requires Sound(s)
    ensures DeleteWritten(s, name).Some? && DeleteIntended(s, name).Some?
    ensures Indistinguishable(DeleteWritten(s, name).value.0, DeleteIntended(s, name).value.0)
       <==> !StoresNamed(s.fields, name)
  {
    StoredName(s, name);
    DeleteCompacts(s, name);
    var w, m := DeleteWritten(s, name).value.0, DeleteIntended(s, name).value.0;
    if !Stores(s.fields, Lower(name)) {
      NothingStored(s, name);
      hide Answers;
    } else if Lower(name) != name {
      CapitalsDeleteNothing(s, name);
      CapitalsNoticed(s, name);
      hide *;
      GetTells(w, m, name);
    } else {
      LeftoverFreedTwice(s, name);
      DeleteKeepsSound(s, name);
      DestroyIff(m.fields, m.freed);
      hide *;
      DestroyTells(w, m);
    }
  }

  /** A second delete can hit the strings that the first one left shared: after setting a and b,
      deleting a prints b twice, and deleting b then compares with a name freed one slot earlier. */
  lemma SecondDeleteFaults(a: string, b: string, v: string)
    requires NoCapital(a) && NoCapital(b) && a != b
    ensures var s := SetCalled(SetCalled(Store([], {}, 0), a, v), b, v);
      var shared := Slot(Header(b, v), 1);
      && DeleteWritten(s, a) == Some((Store([shared, shared], {0}, 2), 1))
      && DeleteWritten(Store([shared, shared], {0}, 2), b) == None
  {
    var x, y := Slot(Header(a, v), 0), Slot(Header(b, v), 1);
    CaseKept(a);
    CaseKept(b);
    assert SetCalled(SetCalled(Store([], {}, 0), a, v), b, v).fields == [x, y];
    DeleteLoopTwice(x, y, a);
    SharedDeleted(y, {0});
  }

  lemma DeleteLoopTwice(x: Slot, y: Slot, name: string)
    requires x.id != y.id && x.entry.name == name && y.entry.name != name
    ensures DeleteLoop([x, y], {}, name, 0, 0) == Some(([y, y], {x.id}, 1))
  {
    assert {} + {x.id} == {x.id};
    assert [x, y][0 := y] == [y, y];
    assert DeleteLoop([y, y], {x.id}, name, 2, 1) == Some(([y, y], {x.id}, 1));
    assert DeleteLoop([x, y], {x.id}, name, 1, 1) == Some(([y, y], {x.id}, 1));
  }

  lemma SharedDeleted(y: Slot, freed: set<nat>)
    ensures DeleteLoop([y, y], freed, y.entry.name, 0, 0) == None
  {
    assert DeleteLoop([y, y], freed + {y.id}, y.entry.name, 1, 1) == None;
  }
}
