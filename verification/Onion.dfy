/** Layered messages: each hop of a chain of address book entries adds a header and encrypts,
    and a key book decrypts and strips headers until a plain message is left to deliver. */
module Onion {
  import opened Common
  import opened Wire
  import Framing

  const MESSAGE := 1
  const RECURSIVE := 2

  type Magic = m: nat | m < Pow256(8) witness Zero()

  function Zero(): (z: nat)
    ensures z < Pow256(8)
  {
    0
  }

  type Pad = p: seq<Byte> | Framing.IsHeadPad(p) witness [0]

  datatype Entry = Entry(key: string, first: string, header: string, magic: Magic)

  /** readable: the description names a command for delivering messages. */
  datatype Description = Description(key: string, magic: Magic, readable: bool)

  datatype Named = Named(name: string, description: Description)

  datatype Opened = Opened(message: seq<Byte>, keyName: string)

  /** What is outside the program: random pads, the encryption, where a number picks the
      randomness of one use, and the command that takes a delivered message. */
  datatype World = World(
    pad: nat -> Pad,
    encrypt: (string, nat, seq<Byte>) -> Option<seq<Byte>>,
    decrypt: (Description, seq<Byte>) -> Option<Opened>,
    shell: (Description, seq<Byte>) -> bool)

  // ---- Wrapping ----

  function AddHeader(pad: Pad, magic: Magic, data: seq<Byte>, kind: nat): seq<Byte> {
    pad + BigEndian(magic, 8) + BigEndian(kind, 4) + data
  }

  predicate AddsHeader(e: Entry) {
    e.header == "mt" || e.header == ""
  }

  /** The header, if the entry adds one, and the encryption; the empty text stands for failure. */
  function Seal(w: World, e: Entry, data: seq<Byte>, n: nat, kind: nat): seq<Byte> {
    var plain := if AddsHeader(e) then AddHeader(w.pad(n), e.magic, data, kind) else data;
    match w.encrypt(e.key, n, plain)
    case Some(c) => c
    case None => []
  }

  /** The chain of hops from e ends within n steps. A chain that never ends is never prepared. */
  ghost predicate Ends(book: map<string, Entry>, e: Entry, n: nat)
    decreases n
  {
    e.first == "" || e.first !in book || (n > 0 && Ends(book, book[e.first], n - 1))
  }

  function Prepare(w: World, book: map<string, Entry>, e: Entry, data: seq<Byte>, n: nat): seq<Byte>
    requires Ends(book, e, n)
    decreases n
  {
    if e.first == "" then Seal(w, e, data, n, MESSAGE)
    else if e.first !in book then []
    else
      var inner := Prepare(w, book, book[e.first], data, n - 1);
      if inner == [] then [] else Seal(w, e, inner, n, RECURSIVE)
  }

  // ---- Unwrapping ----

  /** A group holds the descriptions that decrypt with the same key, in the order of their names. */
  type Group = seq<Named>

  function Find(g: Group, name: string): Option<Description> {
    if g == [] then None
    else if g[0].name == name then Some(g[0].description)
    else Find(g[1..], name)
  }

  function Trim(s: string): string {
    if s != [] && (s[|s| - 1] == ' ' || s[|s| - 1] == '\t' || s[|s| - 1] == '\r' || s[|s| - 1] == '\n')
    then Trim(s[..|s| - 1])
    else s
  }

  datatype Stripped = Stripped(kind: nat, data: seq<Byte>)

  /** The message behind the pad, the magic number and the type, if all are there and the magic
      number is the description's own. */
  function Strip(d: Description, m: seq<Byte>): Option<Stripped> {
    var offset := if m == [] then 0 else m[0] % 8;
    if !d.readable || offset + 1 >= |m| then None
    else
      var body := m[offset + 1..];
      if |body| <= 12 || FromBigEndian(body[..8]) != d.magic then None
      else Some(Stripped(FromBigEndian(body[8..12]), body[12..]))
  }

  datatype Delivery = Delivery(to: Description, data: seq<Byte>)

  /** The answer and everything delivered on the way to it; Endless when messages are nested
      deeper than the given depth. */
  datatype Outcome = Done(ok: bool, delivered: seq<Delivery>) | Endless

  function ProcessMessage(w: World, kb: seq<Group>, d: Description, m: seq<Byte>, depth: nat): Outcome
    decreases depth, 0
  {
    match Strip(d, m)
    case None => Done(false, [])
    case Some(Stripped(kind, data)) =>
      if kind == MESSAGE then Done(w.shell(d, data), [Delivery(d, data)])
      else if kind == RECURSIVE then
        if depth == 0 then Endless else ProcessData(w, kb, 0, data, depth - 1)
      else Done(false, [])
  }

  function ProcessGroup(w: World, kb: seq<Group>, g: Group, data: seq<Byte>, depth: nat): Outcome
    decreases depth, 1
  {
    if g == [] then Done(false, [])
    else
      match w.decrypt(g[0].description, data)
      case None => Done(false, [])
      case Some(plain) =>
        match Find(g, Trim(plain.keyName))
        case None => Done(false, [])
        case Some(d) => ProcessMessage(w, kb, d, plain.message, depth)
  }

  /** The groups from the i-th on, until one of them succeeds. */
  function ProcessData(w: World, kb: seq<Group>, i: nat, data: seq<Byte>, depth: nat): Outcome
    requires i <= |kb|
    decreases depth, 2, |kb| - i
  {
    if i == |kb| then Done(false, [])
    else
      var r := ProcessGroup(w, kb, kb[i], data, depth);
      if r.Endless? || r.ok then r else Preceded(r.delivered, ProcessData(w, kb, i + 1, data, depth))
  }

  function Preceded(before: seq<Delivery>, r: Outcome): Outcome {
    if r.Endless? then r else Done(r.ok, before + r.delivered)
  }

  // ---- The key book as a program ----

  /** Walks its groups; what is delivered is handed to the shell in order. */
  class KeyBook {
    const w: World
    const groups: seq<Group>
    var delivered: seq<Delivery>

    constructor (w: World, groups: seq<Group>)
      ensures this.w == w && this.groups == groups && delivered == []
    {
      this.w, this.groups, delivered := w, groups, [];
    }

    method Message(d: Description, m: seq<Byte>, ghost depth: nat) returns (ok: bool)
      requires ProcessMessage(w, groups, d, m, depth).Done?
      modifies this
      ensures var r := ProcessMessage(w, groups, d, m, depth);
              ok == r.ok && delivered == old(delivered) + r.delivered
      decreases depth, 0
    {
      if !d.readable {
        return false;
      }
      var offset := if |m| == 0 then 0 else m[0] % 8;
      if offset + 1 >= |m| {
        return false;
      }
      var body := m[offset + 1..];
      if |body| <= 12 {
        return false;
      }
      var magic := GetUint(body, 0, 8);
      var kind := GetUint(body, 8, 4);
      if magic != d.magic {
        return false;
      }
      if kind == RECURSIVE {
        ok := Data(body[12..], depth - 1);
      } else if kind == MESSAGE {
        ok := w.shell(d, body[12..]);
        delivered := delivered + [Delivery(d, body[12..])];
      } else {
        ok := false;
      }
    }

    method Data(data: seq<Byte>, ghost depth: nat) returns (ok: bool)
      requires ProcessData(w, groups, 0, data, depth).Done?
      modifies this
      ensures var r := ProcessData(w, groups, 0, data, depth);
              ok == r.ok && delivered == old(delivered) + r.delivered
      decreases depth, 2
    {
      var i := 0;
      while i < |groups|
        invariant 0 <= i <= |groups| && ProcessData(w, groups, i, data, depth).Done?
        invariant ProcessData(w, groups, 0, data, depth).ok == ProcessData(w, groups, i, data, depth).ok
        invariant delivered + ProcessData(w, groups, i, data, depth).delivered ==
          old(delivered) + ProcessData(w, groups, 0, data, depth).delivered
      {
        var done := InGroup(groups[i], data, depth);
        if done {
          return true;
        }
        i := i + 1;
      }
      ok := false;
    }

    method InGroup(g: Group, data: seq<Byte>, ghost depth: nat) returns (ok: bool)
      requires ProcessGroup(w, groups, g, data, depth).Done?
      modifies this
      ensures var r := ProcessGroup(w, groups, g, data, depth);
              ok == r.ok && delivered == old(delivered) + r.delivered
      decreases depth, 1
    {
      if |g| == 0 {
        return false;
      }
      var plain := w.decrypt(g[0].description, data);
      if plain.None? {
        return false;
      }
      var d := Find(g, Trim(plain.value.keyName));
      if d.None? {
        return false;
      }
      ok := Message(d.value, plain.value.message, depth);
    }
  }

  // ---- What is delivered ----

  // A description strips off exactly the header an entry adds, unless the magic numbers differ
  // or it has no command.
  lemma StripUndoesAddHeader(d: Description, pad: Pad, magic: Magic, data: seq<Byte>, kind: nat)
    requires data != [] && kind < Pow256(4)
    ensures Strip(d, AddHeader(pad, magic, data, kind)) ==
      if d.readable && d.magic == magic then Some(Stripped(kind, data)) else None
  {
    var m := AddHeader(pad, magic, data, kind);
    assert m[0] == pad[0];
    var body := m[|pad|..];
    assert body == BigEndian(magic, 8) + BigEndian(kind, 4) + data;
    assert body[..8] == BigEndian(magic, 8) && body[8..12] == BigEndian(kind, 4) && body[12..] == data;
    BigEndianRoundTrip(magic, 8);
    BigEndianRoundTrip(kind, 4);
  }

  /** Who can read what is encrypted with a key: a group of the key book and a description in it. */
  datatype Owner = Owner(group: nat, description: Description)

  /** The owner's group opens what was encrypted with the key and names the owner's description;
      no other group opens it. */
  ghost predicate Owned(w: World, kb: seq<Group>, key: string, o: Owner) {
    && o.group < |kb| && kb[o.group] != []
    && (forall n, m, c :: Encrypts(w, key, n, m, c) ==> Opens(w, kb[o.group], c, m, o.description))
    && (forall h, n, m, c :: 0 <= h < |kb| && h != o.group && Encrypts(w, key, n, m, c) ==> Refuses(w, kb[h], c))
  }

  ghost predicate Encrypts(w: World, key: string, n: nat, m: seq<Byte>, c: seq<Byte>) {
    w.encrypt(key, n, m) == Some(c)
  }

  ghost predicate Refuses(w: World, g: Group, c: seq<Byte>) {
    g != [] ==> w.decrypt(g[0].description, c).None?
  }

  ghost predicate Opens(w: World, g: Group, c: seq<Byte>, m: seq<Byte>, d: Description) {
    g != [] && var o := w.decrypt(g[0].description, c);
    o.Some? && o.value.message == m && Find(g, Trim(o.value.keyName)) == Some(d)
  }

  lemma {:induction false} NobodyOpens(w: World, kb: seq<Group>, i: nat, data: seq<Byte>, depth: nat)
    requires i <= |kb|
    requires forall h :: i <= h < |kb| ==> Refuses(w, kb[h], data)
    ensures ProcessData(w, kb, i, data, depth) == Done(false, [])
    decreases |kb| - i
  {
    if i < |kb| {
      NobodyOpens(w, kb, i + 1, data, depth);
    }
  }

  lemma {:induction false} OwnerAnswers(w: World, kb: seq<Group>, i: nat, g: nat, data: seq<Byte>, depth: nat)
    requires i <= g < |kb|
    requires forall h :: 0 <= h < |kb| && h != g ==> Refuses(w, kb[h], data)
    ensures ProcessData(w, kb, i, data, depth) == ProcessGroup(w, kb, kb[g], data, depth)
    decreases g - i
  {
    if i < g {
      OwnerAnswers(w, kb, i + 1, g, data, depth);
    } else {
      NobodyOpens(w, kb, i + 1, data, depth);
    }
  }

  /** What a key book answers to data. */
  ghost function Answer(w: World, kb: seq<Group>, data: seq<Byte>, depth: nat): Outcome {
    ProcessData(w, kb, 0, data, depth)
  }

  // A key book processes an encrypted message as its owner's description processes the message.
  lemma EncryptionIsUndone(w: World, kb: seq<Group>, key: string, n: nat, m: seq<Byte>, o: Owner, depth: nat)
    requires Owned(w, kb, key, o) && w.encrypt(key, n, m).Some?
    ensures Answer(w, kb, w.encrypt(key, n, m).value, depth) == ProcessMessage(w, kb, o.description, m, depth)
  {
    var c := w.encrypt(key, n, m).value;
    assert Encrypts(w, key, n, m, c) && Opens(w, kb[o.group], c, m, o.description);
    OwnerAnswers(w, kb, 0, o.group, c, depth);
  }

  /** What a description does with what is behind a header. */
  ghost function Reached(w: World, kb: seq<Group>, d: Description, data: seq<Byte>, kind: nat, depth: nat): Outcome {
    if kind == 1 then Done(w.shell(d, data), [Delivery(d, data)])
    else if kind != 2 then Done(false, [])
    else if depth == 0 then Endless else Answer(w, kb, data, depth - 1)
  }

  /** The description has a command and the entry's magic number. */
  predicate Agrees(d: Description, e: Entry) {
    d.readable && d.magic == e.magic
  }

  // One layer: what an entry sealed reaches its owner, or nobody.
  lemma LayerIsPeeled(w: World, kb: seq<Group>, e: Entry, o: Owner, data: seq<Byte>, n: nat, kind: nat, depth: nat)
    requires (e.header == "mt" || e.header == "") && Owned(w, kb, e.key, o) && data != [] && kind < Pow256(4)
    requires Seal(w, e, data, n, kind) != []
    ensures Answer(w, kb, Seal(w, e, data, n, kind), depth) ==
      if Agrees(o.description, e) then Reached(w, kb, o.description, data, kind, depth) else Done(false, [])
  {
    StripUndoesAddHeader(o.description, w.pad(n), e.magic, data, kind);
    EncryptionIsUndone(w, kb, e.key, n, AddHeader(w.pad(n), e.magic, data, kind), o, depth);
  }

  // ---- Chains of hops ----

  /** An address book, a key book, and who of the key book owns which key. */
  datatype Net = Net(w: World, book: map<string, Entry>, kb: seq<Group>, own: map<string, Owner>)
  {
    ghost predicate Sound() {
      forall key :: key in own ==> Owned(w, kb, key, own[key])
    }
  }

  /** Every hop adds a header and its key has an owner in the key book. */
  ghost predicate Routed(t: Net, e: Entry, n: nat)
    requires Ends(t.book, e, n)
    decreases n
  {
    && (e.header == "mt" || e.header == "")
    && e.key in t.own
    && (e.first != "" && e.first in t.book ==> Routed(t, t.book[e.first], n - 1))
  }

  /** Every hop's owner has a command and the same magic number as the hop. */
  ghost predicate Agreed(t: Net, e: Entry, n: nat)
    requires Ends(t.book, e, n) && Routed(t, e, n)
    decreases n
  {
    Agrees(t.own[e.key].description, e) && (e.first != "" && e.first in t.book ==> Agreed(t, t.book[e.first], n - 1))
  }

  /** The entry at the end of the chain. */
  ghost function Bottom(book: map<string, Entry>, e: Entry, n: nat): (bottom: Entry)
    requires Ends(book, e, n)
    decreases n
  {
    if e.first == "" || e.first !in book then e else Bottom(book, book[e.first], n - 1)
  }

  /** What becomes of a message, hop by hop. */
  ghost function Fate(t: Net, e: Entry, data: seq<Byte>, n: nat): Outcome
    requires Ends(t.book, e, n) && Routed(t, e, n)
    decreases n
  {
    var d := t.own[e.key].description;
    if !Agrees(d, e) then Done(false, [])
    else if e.first == "" || e.first !in t.book then Done(t.w.shell(d, data), [Delivery(d, data)])
    else Fate(t, t.book[e.first], data, n - 1)
  }

  lemma {:induction false} FateIs(t: Net, e: Entry, data: seq<Byte>, n: nat)
    requires Ends(t.book, e, n) && Routed(t, e, n)
    ensures Bottom(t.book, e, n).key in t.own
    ensures var to := t.own[Bottom(t.book, e, n).key].description;
            Fate(t, e, data, n) ==
            if Agreed(t, e, n) then Done(t.w.shell(to, data), [Delivery(to, data)]) else Done(false, [])
    decreases n
  {
    if e.first != "" && e.first in t.book {
      FateIs(t, t.book[e.first], data, n - 1);
    }
  }

  /** What is prepared for an entry. */
  ghost function Prepared(t: Net, e: Entry, data: seq<Byte>, n: nat): seq<Byte>
    requires Ends(t.book, e, n)
  {
    Prepare(t.w, t.book, e, data, n)
  }

  lemma PreparedBottom(t: Net, e: Entry, data: seq<Byte>, n: nat)
    requires Ends(t.book, e, n) && e.first == ""
    ensures Prepared(t, e, data, n) == Seal(t.w, e, data, n, MESSAGE)
  {
  }

  lemma PreparedHop(t: Net, e: Entry, data: seq<Byte>, n: nat)
    requires Ends(t.book, e, n) && e.first != "" && Prepared(t, e, data, n) != []
    ensures e.first in t.book && n > 0
    ensures var inner := Prepared(t, t.book[e.first], data, n - 1);
            inner != [] && Prepared(t, e, data, n) == Seal(t.w, e, inner, n, RECURSIVE)
  {
  }

  /** The law of one layer, for anything that answers to data. */
  ghost predicate Peels(t: Net, answer: (seq<Byte>, nat) -> Outcome) {
    forall e, data, n, kind, depth :: Sealed(t, e, data, n, kind) ==>
      answer(Seal(t.w, e, data, n, kind), depth) == Peeled(t, answer, e, data, kind, depth)
  }

  ghost predicate Sealed(t: Net, e: Entry, data: seq<Byte>, n: nat, kind: nat) {
    && (e.header == "mt" || e.header == "") && e.key in t.own && data != [] && (kind == MESSAGE || kind == RECURSIVE)
    && Seal(t.w, e, data, n, kind) != []
  }

  ghost function Peeled(
      t: Net, answer: (seq<Byte>, nat) -> Outcome, e: Entry, data: seq<Byte>, kind: nat, depth: nat): Outcome
    requires e.key in t.own
  {
    var d := t.own[e.key].description;
    if !Agrees(d, e) then Done(false, [])
    else if kind == MESSAGE then Done(t.w.shell(d, data), [Delivery(d, data)])
    else if depth == 0 then Endless else answer(data, depth - 1)
  }

  ghost function Answers(t: Net): (seq<Byte>, nat) -> Outcome {
    (data: seq<Byte>, depth: nat) => Answer(t.w, t.kb, data, depth)
  }

  lemma KeyBookPeels(t: Net)
    requires t.Sound()
    ensures Peels(t, Answers(t))
  {
    forall e, data, n, kind, depth | Sealed(t, e, data, n, kind)
      ensures Answers(t)(Seal(t.w, e, data, n, kind), depth) == Peeled(t, Answers(t), e, data, kind, depth)
    {
      LayerIsPeeled(t.w, t.kb, e, t.own[e.key], data, n, kind, depth);
    }
  }

  lemma {:induction false} FateIsMet(
      t: Net, answer: (seq<Byte>, nat) -> Outcome, e: Entry, data: seq<Byte>, n: nat, depth: nat)
    requires Ends(t.book, e, n) && data != [] && n <= depth && Routed(t, e, n) && Peels(t, answer)
    requires Prepared(t, e, data, n) != []
    ensures answer(Prepared(t, e, data, n), depth) == Fate(t, e, data, n)
    decreases n
  {
    if e.first == "" {
      PreparedBottom(t, e, data, n);
      assert Sealed(t, e, data, n, MESSAGE);
    } else {
      PreparedHop(t, e, data, n);
      var next := t.book[e.first];
      assert Sealed(t, e, Prepared(t, next, data, n - 1), n, RECURSIVE);
      FateIsMet(t, answer, next, data, n - 1, depth - 1);
    }
  }

  // What was prepared is peeled layer by layer and delivered once, to the last hop's owner, if
  // every owner agrees with its hop, and otherwise nothing is delivered at all.
  lemma OnionIsDelivered(t: Net, e: Entry, data: seq<Byte>, n: nat, depth: nat)
    requires Ends(t.book, e, n) && data != [] && n <= depth && Routed(t, e, n) && t.Sound()
    requires Prepared(t, e, data, n) != []
    ensures Bottom(t.book, e, n).key in t.own
    ensures var to := t.own[Bottom(t.book, e, n).key].description;
            Answer(t.w, t.kb, Prepared(t, e, data, n), depth) ==
            if Agreed(t, e, n) then Done(t.w.shell(to, data), [Delivery(to, data)]) else Done(false, [])
  {
    FateIs(t, e, data, n);
    KeyBookPeels(t);
    FateIsMet(t, Answers(t), e, data, n, depth);
    assert Answers(t)(Prepared(t, e, data, n), depth) == Answer(t.w, t.kb, Prepared(t, e, data, n), depth);
  }

  /** The number of hops behind the first. */
  ghost function Hops(book: map<string, Entry>, e: Entry, n: nat): nat
    requires Ends(book, e, n)
    decreases n
  {
    if e.first == "" || e.first !in book then 0 else 1 + Hops(book, book[e.first], n - 1)
  }

  lemma {:induction false} EndlessBeforeTheBottom(
      t: Net, answer: (seq<Byte>, nat) -> Outcome, e: Entry, data: seq<Byte>, n: nat, depth: nat)
    requires Ends(t.book, e, n) && data != [] && Routed(t, e, n) && Agreed(t, e, n) && Peels(t, answer)
    requires Prepared(t, e, data, n) != []
    ensures answer(Prepared(t, e, data, n), depth).Endless? <==> depth < Hops(t.book, e, n)
    decreases n
  {
    if e.first == "" {
      PreparedBottom(t, e, data, n);
      assert Sealed(t, e, data, n, MESSAGE);
    } else {
      PreparedHop(t, e, data, n);
      var next := t.book[e.first];
      assert Sealed(t, e, Prepared(t, next, data, n - 1), n, RECURSIVE);
      if depth > 0 {
        EndlessBeforeTheBottom(t, answer, next, data, n - 1, depth - 1);
      }
    }
  }

  // Exactly as many layers are peeled as were added: a key book that goes less deep never gets
  // to the bottom.
  lemma EveryLayerIsPeeled(t: Net, e: Entry, data: seq<Byte>, n: nat, depth: nat)
    requires Ends(t.book, e, n) && data != [] && Routed(t, e, n) && Agreed(t, e, n) && t.Sound()
    requires Prepared(t, e, data, n) != []
    ensures Answer(t.w, t.kb, Prepared(t, e, data, n), depth).Endless? <==> depth < Hops(t.book, e, n)
  {
    KeyBookPeels(t);
    EndlessBeforeTheBottom(t, Answers(t), e, data, n, depth);
    assert Answers(t)(Prepared(t, e, data, n), depth) == Answer(t.w, t.kb, Prepared(t, e, data, n), depth);
  }

  // Preparing fails, and gives the empty text, when a hop is missing from the address book.
  lemma {:induction false} MissingHopPreparesNothing(
      w: World, book: map<string, Entry>, e: Entry, data: seq<Byte>, n: nat)
    requires Ends(book, e, n)
    ensures Prepare(w, book, e, data, n) != [] ==> Bottom(book, e, n).first == ""
    decreases n
  {
    if e.first != "" && e.first in book {
      MissingHopPreparesNothing(w, book, book[e.first], data, n - 1);
    }
  }

  lemma EmptyLayerIsRefused(w: World, kb: seq<Group>, o: Owner, e: Entry, n: nat, depth: nat)
    requires (e.header == "mt" || e.header == "") && Owned(w, kb, e.key, o) && Seal(w, e, [], n, MESSAGE) != []
    ensures Answer(w, kb, Seal(w, e, [], n, MESSAGE), depth) == Done(false, [])
  {
    var m := AddHeader(w.pad(n), e.magic, [], MESSAGE);
    EncryptionIsUndone(w, kb, e.key, n, m, o, depth);
    assert m[0] == w.pad(n)[0];
  }

  /** The law of an empty last layer. */
  ghost predicate RefusesEmpty(t: Net, answer: (seq<Byte>, nat) -> Outcome) {
    forall e: Entry, n, depth ::
      (e.header == "mt" || e.header == "") && e.key in t.own && Seal(t.w, e, [], n, MESSAGE) != [] ==>
      answer(Seal(t.w, e, [], n, MESSAGE), depth) == Done(false, [])
  }

  lemma KeyBookRefusesEmpty(t: Net)
    requires t.Sound()
    ensures RefusesEmpty(t, Answers(t))
  {
    forall e: Entry, n, depth |
      (e.header == "mt" || e.header == "") && e.key in t.own && Seal(t.w, e, [], n, MESSAGE) != []
      ensures Answers(t)(Seal(t.w, e, [], n, MESSAGE), depth) == Done(false, [])
    {
      EmptyLayerIsRefused(t.w, t.kb, t.own[e.key], e, n, depth);
    }
  }

  lemma {:induction false} RefusalIsMet(t: Net, answer: (seq<Byte>, nat) -> Outcome, e: Entry, n: nat, depth: nat)
    requires Ends(t.book, e, n) && n <= depth && Routed(t, e, n) && Peels(t, answer) && RefusesEmpty(t, answer)
    requires Prepared(t, e, [], n) != []
    ensures answer(Prepared(t, e, [], n), depth) == Done(false, [])
    decreases n
  {
    if e.first == "" {
      PreparedBottom(t, e, [], n);
    } else {
      PreparedHop(t, e, [], n);
      var next := t.book[e.first];
      assert Sealed(t, e, Prepared(t, next, [], n - 1), n, RECURSIVE);
      RefusalIsMet(t, answer, next, n - 1, depth - 1);
    }
  }

  // An empty message is wrapped like any other, over any chain of hops, but nobody delivers it.
  lemma EmptyMessageIsRefused(t: Net, e: Entry, n: nat, depth: nat)
    requires Ends(t.book, e, n) && n <= depth && Routed(t, e, n) && t.Sound()
    requires Prepared(t, e, [], n) != []
    ensures Answer(t.w, t.kb, Prepared(t, e, [], n), depth) == Done(false, [])
  {
    KeyBookPeels(t);
    KeyBookRefusesEmpty(t);
    RefusalIsMet(t, Answers(t), e, n, depth);
    assert Answers(t)(Prepared(t, e, [], n), depth) == Answer(t.w, t.kb, Prepared(t, e, [], n), depth);
  }
}
