/** What is prepared for an address book entry, layer by layer, and what of a text a description
    takes for a message. */
module OnionLayers {
  import opened Common
  import Framing
  import opened Onion
  import opened Wire

  // ---- Layers ----

  /** The hops from e on, each the entry that the one before names as its first hop. */
  ghost predicate IsChain(book: map<string, Entry>, e: Entry, hops: seq<Entry>) {
    && hops != [] && hops[0] == e
    && forall i :: 0 < i < |hops| ==> FollowsHop(book, hops[i - 1], hops[i])
  }

  predicate FollowsHop(book: map<string, Entry>, hop: Entry, next: Entry) {
    hop.first != "" && hop.first in book && next == book[hop.first]
  }

  /** The text is what the entry's key makes of a pad, the entry's magic number, the kind and
      what is inside, or, under an unknown header, of what is inside alone. */
  predicate IsLayer(w: World, e: Entry, k: nat, kind: nat, inside: seq<Byte>, text: seq<Byte>) {
    w.encrypt(e.key, k,
      if e.header == "mt" || e.header == "" then
        w.pad(k) + BigEndian(e.magic, 8) + BigEndian(kind, 4) + inside
      else inside) == Some(text)
  }

  /** Text i is not empty; the last holds the data as a plain message, and each other one holds
      the next text, to be processed again. */
  ghost predicate LayerAt(w: World, hops: seq<Entry>, data: seq<Byte>, n: nat, texts: seq<seq<Byte>>, i: nat)
    requires i < |texts| == |hops| <= n + 1
  {
    && texts[i] != []
    && if i == |hops| - 1 then IsLayer(w, hops[i], n - i, 1, data, texts[i])
       else IsLayer(w, hops[i], n - i, 2, texts[i + 1], texts[i])
  }

  ghost predicate IsOnion(w: World, hops: seq<Entry>, data: seq<Byte>, n: nat, texts: seq<seq<Byte>>) {
    && 0 < |texts| == |hops| <= n + 1
    && forall i :: 0 <= i < |hops| ==> LayerAt(w, hops, data, n, texts, i)
  }

  /** A whole chain of hops and an onion over it. */
  ghost predicate Wraps(
      w: World, book: map<string, Entry>, e: Entry, data: seq<Byte>, n: nat, hops: seq<Entry>, texts: seq<seq<Byte>>)
  {
    IsChain(book, e, hops) && hops[|hops| - 1].first == "" && IsOnion(w, hops, data, n, texts)
  }

  lemma SealIsLayer(w: World, e: Entry, data: seq<Byte>, n: nat, kind: nat, text: seq<Byte>)
    requires text != []
    ensures Seal(w, e, data, n, kind) == text <==> IsLayer(w, e, n, kind, data, text)
  {
  }

  lemma WrapsFirst(w: World, book: map<string, Entry>, e: Entry, data: seq<Byte>, n: nat, text: seq<Byte>)
    requires e.first == "" && text != [] && IsLayer(w, e, n, 1, data, text)
    ensures Wraps(w, book, e, data, n, [e], [text])
  {
  }

  lemma WrapsOnce(w: World, book: map<string, Entry>, e: Entry, data: seq<Byte>, n: nat, next: Entry,
                  hops: seq<Entry>, texts: seq<seq<Byte>>, text: seq<Byte>)
    requires n > 0 && FollowsHop(book, e, next) && Wraps(w, book, next, data, n - 1, hops, texts)
    requires text != [] && IsLayer(w, e, n, 2, texts[0], text)
    ensures Wraps(w, book, e, data, n, [e] + hops, [text] + texts)
  {
    var hs, ts := [e] + hops, [text] + texts;
    forall i | 0 < i < |hs|
      ensures FollowsHop(book, hs[i - 1], hs[i]) && LayerAt(w, hs, data, n, ts, i)
    {
      assert LayerAt(w, hops, data, n - 1, texts, i - 1);
      if i > 1 {
        assert FollowsHop(book, hops[i - 2], hops[i - 1]);
      }
    }
    assert LayerAt(w, hs, data, n, ts, 0);
  }

  lemma {:induction false} PreparedWraps(w: World, book: map<string, Entry>, e: Entry, data: seq<Byte>, n: nat)
      returns (hops: seq<Entry>, texts: seq<seq<Byte>>)
    requires Ends(book, e, n) && Prepare(w, book, e, data, n) != []
    ensures Wraps(w, book, e, data, n, hops, texts) && texts[0] == Prepare(w, book, e, data, n)
    decreases n
  {
    var text := Prepare(w, book, e, data, n);
    if e.first == "" {
      SealIsLayer(w, e, data, n, 1, text);
      WrapsFirst(w, book, e, data, n, text);
      hops, texts := [e], [text];
    } else {
      var next := book[e.first];
      var hs, ts := PreparedWraps(w, book, next, data, n - 1);
      SealIsLayer(w, e, ts[0], n, 2, text);
      WrapsOnce(w, book, e, data, n, next, hs, ts, text);
      hops, texts := [e] + hs, [text] + ts;
    }
  }

  lemma WrapsRest(w: World, book: map<string, Entry>, e: Entry, data: seq<Byte>, n: nat,
                  hops: seq<Entry>, texts: seq<seq<Byte>>)
    requires Wraps(w, book, e, data, n, hops, texts) && |hops| > 1
    ensures n > 0 && FollowsHop(book, e, hops[1])
    ensures Wraps(w, book, hops[1], data, n - 1, hops[1..], texts[1..])
    ensures IsLayer(w, e, n, 2, texts[1], texts[0])
  {
    var hs, ts := hops[1..], texts[1..];
    assert FollowsHop(book, hops[0], hops[1]);
    assert LayerAt(w, hops, data, n, texts, 0);
    var inner: nat := n - 1;
    forall i | 0 <= i < |hs| ensures LayerAt(w, hs, data, inner, ts, i) {
      assert LayerAt(w, hops, data, n, texts, i + 1);
    }
    forall i | 0 < i < |hs| ensures FollowsHop(book, hs[i - 1], hs[i]) {
      assert FollowsHop(book, hops[i], hops[i + 1]);
    }
  }

  lemma {:induction false} WrapsIsPrepared(w: World, book: map<string, Entry>, e: Entry, data: seq<Byte>, n: nat,
                                           hops: seq<Entry>, texts: seq<seq<Byte>>)
    requires Ends(book, e, n) && Wraps(w, book, e, data, n, hops, texts)
    ensures Prepare(w, book, e, data, n) == texts[0]
    decreases n
  {
    assert LayerAt(w, hops, data, n, texts, 0);
    if |hops| == 1 {
      SealIsLayer(w, e, data, n, 1, texts[0]);
    } else {
      assert LayerAt(w, hops, data, n, texts, 1);
      WrapsRest(w, book, e, data, n, hops, texts);
      WrapsIsPrepared(w, book, hops[1], data, n - 1, hops[1..], texts[1..]);
      SealIsLayer(w, e, texts[1], n, 2, texts[0]);
    }
  }

  // Preparing succeeds if and only if every hop is in the address book and every encryption
  // succeeds with a text that is not empty; and it gives the outermost text, whose layers hold
  // one another down to the data.
  lemma {:induction false} PreparesExactly(
      w: World, book: map<string, Entry>, e: Entry, data: seq<Byte>, n: nat, c: seq<Byte>)
    requires Ends(book, e, n) && c != []
    ensures Prepare(w, book, e, data, n) == c <==>
      exists hops, texts :: Wraps(w, book, e, data, n, hops, texts) && texts[0] == c
  {
    if Prepare(w, book, e, data, n) == c {
      var hops, texts := PreparedWraps(w, book, e, data, n);
      assert Wraps(w, book, e, data, n, hops, texts) && texts[0] == c;
    }
    if exists hops, texts :: Wraps(w, book, e, data, n, hops, texts) && texts[0] == c {
      var hops, texts :| Wraps(w, book, e, data, n, hops, texts) && texts[0] == c;
      WrapsIsPrepared(w, book, e, data, n, hops, texts);
    }
  }

  // ---- Headers ----

  /** The text is a pad, the description's magic number, the kind, and the data, which is not
      empty. */
  predicate IsHeaded(d: Description, m: seq<Byte>, pad: seq<Byte>, kind: nat, data: seq<Byte>) {
    && Framing.IsHeadPad(pad) && kind < Pow256(4) && data != []
    && m == pad + BigEndian(d.magic, 8) + BigEndian(kind, 4) + data
  }

  lemma HeadedIsStripped(d: Description, m: seq<Byte>, pad: seq<Byte>, kind: nat, data: seq<Byte>)
    requires d.readable && IsHeaded(d, m, pad, kind, data)
    ensures Strip(d, m) == Some(Stripped(kind, data))
  {
    StripUndoesAddHeader(d, pad, d.magic, data, kind);
  }

  lemma StrippedIsHeaded(d: Description, m: seq<Byte>) returns (pad: seq<Byte>)
    requires Strip(d, m).Some?
    ensures d.readable && IsHeaded(d, m, pad, Strip(d, m).value.kind, Strip(d, m).value.data)
  {
    var o := m[0] % 8 + 1;
    var body := m[o..];
    pad := m[..o];
    FromBigEndianRoundTrip(body[..8]);
    FromBigEndianRoundTrip(body[8..12]);
    assert m == pad + body && body == body[..8] + body[8..12] + body[12..];
  }

  // A description takes a text for a message if and only if it names a command and the text is
  // headed with its magic number; what it takes is the kind and the data behind the header.
  lemma {:induction false} StripsExactly(d: Description, m: seq<Byte>, kind: nat, data: seq<Byte>)
    ensures Strip(d, m) == Some(Stripped(kind, data)) <==> d.readable && exists pad :: IsHeaded(d, m, pad, kind, data)
  {
    if Strip(d, m) == Some(Stripped(kind, data)) {
      var pad := StrippedIsHeaded(d, m);
      assert IsHeaded(d, m, pad, kind, data);
    }
    if d.readable && exists pad :: IsHeaded(d, m, pad, kind, data) {
      var pad :| IsHeaded(d, m, pad, kind, data);
      HeadedIsStripped(d, m, pad, kind, data);
    }
  }

  // ---- Finding the description ----

  predicate IsBlank(c: char) {
    c == ' ' || c == '\t' || c == '\r' || c == '\n'
  }

  // Blanks are cut from the end of a name, all of them and nothing else.
  lemma {:induction false} TrimCutsBlanks(s: string)
    ensures Trim(s) <= s && (Trim(s) != [] ==> !IsBlank(Trim(s)[|Trim(s)| - 1]))
    ensures forall i :: |Trim(s)| <= i < |s| ==> IsBlank(s[i])
  {
    if s == [] || !IsBlank(s[|s| - 1]) {
    } else {
      var front := s[..|s| - 1];
      TrimCutsBlanks(front);
      assert forall i :: |Trim(s)| <= i < |front| ==> IsBlank(front[i]) && front[i] == s[i];
    }
  }

  /** The first of the group with this name is the i-th. */
  ghost predicate IsFirstNamed(g: Group, name: string, i: nat) {
    i < |g| && g[i].name == name && forall j :: 0 <= j < i ==> g[j].name != name
  }

  // A name stands for the first description of the group that has it.
  lemma {:induction false} FindsTheFirst(g: Group, name: string)
    ensures forall i: nat :: IsFirstNamed(g, name, i) ==> Find(g, name) == Some(g[i].description)
    ensures Find(g, name).Some? ==> exists i: nat :: IsFirstNamed(g, name, i)
  {
    if g == [] {
    } else if g[0].name == name {
      assert IsFirstNamed(g, name, 0);
    } else {
      FindsTheFirst(g[1..], name);
      forall i: nat | IsFirstNamed(g, name, i) ensures i > 0 && IsFirstNamed(g[1..], name, i - 1) {
        assert forall j :: 0 <= j < i - 1 ==> g[1..][j] == g[j + 1];
      }
      if Find(g, name).Some? {
        var i: nat :| IsFirstNamed(g[1..], name, i);
        assert forall j :: 0 < j <= i + 1 ==> g[j] == g[1..][j - 1];
        assert IsFirstNamed(g, name, i + 1);
      }
    }
  }

  // ---- The order of the groups ----

  /** What a group answers when it is tried. */
  ghost predicate Fails(w: World, kb: seq<Group>, g: Group, data: seq<Byte>, depth: nat) {
    ProcessGroup(w, kb, g, data, depth).Done? && !ProcessGroup(w, kb, g, data, depth).ok
  }

  ghost predicate Succeeds(w: World, kb: seq<Group>, g: Group, data: seq<Byte>, depth: nat) {
    ProcessGroup(w, kb, g, data, depth).Done? && ProcessGroup(w, kb, g, data, depth).ok
  }

  /** Everything that groups deliver one after another. */
  ghost function DeliveredBy(w: World, kb: seq<Group>, gs: seq<Group>, data: seq<Byte>, depth: nat): seq<Delivery> {
    if gs == [] then []
    else
      var r := ProcessGroup(w, kb, gs[0], data, depth);
      (if r.Done? then r.delivered else []) + DeliveredBy(w, kb, gs[1..], data, depth)
  }

  // The groups are tried in order up to the first that succeeds, whose success is the answer;
  // what was delivered on the way stays delivered.
  lemma {:induction false} StopsAtFirstSuccess(w: World, kb: seq<Group>, i: nat, data: seq<Byte>, depth: nat)
      returns (k: nat)
    requires i <= |kb| && ProcessData(w, kb, i, data, depth).Done?
    ensures i <= k <= |kb| && forall h :: i <= h < k ==> Fails(w, kb, kb[h], data, depth)
    ensures k < |kb| ==> Succeeds(w, kb, kb[k], data, depth)
    ensures ProcessData(w, kb, i, data, depth) ==
      Done(k < |kb|, DeliveredBy(w, kb, kb[i..k], data, depth)
                     + if k < |kb| then ProcessGroup(w, kb, kb[k], data, depth).delivered else [])
    decreases |kb| - i
  {
    k := i;
    assert kb[i..k] == [];
    if i < |kb| && Fails(w, kb, kb[i], data, depth) {
      k := StopsAtFirstSuccess(w, kb, i + 1, data, depth);
      OneMore(w, kb, i, k, data, depth);
    }
  }

  lemma OneMore(w: World, kb: seq<Group>, i: nat, k: nat, data: seq<Byte>, depth: nat)
    requires i < k <= |kb| && ProcessGroup(w, kb, kb[i], data, depth).Done?
    ensures DeliveredBy(w, kb, kb[i..k], data, depth) ==
      ProcessGroup(w, kb, kb[i], data, depth).delivered + DeliveredBy(w, kb, kb[i + 1..k], data, depth)
  {
    assert kb[i..k][1..] == kb[i + 1..k];
  }
}
