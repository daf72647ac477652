/** The hash store as its callers see it: a flat map from hashes to contents, and a set of known
    hashes. Any sequence of operations on the tree of directories answers as the map does. */
module FlatStore {
  import opened Common
  import opened HashTree

  datatype Flat = Flat(contents: map<string, string>, known: set<string>)
  {
    function At(h: string): Option<string> {
      if h in contents then Some(contents[h]) else None
    }
  }

  /** written says how many of the bytes the disk takes. */
  datatype Op =
    | Write(hash: string, data: string, overwrite: bool, written: nat)
    | Read(hash: string)
    | Ask(hash: string)
    | Rebuild

  datatype Answer = Wrote(outcome: Outcome) | Got(data: string) | Known(seen: bool) | Done

  ghost predicate WellFormed(op: Op, n: nat) {
    (!op.Rebuild? ==> IsHash(op.hash, n)) && (op.Write? ==> op.written <= |op.data|)
  }

  function Cut(data: string): string {
    if |data| <= MAX_LENGTH then data else data[..MAX_LENGTH]
  }

  function Front(data: string, n: nat): string {
    if n <= |data| then data[..n] else data
  }

  function Next(f: Flat, op: Op): Flat {
    match op
    case Write(h, data, overwrite, written) =>
      if h in f.contents && !overwrite then f
      else
        Flat(f.contents[h := Overwritten(f.At(h), Front(data, written))],
             if written < |data| then f.known else f.known + {h})
    case Rebuild => f.(known := f.contents.Keys)
    case _ => f
  }

  function Reply(f: Flat, op: Op): Answer {
    match op
    case Write(h, data, overwrite, written) =>
      Wrote(if h in f.contents && !overwrite then Exists else if written < |data| then ShortWrite else Stored)
    case Read(h) => Got(match f.At(h) case None => "" case Some(x) => Cut(x))
    case Ask(h) => Known(h in f.known || h in f.contents)
    case Rebuild => Done
  }

  /** The map after the operations, and the answers on the way. */
  function After(f: Flat, ops: seq<Op>): Flat {
    if ops == [] then f else Next(After(f, ops[..|ops| - 1]), ops[|ops| - 1])
  }

  function Replies(f: Flat, ops: seq<Op>): seq<Answer> {
    if ops == [] then [] else Replies(f, ops[..|ops| - 1]) + [Reply(After(f, ops[..|ops| - 1]), ops[|ops| - 1])]
  }

  ghost predicate Refines(store: HashFileStore, f: Flat)
    reads store
  {
    && store.Valid() && store.hashes == f.known
    && (forall h :: h in f.contents ==> IsHash(h, store.n))
    && (forall h :: IsHash(h, store.n) ==> store.At(h) == f.At(h))
  }

  lemma Written(store: HashFileStore, f: Flat, f': Flat, h: string)
    requires store.Valid() && store.hashes == f'.known && IsHash(h, store.n)
    requires forall g :: g in f.contents ==> IsHash(g, store.n)
    requires forall g :: IsHash(g, store.n) && g != h ==> store.At(g) == f.At(g)
    requires f'.contents.Keys == f.contents.Keys + {h} && store.At(h) == f'.At(h)
    requires forall g :: g != h ==> f'.At(g) == f.At(g)
    ensures Refines(store, f')
  {
  }

  lemma NextWrite(f: Flat, op: Op)
    requires op.Write?
    ensures var f', r := Next(f, op), Reply(f, op).outcome;
            && f'.known == (if r == Stored then f.known + {op.hash} else f.known)
            && f'.At(op.hash) == (if r == Exists then f.At(op.hash)
                                  else Some(Overwritten(f.At(op.hash), Front(op.data, op.written))))
            && f'.contents.Keys == f.contents.Keys + {op.hash}
            && forall g :: g != op.hash ==> f'.At(g) == f.At(g)
  {
  }

  /** The store's own contract, in terms of the map. */
  method StoreWrite(store: HashFileStore, op: Op, ghost f: Flat) returns (r: Outcome)
    requires Refines(store, f) && WellFormed(op, store.n) && op.Write?
    modifies store
    ensures store.Valid() && r == Reply(f, op).outcome
    ensures store.hashes == if r == Stored then f.known + {op.hash} else f.known
    ensures store.At(op.hash) == if r == Exists then f.At(op.hash)
                                 else Some(Overwritten(f.At(op.hash), Front(op.data, op.written)))
    ensures forall g :: IsHash(g, store.n) && g != op.hash ==> store.At(g) == f.At(g)
  {
    assert store.At(op.hash) == f.At(op.hash);
    r := store.WriteData(op.data, op.hash, op.overwrite, op.written);
  }

  method PerformWrite(store: HashFileStore, op: Op, ghost f: Flat) returns (a: Answer)
    requires Refines(store, f) && WellFormed(op, store.n) && op.Write?
    modifies store
    ensures Refines(store, Next(f, op)) && a == Reply(f, op)
  {
    var r := StoreWrite(store, op, f);
    a := Wrote(r);
    NextWrite(f, op);
    Written(store, f, Next(f, op), op.hash);
  }

  method PerformRebuild(store: HashFileStore, ghost f: Flat)
    requires Refines(store, f)
    modifies store
    ensures Refines(store, Next(f, Rebuild))
  {
    store.Rebuild();
    assert forall h :: h in store.hashes <==> h in f.contents.Keys;
  }

  method Perform(store: HashFileStore, op: Op, ghost f: Flat) returns (a: Answer)
    requires Refines(store, f) && WellFormed(op, store.n)
    modifies store
    ensures Refines(store, Next(f, op)) && a == Reply(f, op)
  {
    match op
    case Write(_, _, _, _) => a := PerformWrite(store, op, f);
    case Read(h) =>
      var x := store.GetData(h);
      a := Got(x);
    case Ask(h) =>
      var seen := store.Seen(h);
      a := Known(seen);
    case Rebuild =>
      PerformRebuild(store, f);
      a := Done;
  }

  lemma OneMore(f: Flat, ops: seq<Op>, i: nat)
    requires i < |ops|
    ensures After(f, ops[..i + 1]) == Next(After(f, ops[..i]), ops[i])
    ensures Replies(f, ops[..i + 1]) == Replies(f, ops[..i]) + [Reply(After(f, ops[..i]), ops[i])]
  {
    assert ops[..i + 1][..i] == ops[..i];
  }

  /** Whatever is asked of a store that refines a map, in whatever order, it answers as the map
      would and refines what the map becomes. */
  method PerformAll(store: HashFileStore, ops: seq<Op>, ghost f: Flat) returns (answers: seq<Answer>)
    requires Refines(store, f) && forall op :: op in ops ==> WellFormed(op, store.n)
    modifies store
    ensures Refines(store, After(f, ops)) && answers == Replies(f, ops)
  {
    answers := [];
    var i := 0;
    while i < |ops|
      invariant 0 <= i <= |ops| && Refines(store, After(f, ops[..i])) && answers == Replies(f, ops[..i])
    {
      var a := Perform(store, ops[i], After(f, ops[..i]));
      OneMore(f, ops, i);
      answers := answers + [a];
      i := i + 1;
    }
    assert ops[..i] == ops;
  }

  const EMPTY := Flat(map[], {})

  /** A new store answers any operations as the empty map does. */
  method AnswersOfNewStore(n: nat, ops: seq<Op>) returns (answers: seq<Answer>)
    requires n >= 1 && forall op :: op in ops ==> WellFormed(op, n)
    ensures answers == Replies(EMPTY, ops)
  {
    var store := new HashFileStore(n);
    answers := PerformAll(store, ops, EMPTY);
  }

  // What is stored under a hash stays as it is over any operations that do not overwrite it.
  lemma {:induction false} StoredStays(f: Flat, ops: seq<Op>, h: string)
    requires h in f.contents
    requires forall op :: op in ops && op.Write? && op.hash == h ==> !op.overwrite
    ensures After(f, ops).At(h) == f.At(h)
  {
    if ops == [] {
    } else {
      var front, op := ops[..|ops| - 1], ops[|ops| - 1];
      assert forall o :: o in front ==> o in ops;
      StoredStays(f, front, h);
      assert op in ops;
    }
  }

  // Overwriting shorter data leaves the end of the old data standing.
  lemma OverwritingLeavesTheEnd(f: Flat, h: string, x: string, data: string)
    requires f.At(h) == Some(x)
    ensures Next(f, Write(h, data, true, |data|)).At(h) ==
      Some(if |x| <= |data| then data else data + x[|data|..])
    ensures Next(f, Write(h, data, false, |data|)) == f
  {
    assert data[..|data|] == data;
  }

  // Data written in full under a new hash is what is read and known from then on, over any
  // operations that do not overwrite it, rebuilding the known hashes included.
  lemma StoredIsRead(f: Flat, h: string, data: string, overwrite: bool, ops: seq<Op>)
    requires h !in f.contents
    requires forall op :: op in ops && op.Write? && op.hash == h ==> !op.overwrite
    ensures var f' := After(Next(f, Write(h, data, overwrite, |data|)), ops);
            Reply(f', Read(h)) == Got(if |data| <= 131072 then data else data[..131072])
            && Reply(f', Ask(h)) == Known(true)
            && Reply(f', Write(h, data, false, |data|)) == Wrote(Exists)
  {
    assert data[..|data|] == data;
    StoredStays(Next(f, Write(h, data, overwrite, |data|)), ops, h);
  }
}
