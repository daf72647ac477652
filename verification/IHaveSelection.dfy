/** What a mover asks for when a peer says what it has: only offered hashes it has not told that
    peer about, all of a short list, and a random choice of a drawn size from a long one. */
module IHaveSelection {
  import opened Common
  import opened Distinct
  import opened Split

  // ---- Reservoir sampling ----

  /** After count elements, those in seen: the filled part of the reservoir holds different ones
      of them, all of them while it is not full, and the rest is blank. */
  ghost predicate Reservoir<T>(out: seq<T>, count: nat, seen: set<T>, blank: T) {
    var m := if count < |out| then count else |out|;
    && count == |seen|
    && NoDuplicates(out[..m]) && ToSet(out[..m]) <= seen
    && (count <= |out| ==> ToSet(out[..m]) == seen)
    && forall i :: count <= i < |out| ==> out[i] == blank
  }

  lemma FillKeeps<T>(out: seq<T>, count: nat, seen: set<T>, blank: T, x: T)
    requires Reservoir(out, count, seen, blank) && count < |out| && x !in seen
    ensures Reservoir(out[count := x], count + 1, seen + {x}, blank)
  {
    AppendDistinct(out[..count], x);
    ToSetAppend(out[..count], x);
    assert out[count := x][..count + 1] == out[..count] + [x];
  }

  lemma ReplaceKeeps<T>(out: seq<T>, count: nat, seen: set<T>, blank: T, x: T, r: nat)
    requires Reservoir(out, count, seen, blank) && count >= |out| && x !in seen && r < |out|
    ensures Reservoir(out[r := x], count + 1, seen + {x}, blank)
  {
    assert out[..|out|] == out && out[r := x][..|out|] == out[r := x];
    ReplaceDistinct(out, r, x);
    ToSetReplace(out, r, x);
  }

  lemma PassOverKeeps<T>(out: seq<T>, count: nat, seen: set<T>, blank: T, x: T)
    requires Reservoir(out, count, seen, blank) && count >= |out| && x !in seen
    ensures Reservoir(out, count + 1, seen + {x}, blank)
  {
  }

  // What the reservoir is good for once everything has been seen.
  lemma ReservoirAtEnd<T>(out: seq<T>, seen: set<T>, blank: T)
    requires Reservoir(out, |seen|, seen, blank)
    ensures |out| <= |seen| ==> NoDuplicates(out) && ToSet(out) <= seen
    ensures |out| > |seen| ==> ToSet(out) == seen + {blank}
  {
    assert out[..|out|] == out;
    if |out| > |seen| {
      RestIsBlank(out, |seen|, blank);
    }
  }

  lemma EmptyReservoir<T>(out: seq<T>, blank: T)
    requires forall i :: 0 <= i < |out| ==> out[i] == blank
    ensures Reservoir(out, 0, {}, blank)
  {
    assert out[..0] == [];
  }

  /** The next element fills a free place, or replaces a random element, or is passed over. The
      random number may be any in its range. */
  method Place<T>(out: array<T>, count: nat, x: T, ghost seen: set<T>, ghost blank: T)
    requires Reservoir(out[..], count, seen, blank) && x !in seen
    modifies out
    ensures Reservoir(out[..], count + 1, seen + {x}, blank)
  {
    ghost var before := out[..];
    if count < out.Length {
      FillKeeps(before, count, seen, blank, x);
      out[count] := x;
      assert out[..] == before[count := x];
    } else {
      PassOverKeeps(before, count, seen, blank, x);
      var r: nat :| r < count + 1;
      if r < out.Length {
        ReplaceKeeps(before, count, seen, blank, x, r);
        out[r] := x;
        assert out[..] == before[r := x];
      }
    }
  }

  /** One pass over the input: the first k elements fill the reservoir, and each later one may
      replace a random element. */
  method Choose<T(==, 0)>(input: set<T>, k: nat, blank: T) returns (out: array<T>)
    ensures fresh(out) && out.Length == k
    ensures k <= |input| ==> NoDuplicates(out[..]) && ToSet(out[..]) <= input
    ensures k > |input| ==> ToSet(out[..]) == input + {blank}
  {
    out := new T[k](_ => blank);
    var count: nat := 0;
    var todo := input;
    ghost var seen: set<T> := {};
    EmptyReservoir(out[..], blank);
    while todo != {}
      invariant todo !! seen && todo + seen == input
      invariant Reservoir(out[..], count, seen, blank)
      decreases |todo|
    {
      var x :| x in todo;
      Place(out, count, x, seen, blank);
      todo, seen, count := todo - {x}, seen + {x}, count + 1;
    }
    assert seen == input;
    ReservoirAtEnd(out[..], input, blank);
  }

  lemma RestIsBlank<T>(out: seq<T>, n: nat, blank: T)
    requires n < |out| && forall i :: n <= i < |out| ==> out[i] == blank
    ensures ToSet(out) == ToSet(out[..n]) + {blank}
  {
    assert out[n] == blank;
    forall x | x in out ensures x in out[..n] || x == blank {
      var i :| 0 <= i < |out| && out[i] == x;
      assert i < n ==> out[..n][i] == x;
    }
  }

  // ---- Cutting a set down and filling it up ----

  /** Cuts a set down to num random members; asked for more than there are, it adds the empty
      string instead. */
  method SelectRandom(s: set<string>, num: nat) returns (n: set<string>)
    ensures num <= |s| ==> n <= s && |n| == num
    ensures num > |s| ==> n == s + {""}
  {
    var li := Choose(s, num, "");
    n := ArraySet(li);
    if num <= |s| {
      DistinctSet(li[..]);
    }
  }

  method ArraySet(li: array<string>) returns (n: set<string>)
    ensures n == ToSet(li[..])
  {
    n := {};
    var i := 0;
    while i < li.Length
      invariant i <= li.Length && n == ToSet(li[..i])
    {
      ToSetAppend(li[..i], li[i]);
      assert li[..i + 1] == li[..i] + [li[i]];
      n := n + {li[i]};
      i := i + 1;
    }
    assert li[..i] == li[..];
  }

  lemma UnionSize<T>(a: set<T>, b: set<T>)
    ensures |a| <= |a + b| <= |a| + |b|
  {
    Fewer(a, a + b);
    assert a + b == a + (b - a);
    Fewer(b - a, b);
  }

  /** Adds random members of from until there are len. It may draw members already there, so it
      is only bound to come to an end by chance; rounds says how often it may draw. */
  method AddRandom(to0: set<string>, from: set<string>, len: nat, rounds: nat) returns (to: set<string>, done: bool)
    requires len <= |from|
    ensures to0 <= to <= to0 + from
    ensures |to0| <= len ==> |to| <= len
    ensures done <==> |to| >= len
  {
    to := to0;
    var left := rounds;
    while |to| < len && left > 0
      invariant to0 <= to <= to0 + from && (|to0| <= len ==> |to| <= len)
      decreases left
    {
      var count := len - |to|;
      var n := Choose(from, count, "");
      var more := ArraySet(n);
      DistinctSet(n[..]);
      UnionSize(to, more);
      to := to + more;
      left := left - 1;
    }
    done := |to| >= len;
  }

  // ---- Parsing what a peer has ----

  predicate IsListChar(c: char) {
    'A' <= c <= 'F' || '0' <= c <= '9' || c == '\n'
  }

  // The characters of a list: upper-case hex digits and newlines.
  lemma ListCharacters(c: char)
    ensures IsListChar(c) <==> c in "0123456789ABCDEF\n"
  {
    assert "0123456789ABCDEF\n" ==
      ['0', '1', '2', '3', '4', '5', '6', '7', '8', '9', 'A', 'B', 'C', 'D', 'E', 'F', '\n'];
  }

  predicate IsList(m: string) {
    forall c :: c in m ==> IsListChar(c)
  }

  /** The lines of a text as they are read one by one: a last line that is empty is not seen. */
  function Items(m: string): seq<string> {
    var lines := Pieces(m, '\n');
    if lines[|lines| - 1] == "" then lines[..|lines| - 1] else lines
  }

  /** The sizes the number of hashes to ask for is drawn from when items are offered. */
  predicate IsDrawn(items: nat, minIWant: nat, maxIWant: nat, n: nat) {
    var most := if maxIWant < items then maxIWant else items;
    if most > minIWant then minIWant <= n < most else n == most
  }

  lemma {:induction false} PiecesHoldOnly(s: string, sep: char, x: string)
    requires x in Pieces(s, sep)
    ensures forall c :: c in x ==> c in s
    decreases |s|
  {
    var n := End(s, sep);
    if x == s[..n] {
    } else {
      PiecesHoldOnly(s[n + 1..], sep, x);
    }
  }

  lemma {:induction false} HoldsNone(pieces: seq<string>, sep: char, x: string)
    requires NoneHolds(pieces, sep) && x in pieces
    ensures sep !in x
  {
    if x == pieces[0] {
    } else {
      HoldsNone(pieces[1..], sep, x);
    }
  }

  // The items of a well-formed list are well-formed and hold no newline.
  lemma ItemIsList(m: string, x: string)
    requires IsList(m) && x in Items(m)
    ensures IsList(x) && '\n' !in x
  {
    var lines := Pieces(m, '\n');
    assert x in lines;
    PiecesHoldOnly(m, '\n', x);
    PiecesHoldNoSeparator(m, '\n');
    HoldsNone(lines, '\n', x);
  }

  // ---- The reply ----

  ghost predicate Sorted(l: seq<string>) {
    forall i, j :: 0 <= i < j < |l| ==> Less(l[i], l[j])
  }

  lemma SortedCons(x: string, l: seq<string>)
    requires Sorted(l) && forall y :: y in l ==> Less(x, y)
    ensures Sorted([x] + l)
  {
  }

  lemma {:induction false} LeastExists(s: set<string>) returns (x: string)
    requires s != {}
    ensures x in s && forall y :: y in s ==> x == y || Less(x, y)
    decreases |s|
  {
    var z :| z in s;
    if s == {z} {
      x := z;
    } else {
      x := LeastExists(s - {z});
      LessIsTotal(x, z);
      if Less(z, x) {
        forall y | y in s ensures z == y || Less(z, y) {
          if y != z && x != y {
            LessIsTransitive(z, x, y);
          }
        }
        x := z;
      }
    }
  }

  /** The members of a set in the order in which a sorted set is walked. */
  method Listed(s: set<string>) returns (l: seq<string>)
    ensures Sorted(l) && NoDuplicates(l) && ToSet(l) == s
    decreases |s|
  {
    if s == {} {
      return [];
    }
    ghost var least := LeastExists(s);
    var x :| x in s && forall y :: y in s ==> x == y || Less(x, y);
    var rest := Listed(s - {x});
    assert forall y :: y in rest ==> y in ToSet(rest);
    SortedCons(x, rest);
    ToSetCons(x, rest);
    l := [x] + rest;
  }

  /** Joining as the program does it: as long as the text is empty, a string takes its place
      instead of being appended. */
  function JoinedBehind(r: string, l: seq<string>, sep: char): string
    decreases |l|
  {
    if l == [] then r else JoinedBehind(if r == "" then l[0] else r + [sep] + l[0], l[1..], sep)
  }

  method JoinStrings(l: seq<string>, sep: char) returns (r: string)
    ensures r == JoinedBehind("", l, sep)
  {
    r := "";
    var i := 0;
    while i < |l|
      invariant i <= |l| && JoinedBehind(r, l[i..], sep) == JoinedBehind("", l, sep)
    {
      r := if r == "" then l[i] else r + [sep] + l[i];
      i := i + 1;
    }
  }

  lemma {:induction false} JoinedBehindText(r: string, l: seq<string>, sep: char)
    requires r != ""
    ensures JoinedBehind(r, l, sep) == if l == [] then r else r + [sep] + Join(l, sep)
    decreases |l|
  {
    if l == [] {
    } else {
      var r' := r + [sep] + l[0];
      JoinedBehindText(r', l[1..], sep);
      if l[1..] != [] {
        Associate(r + [sep], l[0] + [sep], Join(l[1..], sep));
        Associate(r + [sep], l[0], [sep]);
      }
    }
  }

  /** What is left after the empty strings at the front. */
  function DropBlanks(l: seq<string>): seq<string> {
    if l != [] && l[0] == "" then DropBlanks(l[1..]) else l
  }

  // The program's join forgets the empty strings at the front.
  lemma {:induction false} JoinDropsBlanks(l: seq<string>, sep: char)
    ensures JoinedBehind("", l, sep) == Join(DropBlanks(l), sep)
    decreases |l|
  {
    if l == [] {
    } else if l[0] == "" {
      JoinDropsBlanks(l[1..], sep);
    } else {
      JoinedBehindText(l[0], l[1..], sep);
      assert l == [l[0]] + l[1..];
    }
  }

  lemma NoItems()
    ensures Items("") == []
  {
    assert Pieces<char>([], '\n') == [[]];
  }

  lemma {:induction false} ItemsOfJoin(l: seq<string>)
    requires l != [] && NoneHolds(l, '\n')
    ensures Items(Join(l, '\n')) == if l[|l| - 1] == "" then l[..|l| - 1] else l
  {
    PiecesAreUnique(l, '\n');
  }

  lemma {:induction false} DroppedHoldNone(l: seq<string>)
    requires NoneHolds(l, '\n')
    ensures NoneHolds(DropBlanks(l), '\n') && |DropBlanks(l)| <= |l|
    ensures |DropBlanks(l)| == |l| <==> l == [] || l[0] != ""
  {
    if l != [] && l[0] == "" {
      DroppedHoldNone(l[1..]);
    }
  }

  // The peer reads from a reply exactly the hashes asked for, in order, if and only if neither
  // the first nor the last of them is empty.
  lemma ReplyIsUnderstood(wanted: seq<string>)
    requires NoneHolds(wanted, '\n')
    ensures Items(JoinedBehind("", wanted, '\n')) == wanted <==>
      wanted == [] || (wanted[0] != "" && wanted[|wanted| - 1] != "")
  {
    var kept := DropBlanks(wanted);
    JoinDropsBlanks(wanted, '\n');
    DroppedHoldNone(wanted);
    NoItems();
    if kept != [] {
      ItemsOfJoin(kept);
    }
  }

  lemma SortedBlank(wanted: seq<string>)
    requires Sorted(wanted)
    ensures DropBlanks(wanted) == if "" in wanted then wanted[1..] else wanted
    ensures "" !in DropBlanks(wanted)
  {
    if wanted != [] {
      forall i | 0 < i < |wanted| ensures wanted[i] != "" {
        assert Less(wanted[0], wanted[i]);
      }
      assert wanted[0] == "" ==> |wanted[1..]| > 0 ==> wanted[1..][0] == wanted[1];
    }
  }

  // The order puts an empty hash first, so it is always lost, and it alone: the peer reads
  // the other hashes.
  lemma {:induction false} EmptyHashIsLost(wanted: seq<string>)
    requires Sorted(wanted) && NoneHolds(wanted, '\n')
    ensures Items(JoinedBehind("", wanted, '\n')) == if "" in wanted then wanted[1..] else wanted
    ensures "" !in Items(JoinedBehind("", wanted, '\n'))
  {
    var kept := DropBlanks(wanted);
    JoinDropsBlanks(wanted, '\n');
    DroppedHoldNone(wanted);
    SortedBlank(wanted);
    if kept == [] {
      NoItems();
    } else {
      ItemsOfJoin(kept);
    }
  }

  lemma {:induction false} NoneHoldsAppend(a: seq<string>, b: seq<string>, sep: char)
    requires NoneHolds(a, sep) && NoneHolds(b, sep)
    ensures NoneHolds(a + b, sep)
  {
    if a == [] {
      assert a + b == b;
    } else {
      NoneHoldsAppend(a[1..], b, sep);
      assert (a + b)[1..] == a[1..] + b;
    }
  }

  lemma {:induction false} AllHoldNone(l: seq<string>, sep: char)
    requires forall x :: x in l ==> sep !in x
    ensures NoneHolds(l, sep)
  {
    if l == [] {
    } else {
      assert l[0] in l && forall x :: x in l[1..] ==> x in l;
      AllHoldNone(l[1..], sep);
    }
  }

  lemma {:induction false} ListOfLists(r: string, l: seq<string>)
    requires IsList(r) && forall x :: x in l ==> IsList(x)
    ensures IsList(JoinedBehind(r, l, '\n'))
    decreases |l|
  {
    if l == [] {
    } else {
      assert l[0] in l && forall x :: x in l[1..] ==> x in l;
      ListOfLists(if r == "" then l[0] else r + ['\n'] + l[0], l[1..]);
    }
  }

  // A reply to a well-formed list is a well-formed list; all but an empty hash arrives.
  lemma {:induction false} ReplyIsList(m: string, wanted: seq<string>)
    requires IsList(m) && Sorted(wanted) && ToSet(wanted) <= ToSet(Items(m))
    ensures var text := JoinedBehind("", wanted, '\n');
            IsList(text) && Items(text) == if "" in wanted then wanted[1..] else wanted
  {
    forall x | x in wanted ensures IsList(x) && '\n' !in x {
      assert x in ToSet(wanted);
      ItemIsList(m, x);
    }
    AllHoldNone(wanted, '\n');
    ListOfLists("", wanted);
    EmptyHashIsLost(wanted);
  }

  // A blank line in an offer is an item.
  lemma BlankLineIsAnItem(front: seq<string>, back: seq<string>)
    requires NoneHolds(front, '\n') && NoneHolds(back, '\n') && back != []
    ensures "" in Items(Join(front + [""] + back, '\n'))
  {
    var l := front + [""] + back;
    NoneHoldsAppend(front, [""], '\n');
    NoneHoldsAppend(front + [""], back, '\n');
    ItemsOfJoin(l);
    assert l[|front|] == "" == l[..|l| - 1][|front|];
  }

  class Processor {
    /** What the peer has been told of, or has told of itself. */
    var iHave: set<string>
    var saidGoodbye: bool

    constructor ()
      ensures iHave == {} && !saidGoodbye
    {
      iHave, saidGoodbye := {}, false;
    }
  }

  class Mover {
    const uploadOnly: bool
    const minIWant: nat
    const maxIWant: nat
    var iHave: set<string>

    constructor (uploadOnly: bool, minIWant: nat, maxIWant: nat)
      ensures this.uploadOnly == uploadOnly && this.minIWant == minIWant && this.maxIWant == maxIWant
      ensures iHave == {}
    {
      this.uploadOnly, this.minIWant, this.maxIWant := uploadOnly, minIWant, maxIWant;
      iHave := {};
    }

    method AddIHave(mmp: Processor, s: set<string>)
      modifies this, mmp
      ensures mmp.iHave == s && iHave == old(iHave) + s && mmp.saidGoodbye == old(mmp.saidGoodbye)
    {
      mmp.iHave := s;
      iHave := iHave + s;
    }

    /** The offered hashes the peer has not been told about. */
    method NewItems(mmp: Processor, m: string) returns (items: set<string>)
      ensures items == ToSet(Items(m)) - mmp.iHave
    {
      var lines, i := Items(m), 0;
      items := {};
      while i < |lines|
        invariant i <= |lines| && items == ToSet(lines[..i]) - mmp.iHave
      {
        ToSetAppend(lines[..i], lines[i]);
        assert lines[..i + 1] == lines[..i] + [lines[i]];
        if lines[i] !in mmp.iHave {
          items := items + {lines[i]};
        }
        i := i + 1;
      }
      assert lines[..i] == lines;
    }

    /** wants are the hashes the store has not seen; each other one may be asked for again by
        chance. */
    method Needed(items: set<string>, wants: set<string>) returns (needed: set<string>)
      ensures items * wants <= needed <= items
    {
      needed := {};
      var todo := items;
      while todo != {}
        invariant todo <= items && (items - todo) * wants <= needed <= items
        decreases |todo|
      {
        var i :| i in todo;
        var again: bool := *;
        if again || i in wants {
          needed := needed + {i};
        }
        todo := todo - {i};
      }
    }

    method DrawSize(n: nat) returns (iwant: nat)
      ensures IsDrawn(n, minIWant, maxIWant, iwant)
    {
      var maxiw := if maxIWant < n then maxIWant else n;
      if maxiw > minIWant {
        var r: nat :| r < maxiw - minIWant;
        iwant := r + minIWant;
      } else {
        iwant := maxiw;
      }
    }

    /** Everything from a short list, the drawn number from a long one. */
    method Pick(items: set<string>, wants: set<string>, rounds: nat) returns (needed: set<string>, done: bool)
      ensures needed <= items
      ensures |items| < minIWant ==> done && needed == items
      ensures |items| >= minIWant && done ==> IsDrawn(|items|, minIWant, maxIWant, |needed|)
    {
      done := true;
      if |items| < minIWant {
        needed := items;
      } else {
        needed := Needed(items, wants);
        var iwant := DrawSize(|items|);
        if |needed| < iwant {
          needed, done := AddRandom(needed, items, iwant, rounds);
        }
        if done {
          while |needed| > iwant
            invariant needed <= items && |needed| >= iwant
            decreases |needed|
          {
            needed := SelectRandom(needed, iwant);
          }
        }
      }
    }

    /** wanted is the reply as a list, and text the reply as it is sent. The peer's list becomes
        what is offered now, whatever is asked for. */
    method ParseIHave(mmp: Processor, m: string, wants: set<string>, rounds: nat)
      returns (done: bool, wanted: seq<string>, text: string)
      modifies this, mmp
      ensures var items := ToSet(Items(m)) - old(mmp.iHave);
        if uploadOnly || !IsList(m) || items == {} then
          && done && wanted == [] && iHave == old(iHave) && mmp.iHave == old(mmp.iHave)
          && (mmp.saidGoodbye <==> old(mmp.saidGoodbye) || (!uploadOnly && !IsList(m)))
        else
          && mmp.iHave == items && iHave == old(iHave) + items && mmp.saidGoodbye == old(mmp.saidGoodbye)
          && NoDuplicates(wanted) && ToSet(wanted) <= items
          && (|items| < minIWant ==> done && ToSet(wanted) == items)
          && (|items| >= minIWant && done ==> IsDrawn(|items|, minIWant, maxIWant, |wanted|))
      ensures Sorted(wanted) && text == JoinedBehind("", wanted, '\n')
      ensures IsList(text) && Items(text) == if "" in wanted then wanted[1..] else wanted
    {
      done, wanted, text := true, [], "";
      NoItems();
      if uploadOnly {
        return;
      }
      if !IsList(m) {
        mmp.saidGoodbye := true;
        return;
      }
      var items := NewItems(mmp, m);
      if items == {} {
        return;
      }
      AddIHave(mmp, items);
      var needed;
      needed, done := Pick(items, wants, rounds);
      wanted := Listed(needed);
      DistinctCount(wanted, needed);
      text := JoinStrings(wanted, '\n');
      ReplyIsList(m, wanted);
    }
  }
}
