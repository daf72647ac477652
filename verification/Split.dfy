/** Cutting a sequence into pieces at a separator. */
module Split {

  /** The length of the first piece. */
  function End<T(==)>(s: seq<T>, sep: T): (n: nat)
    ensures n <= |s|
  {
    if s == [] || s[0] == sep then 0 else 1 + End(s[1..], sep)
  }

  /** The pieces: one more than there are separators, so a separator at the end is followed by
      an empty piece. */
  function Pieces<T(==)>(s: seq<T>, sep: T): (pieces: seq<seq<T>>)
    ensures pieces != []
    decreases |s|
  {
    var n := End(s, sep);
    [s[..n]] + if n < |s| then Pieces(s[n + 1..], sep) else []
  }

  function Join<T>(pieces: seq<seq<T>>, sep: T): seq<T> {
    if pieces == [] then []
    else if |pieces| == 1 then pieces[0]
    else pieces[0] + [sep] + Join(pieces[1..], sep)
  }

  lemma {:induction false} EndStops<T>(s: seq<T>, sep: T)
    ensures sep !in s[..End(s, sep)]
    ensures End(s, sep) < |s| ==> s[End(s, sep)] == sep
  {
    if s != [] && s[0] != sep {
      EndStops(s[1..], sep);
      assert s[..End(s, sep)] == [s[0]] + s[1..][..End(s[1..], sep)];
    }
  }

  lemma {:induction false} EndIs<T>(s: seq<T>, sep: T, n: nat)
    requires n <= |s| && (n < |s| ==> s[n] == sep) && sep !in s[..n]
    ensures End(s, sep) == n
  {
    if n == 0 {
    } else {
      assert s[0] == s[..n][0];
      assert s[1..][..n - 1] == s[..n][1..];
      EndIs(s[1..], sep, n - 1);
    }
  }

  // A first piece that has its separator stays the same when more arrives behind it.
  lemma EndOfPrefix<T>(a: seq<T>, b: seq<T>, sep: T)
    requires End(a, sep) < |a|
    ensures End(a + b, sep) == End(a, sep)
  {
    EndStops(a, sep);
    assert (a + b)[..End(a, sep)] == a[..End(a, sep)];
    EndIs(a + b, sep, End(a, sep));
  }

  lemma HeadAndTail<T>(first: T, rest: seq<T>)
    ensures ([first] + rest)[0] == first && ([first] + rest)[1..] == rest
  {
  }

  lemma JoinCons<T>(first: seq<T>, rest: seq<seq<T>>, sep: T)
    requires rest != []
    ensures Join([first] + rest, sep) == first + [sep] + Join(rest, sep)
  {
    assert ([first] + rest)[1..] == rest;
  }

  ghost predicate NoneHolds<T>(pieces: seq<seq<T>>, sep: T) {
    pieces == [] || (sep !in pieces[0] && NoneHolds(pieces[1..], sep))
  }

  lemma {:induction false} PiecesHoldNoSeparator<T>(s: seq<T>, sep: T)
    ensures NoneHolds(Pieces(s, sep), sep)
    decreases |s|
  {
    var n, pieces := End(s, sep), Pieces(s, sep);
    EndStops(s, sep);
    if n < |s| {
      PiecesHoldNoSeparator(s[n + 1..], sep);
      assert pieces[1..] == Pieces(s[n + 1..], sep);
    } else {
      assert pieces[1..] == [];
    }
  }

  lemma FirstPiece<T>(a: seq<T>, rest: seq<T>, sep: T)
    requires sep !in a
    ensures Pieces(a + [sep] + rest, sep) == [a] + Pieces(rest, sep)
  {
    var s := a + [sep] + rest;
    assert s[..|a|] == a && s[|a| + 1..] == rest;
    EndIs(s, sep, |a|);
  }

  lemma OnlyPiece<T>(a: seq<T>, sep: T)
    requires sep !in a
    ensures Pieces(a, sep) == [a]
  {
    assert a[..|a|] == a;
    EndIs(a, sep, |a|);
  }

  // Joining the pieces gives the sequence back.
  lemma {:induction false} PiecesJoin<T>(s: seq<T>, sep: T)
    ensures Join(Pieces(s, sep), sep) == s
    decreases |s|
  {
    var n := End(s, sep);
    EndStops(s, sep);
    if n < |s| {
      assert s == s[..n] + [sep] + s[n + 1..];
      PiecesJoin(s[n + 1..], sep);
      JoinFirst(s[..n], s[n + 1..], sep);
    } else {
      assert s[..n] == s;
      OnlyPiece(s, sep);
    }
  }

  lemma JoinFirst<T>(first: seq<T>, rest: seq<T>, sep: T)
    requires sep !in first && Join(Pieces(rest, sep), sep) == rest
    ensures Join(Pieces(first + [sep] + rest, sep), sep) == first + [sep] + rest
  {
    FirstPiece(first, rest, sep);
    JoinCons(first, Pieces(rest, sep), sep);
  }

  // No other pieces without separators join to the same sequence.
  lemma {:induction false} PiecesAreUnique<T>(pieces: seq<seq<T>>, sep: T)
    requires pieces != [] && NoneHolds(pieces, sep)
    ensures Pieces(Join(pieces, sep), sep) == pieces
    decreases |pieces|
  {
    var rest := pieces[1..];
    if rest == [] {
      OnlyPiece(pieces[0], sep);
      assert pieces == [pieces[0]];
    } else {
      FirstPiece(pieces[0], Join(rest, sep), sep);
      PiecesAreUnique(rest, sep);
      assert pieces == [pieces[0]] + rest;
    }
  }

  lemma Associate<T>(a: seq<T>, b: seq<T>, c: seq<T>)
    ensures a + b + c == a + (b + c)
  {
  }
}
