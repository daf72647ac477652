/** The hash store keeps each file in a tree of directories, two characters of its hash to a
    level. What it amounts to is a flat map from hashes to contents. */
module HashTree {
  import opened Common

  type Path = seq<string>

  datatype Node = Dir | File(data: string)

  const MAX_LENGTH := 128 * 1024

  predicate IsHex(c: char) {
    '0' <= c <= '9' || 'A' <= c <= 'F'
  }

  predicate IsHex2(name: string) {
    |name| == 2 && IsHex(name[0]) && IsHex(name[1])
  }

  /** Names that are not two hex digits are skipped wherever the tree is walked. */
  predicate IsHexPath(p: Path) {
    p == [] || (IsHex2(p[|p| - 1]) && IsHexPath(p[..|p| - 1]))
  }

  /** A hash for a tree of n levels. */
  predicate IsHash(h: string, n: nat) {
    |h| == 2 * n && (n == 0 || (IsHex2(h[2 * n - 2..]) && IsHash(h[..2 * n - 2], n - 1)))
  }

  /** The path of a hash. */
  function PathOf(h: string, n: nat): (p: Path)
    requires |h| == 2 * n
    ensures |p| == n
  {
    if n == 0 then [] else PathOf(h[..2 * n - 2], n - 1) + [h[2 * n - 2..]]
  }

  function Joined(p: Path): string {
    if p == [] then "" else Joined(p[..|p| - 1]) + p[|p| - 1]
  }

  // Hashes and the paths of hex names at the bottom level are one to one.
  lemma {:induction false} PathRoundTrip(h: string, n: nat)
    requires IsHash(h, n)
    ensures IsHexPath(PathOf(h, n)) && Joined(PathOf(h, n)) == h
  {
    if n == 0 {
    } else {
      PathRoundTrip(h[..2 * n - 2], n - 1);
      assert PathOf(h, n)[..n - 1] == PathOf(h[..2 * n - 2], n - 1);
    }
  }

  lemma OneMoreName(h: string, name: string, n: nat)
    requires IsHash(h, n) && IsHex2(name)
    ensures IsHash(h + name, n + 1) && PathOf(h + name, n + 1) == PathOf(h, n) + [name]
  {
    var g := h + name;
    assert g[..2 * n] == h && g[2 * n..] == name;
  }

  lemma {:induction false} HashRoundTrip(p: Path)
    requires IsHexPath(p)
    ensures IsHash(Joined(p), |p|) && PathOf(Joined(p), |p|) == p
  {
    if p == [] {
    } else {
      var n := |p| - 1;
      HashRoundTrip(p[..n]);
      OneMoreName(Joined(p[..n]), p[n], n);
      assert p == p[..n] + [p[n]];
    }
  }

  lemma {:induction false} PrefixIsHexPath(p: Path, k: nat)
    requires IsHexPath(p) && k <= |p|
    ensures IsHexPath(p[..k])
  {
    if k < |p| {
      PrefixIsHexPath(p[..|p| - 1], k);
      assert p[..|p| - 1][..k] == p[..k];
    } else {
      assert p[..k] == p;
    }
  }

  // The next name on the way down is cut off the front of what is left of the hash.
  lemma {:induction false} PathStep(h: string, n: nat, k: nat)
    requires |h| == 2 * n && k < n
    ensures PathOf(h, n)[..k + 1] == PathOf(h, n)[..k] + [h[2 * k..2 * k + 2]]
  {
    var front := h[..2 * n - 2];
    if k < n - 1 {
      PathStep(front, n - 1, k);
      assert front[2 * k..2 * k + 2] == h[2 * k..2 * k + 2];
      assert PathOf(h, n)[..k + 1] == PathOf(front, n - 1)[..k + 1];
      assert PathOf(h, n)[..k] == PathOf(front, n - 1)[..k];
    } else {
      assert h[2 * k..2 * k + 2] == h[2 * n - 2..];
      assert PathOf(h, n)[..n] == PathOf(h, n) && PathOf(h, n)[..k] == PathOf(front, n - 1);
    }
  }

  /** A digit or one of the letters from A to F, by its code. */
  predicate IsHexDigit(c: char) {
    48 <= c as int <= 57 || 65 <= c as int <= 70
  }

  predicate AllHexDigits(h: string) {
    forall i :: 0 <= i < |h| ==> IsHexDigit(h[i])
  }

  lemma AllHexParts(h: string, k: nat)
    requires k <= |h|
    ensures AllHexDigits(h) <==> AllHexDigits(h[..k]) && AllHexDigits(h[k..])
  {
    if AllHexDigits(h[..k]) && AllHexDigits(h[k..]) {
      forall i | 0 <= i < |h| ensures IsHexDigit(h[i]) {
        assert h[i] == if i < k then h[..k][i] else h[k..][i - k];
      }
    }
  }

  lemma NameIsHexDigits(name: string)
    requires |name| == 2
    ensures IsHex2(name) <==> AllHexDigits(name)
  {
    assert AllHexDigits(name) ==> IsHexDigit(name[0]) && IsHexDigit(name[1]);
  }

  lemma HashStep(h: string, n: nat)
    requires |h| == 2 * n && n > 0
    ensures IsHash(h, n) <==> IsHex2(h[2 * n - 2..]) && IsHash(h[..2 * n - 2], n - 1)
  {
  }

  // A hash is nothing but upper-case hex digits.
  lemma {:induction false} HashIsHexDigits(h: string, n: nat)
    requires |h| == 2 * n
    ensures IsHash(h, n) <==> AllHexDigits(h)
  {
    if n == 0 {
    } else {
      HashStep(h, n);
      HashIsHexDigits(h[..2 * n - 2], n - 1);
      NameIsHexDigits(h[2 * n - 2..]);
      AllHexParts(h, 2 * n - 2);
    }
  }

  // Its file is found by two of its digits to a name.
  lemma PathNames(h: string, n: nat, k: nat)
    requires |h| == 2 * n && k < n
    ensures PathOf(h, n)[k] == [h[2 * k], h[2 * k + 1]]
  {
    PathStep(h, n, k);
    assert PathOf(h, n)[..k + 1][k] == h[2 * k..2 * k + 2];
  }

  datatype Outcome = Stored | Exists | ShortWrite

  lemma PathsDiffer(g: string, h: string, n: nat)
    requires IsHash(g, n) && IsHash(h, n) && g != h
    ensures PathOf(g, n) != PathOf(h, n)
  {
    PathRoundTrip(g, n);
    PathRoundTrip(h, n);
  }

  function Content(files: map<Path, Node>, p: Path): Option<string> {
    if p in files && files[p].File? then Some(files[p].data) else None
  }

  lemma DirectoriesStoreNothing(before: map<Path, Node>, after: map<Path, Node>, n: nat, p: Path)
    requires MoreDirectories(before, after, n)
    ensures Content(after, p) == Content(before, p)
  {
  }

  class HashFileStore {
    /** How many names a path to a file has: half the length of a hash. */
    const n: nat
    var files: map<Path, Node>
    var hashes: set<string>

    /** Along paths of hex names, directories above and files at the bottom, none without the
        directory it is in. Other names in the tree may be anything. */
    ghost predicate Valid()
      reads this
    {
      && n >= 1 && [] in files
      && forall p :: p in files && IsHexPath(p) ==>
          && |p| <= n && (files[p].File? <==> |p| == n)
          && (p != [] ==> p[..|p| - 1] in files)
    }

    constructor (n: nat)
      requires n >= 1
      ensures Valid() && this.n == n && hashes == {} && forall h :: IsHash(h, n) ==> At(h) == None
    {
      this.n, files, hashes := n, map[[] := Dir], {};
    }

    /** The content stored under a hash. */
    ghost function At(h: string): Option<string>
      reads this
      requires Valid() && IsHash(h, n)
    {
      Content(files, PathOf(h, n))
    }

    lemma NamesAreWhatIsStored(h: string)
      requires Valid()
      ensures h in Names(files, n, []) <==> IsHash(h, n) && At(h).Some?
    {
      if IsHash(h, n) {
        PathRoundTrip(h, n);
      }
      if h in Names(files, n, []) {
        var p :| p in files && IsHexPath(p) && |p| == n && h == Joined(p);
        HashRoundTrip(p);
      }
    }

    lemma {:induction false} AncestorsExist(p: Path, k: nat)
      requires Valid() && p in files && IsHexPath(p) && k <= |p|
      ensures p[..k] in files
      decreases |p|
    {
      if k < |p| {
        AncestorsExist(p[..|p| - 1], k);
        assert p[..|p| - 1][..k] == p[..k];
      } else {
        assert p[..k] == p;
      }
    }

    /** One level down; a missing directory is made if asked for. */
    method Enter(dir: Path, name: string, create: bool) returns (sub: Option<Path>)
      requires Valid() && dir in files && |dir| + 1 < n && IsHexPath(dir + [name])
      modifies `files
      ensures Valid() && MoreDirectories(old(files), files, n) && (!create ==> files == old(files))
      ensures sub.Some? ==> sub.value == dir + [name] && sub.value in files
      ensures sub.None? ==> !create && dir + [name] !in files
    {
      var p := dir + [name];
      assert p[..|dir|] == dir;
      if p !in files {
        if !create {
          return None;
        }
        files := files[p := Dir];
      }
      sub := Some(p);
    }

    /** Walks down to the directory a hash's file is in, making directories if asked to. */
    method FindDirectoryFor(h0: string, create: bool) returns (d: Option<Path>)
      requires Valid() && IsHash(h0, n)
      modifies `files
      ensures Valid() && MoreDirectories(old(files), files, n) && (!create ==> files == old(files))
      ensures d.Some? ==> d.value == PathOf(h0, n)[..n - 1] && d.value in files
      ensures d.None? ==> !create && PathOf(h0, n)[..n - 1] !in files
    {
      ghost var path, k := PathOf(h0, n), 0;
      PathRoundTrip(h0, n);
      var h, dir := h0, [];
      while |h| > 2
        invariant k < n && dir == path[..k] && h == h0[2 * k..] && dir in files
        invariant Valid() && MoreDirectories(old(files), files, n) && (!create ==> files == old(files))
        decreases |h|
      {
        ghost var before := files;
        GoDown(h0, n, k);
        var sub := Enter(dir, h[..2], create);
        StillMore(old(files), before, files, n);
        if sub.None? {
          NoPath(path, k + 1);
          return None;
        }
        dir := sub.value;
        h := h[2..];
        k := k + 1;
      }
      d := Some(dir);
    }

    lemma NoPath(path: Path, k: nat)
      requires Valid() && IsHexPath(path) && |path| == n && k < n && path[..k] !in files
      ensures path[..n - 1] !in files
    {
      if path[..n - 1] in files {
        assert path[..n - 1][..k] == path[..k];
        PrefixIsHexPath(path, n - 1);
        AncestorsExist(path[..n - 1], k);
      }
    }

    lemma InDirectory(h: string)
      requires IsHash(h, n) && n >= 1
      ensures PathOf(h, n) == PathOf(h, n)[..n - 1] + [h[2 * n - 2..]]
      ensures PathOf(h, n)[..n] == PathOf(h, n)
    {
      PathStep(h, n, n - 1);
      assert h[2 * n - 2..2 * n] == h[2 * n - 2..];
    }

    // A file is in the directory that the walk finds.
    lemma WhereItIs(h: string)
      requires Valid() && IsHash(h, n)
      ensures PathOf(h, n)[..n - 1] + [h[2 * n - 2..]] == PathOf(h, n)
      ensures At(h).Some? <==> PathOf(h, n) in files
      ensures At(h).Some? ==> PathOf(h, n)[..n - 1] in files && files[PathOf(h, n)] == File(At(h).value)
    {
      InDirectory(h);
      PathRoundTrip(h, n);
      assert |PathOf(h, n)| - 1 == n - 1;
    }

    method GetData(hash: string) returns (data: string)
      requires Valid() && IsHash(hash, n)
      modifies `files
      ensures Valid() && files == old(files)
      ensures data == match At(hash) case None => "" case Some(x) => if |x| <= 131072 then x else x[..131072]
    {
      var d := FindDirectoryFor(hash, false);
      WhereItIs(hash);
      if d.None? {
        return "";
      }
      var p := d.value + [hash[|hash| - 2..]];
      if p !in files {
        return "";
      }
      var x := files[p].data;
      data := if |x| <= MAX_LENGTH then x else x[..MAX_LENGTH];
    }

    method Seen(hash: string) returns (seen: bool)
      requires Valid() && IsHash(hash, n)
      modifies `files
      ensures Valid() && files == old(files)
      ensures seen <==> hash in hashes || At(hash).Some?
    {
      if hash in hashes {
        return true;
      }
      var d := FindDirectoryFor(hash, false);
      WhereItIs(hash);
      if d.None? {
        return false;
      }
      seen := d.value + [hash[|hash| - 2..]] in files;
    }

    /** The path for a hash, with all its directories made. */
    method MakePathFor(hash: string) returns (p: Path)
      requires Valid() && IsHash(hash, n)
      modifies `files
      ensures Valid() && p == PathOf(hash, n) && p[..n - 1] in files
      ensures p in files <==> At(hash).Some?
      ensures forall g :: IsHash(g, n) ==> At(g) == old(At(g))
    {
      var d := FindDirectoryFor(hash, true);
      WhereItIs(hash);
      forall g | IsHash(g, n) ensures At(g) == old(At(g)) {
        DirectoriesStoreNothing(old(files), files, n, PathOf(g, n));
      }
      p := d.value + [hash[|hash| - 2..]];
    }

    /** Opens the file, creating it if it is not there, and writes from its beginning. */
    method WriteFile(p: Path, ghost hash: string, data: string)
      requires Valid() && IsHash(hash, n) && p == PathOf(hash, n) && p[..n - 1] in files
      modifies `files
      ensures Valid() && At(hash) == Some(Overwritten(old(At(hash)), data))
      ensures forall g :: IsHash(g, n) && g != hash ==> At(g) == old(At(g))
    {
      PathRoundTrip(hash, n);
      var was := Content(files, p);
      files := files[p := File(Overwritten(was, data))];
      forall g | IsHash(g, n) && g != hash ensures At(g) == old(At(g)) {
        PathsDiffer(g, hash, n);
      }
    }

    /** written says how many of the bytes the disk takes. A file that is overwritten keeps what
        is behind the new content. */
    method WriteData(data: string, hash: string, overwrite: bool, written: nat) returns (r: Outcome)
      requires Valid() && IsHash(hash, n) && written <= |data|
      modifies this
      ensures Valid()
      ensures r == if !overwrite && old(At(hash)).Some? then Exists
                   else if written < |data| then ShortWrite else Stored
      ensures r == Exists ==> At(hash) == old(At(hash))
      ensures r != Exists ==> At(hash) == Some(Overwritten(old(At(hash)), data[..written]))
      ensures r != Exists ==> At(hash).Some? && data[..written] <= At(hash).value
      ensures r != Exists && old(At(hash)).None? ==> |At(hash).value| == written
      ensures r != Exists && old(At(hash)).Some? ==>
        var x := old(At(hash)).value;
        |At(hash).value| == Max(|x|, written) && (written <= |x| ==> At(hash).value[written..] == x[written..])
      ensures forall g :: IsHash(g, n) && g != hash ==> At(g) == old(At(g))
      ensures hashes == if r == Stored then old(hashes) + {hash} else old(hashes)
    {
      var p := MakePathFor(hash);
      if !overwrite && p in files {
        return Exists;
      }
      WriteFile(p, hash, data[..written]);
      if written < |data| {
        return ShortWrite;
      }
      hashes := hashes + {hash};
      r := Stored;
    }

    lemma NamesBelowSplit(es: set<Path>, e: Path)
      requires e in es
      ensures NamesBelow(files, n, es) == NamesBelow(files, n, es - {e}) + Names(files, n, e)
    {
      forall p | UnderAny(es, p) ensures UnderAny(es - {e}, p) || e <= p {
        var x :| x in es && x <= p;
        assert x != e ==> x in es - {e};
      }
      forall p | UnderAny(es - {e}, p) || e <= p ensures UnderAny(es, p) {
        if UnderAny(es - {e}, p) {
          var x :| x in es - {e} && x <= p;
          assert x in es;
        }
      }
    }

    /** The entries of a directory with hex names. */
    function Entries(d: Path): set<Path>
      reads this
    {
      set p | p in files && |p| == |d| + 1 && p[..|d|] == d && IsHex2(p[|d|])
    }

    // The way to a file leads through an entry of each directory above it.
    lemma EntryOnTheWay(d: Path, p: Path)
      requires Valid() && p in files && IsHexPath(p) && d <= p && |d| < |p|
      ensures p[..|d| + 1] in Entries(d)
    {
      var e := p[..|d| + 1];
      AncestorsExist(p, |d| + 1);
      PrefixIsHexPath(p, |d| + 1);
      assert e[|e| - 1] == e[|d|] && e[..|d|] == d;
    }

    lemma EntryIsBelow(d: Path, e: Path)
      requires e in Entries(d) && IsHexPath(d)
      ensures IsHexPath(e) && d <= e && e == d + [e[|d|]] && Joined(e) == Joined(d) + e[|d|]
    {
      assert e[|e| - 1] == e[|d|] && e[..|e| - 1] == d;
    }

    lemma EntriesHoldAll(d: Path)
      requires Valid() && d in files && IsHexPath(d) && |d| < n
      ensures NamesBelow(files, n, Entries(d)) == Names(files, n, d)
    {
      forall p | IsFile(files, n, p) ensures UnderAny(Entries(d), p) <==> d <= p {
        EntriesHoldFile(d, p);
      }
    }

    lemma {:induction false} EntriesHoldFile(d: Path, p: Path)
      requires Valid() && IsHexPath(d) && |d| < n && IsFile(files, n, p)
      ensures UnderAny(Entries(d), p) <==> d <= p
    {
      if d <= p {
        EntryOnTheWay(d, p);
        assert p[..|d| + 1] <= p;
      }
      if UnderAny(Entries(d), p) {
        var e :| e in Entries(d) && e <= p;
        EntryIsBelow(d, e);
      }
    }

    lemma FileIsItsOwnName(e: Path)
      requires e in files && IsHexPath(e) && |e| == n
      ensures Names(files, n, e) == {Joined(e)}
    {
      forall h | h in Names(files, n, e) ensures h == Joined(e) {
        var p :| p in files && IsHexPath(p) && e <= p && |p| == n && h == Joined(p);
        assert p == e;
      }
      assert e <= e;
    }

    lemma NothingBelow()
      ensures NamesBelow(files, n, {}) == {}
    {
    }

    /** Collects the hashes of all files below a directory. */
    method AssembleHashes(d: Path, prefix: string)
      requires Valid() && d in files && IsHexPath(d) && |d| < n && prefix == Joined(d)
      modifies `hashes
      ensures hashes == old(hashes) + Names(files, n, d)
      decreases n - |d|, 1
    {
      ghost var all, left := old(hashes) + Names(files, n, d), Names(files, n, d);
      var todo := Entries(d);
      EntriesHoldAll(d);
      while todo != {}
        invariant todo <= Entries(d) && left == NamesBelow(files, n, todo)
        invariant hashes + left == all
        decreases |todo|
      {
        var e :| e in todo;
        ghost var rest := NamesBelow(files, n, todo - {e});
        NamesBelowSplit(todo, e);
        Regroup(hashes, rest, Names(files, n, e));
        CollectEntry(d, prefix, e);
        todo, left := todo - {e}, rest;
      }
      NothingBelow();
    }

    /** A file is a hash, a directory is gone into. */
    method CollectEntry(d: Path, prefix: string, e: Path)
      requires Valid() && IsHexPath(d) && |d| < n && prefix == Joined(d) && e in Entries(d)
      modifies `hashes
      ensures hashes == old(hashes) + Names(files, n, e)
      decreases n - |d|, 0
    {
      EntryIsBelow(d, e);
      if files[e].Dir? {
        AssembleHashes(e, prefix + e[|d|]);
      } else {
        FileIsItsOwnName(e);
        hashes := hashes + {prefix + e[|d|]};
      }
    }

    /** Rebuilding the set of hashes finds exactly what is stored. */
    method Rebuild()
      requires Valid()
      modifies `hashes
      ensures hashes == Names(files, n, [])
      ensures forall h :: h in hashes <==> IsHash(h, n) && At(h).Some?
    {
      hashes := {};
      AssembleHashes([], "");
      forall h ensures h in hashes <==> IsHash(h, n) && At(h).Some? {
        NamesAreWhatIsStored(h);
      }
    }
  }

  /** What a file holds after new content is written over its beginning. */
  function Overwritten(was: Option<string>, data: string): string {
    match was
    case None => data
    case Some(x) => if |x| <= |data| then data else data + x[|data|..]
  }

  ghost predicate IsFile(files: map<Path, Node>, n: nat, p: Path) {
    p in files && IsHexPath(p) && |p| == n
  }

  /** The hashes of the files below a directory. */
  ghost function Names(files: map<Path, Node>, n: nat, d: Path): set<string> {
    set p | p in files && IsFile(files, n, p) && d <= p :: Joined(p)
  }

  /** The hashes below any of some entries. */
  ghost function NamesBelow(files: map<Path, Node>, n: nat, es: set<Path>): set<string> {
    set p | p in files && IsFile(files, n, p) && UnderAny(es, p) :: Joined(p)
  }

  ghost predicate UnderAny(es: set<Path>, p: Path) {
    exists e :: e in es && e <= p
  }

  lemma Regroup(a: set<string>, b: set<string>, c: set<string>)
    ensures a + (b + c) == (a + c) + b
  {
  }

  lemma GoDown(h: string, n: nat, k: nat)
    requires IsHash(h, n) && k < n
    ensures var path, rest := PathOf(h, n), h[2 * k..];
            && path[..k + 1] == path[..k] + [rest[..2]] && IsHexPath(path[..k + 1])
            && rest[2..] == h[2 * (k + 1)..]
  {
    PathStep(h, n, k);
    PathRoundTrip(h, n);
    PrefixIsHexPath(PathOf(h, n), k + 1);
    assert h[2 * k..][..2] == h[2 * k..2 * k + 2];
  }

  lemma StillMore(a: map<Path, Node>, b: map<Path, Node>, c: map<Path, Node>, n: nat)
    requires MoreDirectories(a, b, n) && MoreDirectories(b, c, n)
    ensures MoreDirectories(a, c, n)
  {
  }

  /** Nothing but directories has come in, and nothing has changed. */
  ghost predicate MoreDirectories(before: map<Path, Node>, after: map<Path, Node>, n: nat) {
    && (forall p :: p in before ==> p in after && after[p] == before[p])
    && (forall p :: p in after && p !in before ==> |p| < n && after[p] == Dir)
  }
}
