/** What the lines of a configuration text mean, also where they were not written by the program:
    any keys and values, blanks and stray characters, and the errors. */
module ConfigLines {
  import opened Common
  import opened ConfigText

  // ---- Characters ----

  /** The characters that can begin a word. */
  predicate Begins(c: char) {
    '!' <= c <= '~' && c !in "+,-:=[]_`{}~"
  }

  predicate IsPlainChar(c: char, want: bool) {
    && c !in ",]}\n" && c !in "\"\\#$<>"
    && if want then c != '[' && c != '{' else c != '='
  }

  /** Text that cannot begin a word and ends nothing. */
  predicate IsLead(s: string, want: bool) {
    forall i :: 0 <= i < |s| ==> !Begins(s[i]) && IsPlainChar(s[i], want)
  }

  /** A key or a value. A value may hold an equals sign, a key an opening bracket. */
  predicate IsWord(s: string, want: bool) {
    s != [] && Begins(s[0]) && forall i :: 0 <= i < |s| ==> IsPlainChar(s[i], want)
  }

  lemma BeginsExactly(c: char)
    ensures Begins(c) <==> IsWordStart(c)
  {
    assert "+,-:=[]_`{}~" == ['+', ',', '-', ':', '=', '[', ']', '_', '`', '{', '}', '~'];
  }

  lemma PlainStep(p: Parser, c: char)
    requires IsPlainChar(c, p.want)
    ensures Step(p, c) == Running(p.(word :=
      match p.word
      case Some(w) => Some(w + [c])
      case None => if Begins(c) then Some([c]) else None))
  {
    BeginsExactly(c);
    assert ",]}\n" == [',', ']', '}', '\n'] && "\"\\#$<>" == ['"', '\\', '#', '$', '<', '>'];
    assert "" + [c] == [c];
  }

  // ---- Words ----

  lemma {:induction false} RunLead(p: Parser, s: string)
    requires p.word.None? && IsLead(s, p.want)
    ensures Run(Running(p), s) == Running(p)
  {
    if s == [] {
    } else {
      RunLead(p, s[..|s| - 1]);
      NotANewline(s[|s| - 1], p.want);
      PlainStep(p, s[|s| - 1]);
    }
  }

  lemma NotANewline(c: char, want: bool)
    requires IsPlainChar(c, want)
    ensures c != '\n'
  {
    assert ",]}\n"[3] == '\n';
  }

  lemma RunLast(s: Status, front: string, c: char)
    ensures Run(s, front + [c]) == Feed(Run(s, front), c)
  {
    assert (front + [c])[..|front|] == front;
  }

  lemma FirstChar(p: Parser, c: char)
    requires p.word.None? && Begins(c) && IsPlainChar(c, p.want)
    ensures Run(Running(p), [c]) == Running(p.(word := Some([c])))
  {
    NotANewline(c, p.want);
    PlainStep(p, c);
    RunOne(Running(p), c);
  }

  lemma NextChar(p: Parser, w: string, c: char)
    requires IsPlainChar(c, p.want)
    ensures Feed(Running(p.(word := Some(w))), c) == Running(p.(word := Some(w + [c])))
  {
    NotANewline(c, p.want);
    PlainStep(p.(word := Some(w)), c);
  }

  lemma {:induction false} RunRest(p: Parser, s: string)
    requires p.word.None? && IsWord(s, p.want)
    ensures Run(Running(p), s) == Running(p.(word := Some(s)))
  {
    var front, c := s[..|s| - 1], s[|s| - 1];
    if |s| == 1 {
      FirstChar(p, c);
      assert s == [c];
    } else {
      RunRest(p, front);
      NextChar(p, front, c);
      RunLast(Running(p), front, c);
      assert s == front + [c];
    }
  }

  // A word is everything from its first character on, up to what ends it.
  lemma RunWordBehind(p: Parser, lead: string, w: string)
    requires p.word.None? && IsLead(lead, p.want) && IsWord(w, p.want)
    ensures Run(Running(p), lead + w) == Running(p.(word := Some(w)))
  {
    RunLead(p, lead);
    RunAppend(Running(p), lead, w);
    RunRest(p, w);
  }

  // Blanks are dropped from the end of a key, all of them and nothing else.
  lemma {:induction false} TrimRightCutsBlanks(s: string)
    ensures TrimRight(s) <= s
    ensures TrimRight(s) != [] ==>
      var c := TrimRight(s)[|TrimRight(s)| - 1]; c != ' ' && !(9 <= c as int <= 13)
    ensures forall i :: |TrimRight(s)| <= i < |s| ==> s[i] == ' ' || 9 <= s[i] as int <= 13
  {
    if s == [] || !IsSpace(s[|s| - 1]) {
    } else {
      var front := s[..|s| - 1];
      TrimRightCutsBlanks(front);
      assert forall i :: 0 <= i < |front| ==> front[i] == s[i];
    }
  }

  // ---- Lines ----

  /** Between entries: nothing is wanted and no word has begun. */
  predicate BetweenEntries(p: Parser) {
    p.node.OpenMap? && !p.want && p.word.None?
  }

  lemma KeyIsRead(p: Parser, lead: string, k: string)
    requires !p.want && p.word.None? && IsLead(lead, false) && IsWord(k, false)
    ensures Run(Running(p), lead + k + "=") ==
      Running(Parser(p.stack, p.node, TrimRight(k), true, None))
  {
    RunWordBehind(p, lead, k);
    RunAppend(Running(p), lead + k, "=");
    RunOne(Running(p.(word := Some(k))), '=');
    BeginsExactly('=');
  }

  lemma ValueIsRead(p: Parser, lead: string, v: string)
    requires p.want && p.word.None? && p.node.OpenMap? && IsLead(lead, true) && IsWord(v, true)
    ensures Run(Running(p), lead + v + "\n") ==
      Running(Parser(p.stack, OpenMap(Put(p.node.entries, p.key, Str(v))), "", false, None))
  {
    RunWordBehind(p, lead, v);
    RunAppend(Running(p), lead + v, "\n");
    RunOne(Running(p.(word := Some(v))), '\n');
  }

  // A line with a key, an equals sign and a value puts exactly that into the map that is open:
  // the key without the blanks at its end, the value to the end of the line, blanks included.
  lemma {:induction false} AssignmentIsRead(p: Parser, lead: string, k: string, gap: string, v: string)
    requires BetweenEntries(p) && IsLead(lead, false) && IsWord(k, false) && IsLead(gap, true) && IsWord(v, true)
    ensures Run(Running(p), (lead + k + "=") + (gap + v + "\n")) ==
      Running(Parser(p.stack, OpenMap(Put(p.node.entries, TrimRight(k), Str(v))), "", false, None))
  {
    RunAppend(Running(p), lead + k + "=", gap + v + "\n");
    KeyIsRead(p, lead, k);
    ValueIsRead(Parser(p.stack, p.node, TrimRight(k), true, None), gap, v);
  }

  // A line without an equals sign is passed over, whatever its words, but ends the text only in
  // an error.
  lemma {:induction false} StrayWordIsDropped(p: Parser, lead: string, w: string)
    requires BetweenEntries(p) && IsLead(lead, false) && IsWord(w, false)
    ensures Run(Running(p), lead + w + "\n") == Running(p)
    ensures Finish(Run(Running(p), lead + w)) == Error
  {
    RunWordBehind(p, lead, w);
    RunAppend(Running(p), lead + w, "\n");
    RunOne(Running(p.(word := Some(w))), '\n');
  }

  // ---- Errors ----

  /** What makes a character an error: an equals sign without a key, a comma or closing bracket
      without a wanted value, a closing bracket of the wrong kind or with nothing to close. */
  predicate IsWrong(p: Parser, c: char) {
    || (c == '=' && !p.want && p.word.None?)
    || (c in ",]}" && p.want && p.word.None?)
    || (c == ']' && (p.node.OpenMap? || p.stack == []))
    || (c == '}' && (p.node.OpenList? || p.stack == []))
  }

  // A character is refused exactly when it is one of these, and not modelled exactly when it is a
  // quote, an escape, or the beginning of a comment, a command or a template.
  lemma {:induction false} RefusesExactly(p: Parser, c: char)
    ensures Step(p, c) == Failed <==> IsWrong(p, c)
    ensures Step(p, c) == Unmodelled <==> c in "\"\\#$<>"
  {
    BeginsExactly(c);
    assert ",]}" == [',', ']', '}'] && "\"\\#$<>" == ['"', '\\', '#', '$', '<', '>'];
  }

  // The end of a line is refused exactly when a value is wanted and no word has begun; the end of
  // the text also when a word has begun that nobody wants.
  lemma {:induction false} EndRefusesExactly(p: Parser)
    ensures Feed(Running(p), '\n') == Failed <==> p.want && p.word.None?
    ensures Finish(Running(p)) == Error <==> p.want == p.word.None?
  {
  }

  // Lists and maps still open at the end of the text count as closed there.
  lemma {:induction false} EndCloses(p: Parser)
    requires !p.want && p.word.None?
    ensures Finish(Running(p)) == if p.stack == [] then Ok(Freeze(p.node)) else Finish(Running(Close(p)))
  {
  }

  // ---- Storing under a key ----

  ghost predicate KeysAscend(entries: seq<Entry>) {
    forall i, j :: 0 <= i < j < |entries| ==> Less(entries[i].key, entries[j].key)
  }

  lemma {:induction false} PutMembers(entries: seq<Entry>, k: string, v: Data)
    requires KeysAscend(entries)
    ensures forall e :: e in Put(entries, k, v) <==> e == Entry(k, v) || (e in entries && e.key != k)
  {
    if entries == [] {
    } else if Less(k, entries[0].key) {
      forall e | e in entries ensures e.key != k {
        LaterKeyDiffers(entries, k, e);
      }
    } else if entries[0].key == k {
      forall e | e in entries[1..] ensures e.key != k {
        var i :| 0 < i < |entries| && entries[i] == e;
        LessIsStrict(entries[0].key, e.key);
      }
      assert entries == [entries[0]] + entries[1..];
    } else {
      PutMembers(entries[1..], k, v);
      assert entries == [entries[0]] + entries[1..];
    }
  }

  lemma LaterKeyDiffers(entries: seq<Entry>, k: string, e: Entry)
    requires KeysAscend(entries) && entries != [] && Less(k, entries[0].key) && e in entries
    ensures Less(k, e.key) && e.key != k
  {
    var i :| 0 <= i < |entries| && entries[i] == e;
    if i > 0 {
      LessIsTransitive(k, entries[0].key, e.key);
    }
    LessIsStrict(k, e.key);
  }

  // Storing under a key replaces what was there, leaves every other key alone, and keeps the keys
  // in order, so that no key is there twice.
  lemma {:induction false} PutStores(entries: seq<Entry>, k: string, v: Data)
    requires KeysAscend(entries)
    ensures KeysAscend(Put(entries, k, v))
    ensures forall e :: e in Put(entries, k, v) <==> e == Entry(k, v) || (e in entries && e.key != k)
  {
    PutMembers(entries, k, v);
    if entries == [] {
    } else if Less(k, entries[0].key) {
      forall e | e in entries ensures Less(k, e.key) {
        LaterKeyDiffers(entries, k, e);
      }
    } else if entries[0].key == k {
    } else {
      PutStores(entries[1..], k, v);
      var rest := Put(entries[1..], k, v);
      LessIsTotal(k, entries[0].key);
      forall i | 0 <= i < |rest| ensures Less(entries[0].key, rest[i].key) {
        assert rest[i] in rest;
      }
    }
  }

  // ---- The text that is written ----

  lemma TwoItems(a: Data, b: Data)
    ensures Print(List([a, b])) == "[" + Print(a) + ", " + Print(b) + "]\n"
  {
    assert [a, b][1..] == [b];
    assert PrintItems([b]) == Print(b);
  }

  lemma OneEntry(e: Entry)
    ensures PrintEntries([e]) == e.key + " = " + Print(e.value) + ",\n"
  {
    assert [e][1..] == [];
  }

  // What texts, lists and maps look like, for any words. The root goes without braces.
  lemma {:induction false} PrintedText(k: string, v: string, x: string, y: string, rest: seq<Entry>)
    ensures Print(List([Str(x), Str(y)])) == "[" + x + ", " + y + "]\n"
    ensures Print(Map([Entry(k, Str(v))])) == "{\n" + (k + " = " + v + ",\n") + "}\n"
    ensures PrintRoot(Map([Entry(k, Str(v))] + rest)) == (k + " = " + v + ",\n") + PrintEntries(rest)
    ensures Print(List([])) == "[]\n" && PrintRoot(Map([])) == ""
  {
    TwoItems(Str(x), Str(y));
    OneEntry(Entry(k, Str(v)));
    FirstEntry(Entry(k, Str(v)), rest);
  }

  lemma FirstEntry(e: Entry, rest: seq<Entry>)
    ensures PrintEntries([e] + rest) == PrintEntries([e]) + PrintEntries(rest)
  {
    assert ([e] + rest)[1..] == rest;
    OneEntry(e);
  }
}
