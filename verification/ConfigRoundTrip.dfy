/** Which configuration data survives being written and read back: exactly that in which keys
    and strings are non-empty and lists hold at least one element and only strings. */
module ConfigRoundTrip {
  import opened Common
  import opened ConfigText

  ghost predicate AllAlnum(s: string) {
    forall c :: c in s ==> IsAlnum(c)
  }

  /** Strings of letters and digits only, possibly empty. */
  ghost predicate Plain(d: Data)
    decreases d, 0
  {
    match d
    case Str(s) => AllAlnum(s)
    case List(items) => PlainItems(items)
    case Map(entries) => PlainEntries(entries)
  }

  ghost predicate PlainItems(items: seq<Data>)
    decreases items, 0
  {
    items == [] || (Plain(items[0]) && PlainItems(items[1..]))
  }

  ghost predicate PlainEntries(entries: seq<Entry>)
    decreases entries, 0
  {
    entries == [] ||
    (AllAlnum(entries[0].key) && Plain(entries[0].value) && PlainEntries(entries[1..]))
  }

  /** The entries of every map are in key order and no key occurs twice, as in a sorted map. */
  ghost predicate Ordered(d: Data)
    decreases d, 0
  {
    match d
    case Str(_) => true
    case List(items) => OrderedItems(items)
    case Map(entries) => OrderedEntries(entries)
  }

  ghost predicate OrderedItems(items: seq<Data>)
    decreases items, 0
  {
    items == [] || (Ordered(items[0]) && OrderedItems(items[1..]))
  }

  ghost predicate OrderedEntries(entries: seq<Entry>)
    decreases entries, 0
  {
    entries == [] ||
    (Ordered(entries[0].value) && (|entries| > 1 ==> Less(entries[0].key, entries[1].key))
     && OrderedEntries(entries[1..]))
  }

  /** Values that can be read back where they stand. */
  ghost predicate Printable(d: Data)
    decreases d, 0
  {
    match d
    case Str(s) => s != []
    case List(items) => items != [] && AllStrings(items)
    case Map(entries) => PrintableEntries(entries)
  }

  ghost predicate AllStrings(items: seq<Data>) {
    forall x :: x in items ==> x.Str? && x.s != []
  }

  ghost predicate PrintableEntry(e: Entry)
    decreases e, 1
  {
    e.key != [] && Printable(e.value)
  }

  ghost predicate PrintableEntries(entries: seq<Entry>)
    decreases entries, 0
  {
    entries == [] || (PrintableEntry(entries[0]) && PrintableEntries(entries[1..]))
  }

  // ---- Words and keys ----

  lemma StepAlnum(p: Parser, c: char)
    requires IsAlnum(c)
    ensures Step(p, c) == Running(p.(word := Some((if p.word.Some? then p.word.value else "") + [c])))
  {
  }

  lemma StepBlank(p: Parser)
    ensures Step(p, ' ') == Running(p.(word := Grown(p.word, ' ')))
  {
  }

  // A run of letters and digits is collected as a word.
  lemma {:induction false} RunWord(p: Parser, s: string)
    requires AllAlnum(s) && s != [] && p.word.None?
    ensures Run(Running(p), s) == Running(p.(word := Some(s)))
    decreases |s|
  {
    var n := |s| - 1;
    var front, last := s[..n], s[n];
    assert s == front + [last];
    if front == [] {
      StepAlnum(p, last);
      assert Run(Running(p), front) == Running(p);
    } else {
      assert AllAlnum(front);
      RunWord(p, front);
      StepAlnum(p.(word := Some(front)), last);
    }
  }

  lemma {:induction false} TrimPlain(s: string)
    requires s != [] && AllAlnum(s)
    ensures TrimRight(s + " ") == s
  {
    assert (s + " ")[..|s|] == s;
    assert s[|s| - 1] in s;
  }

  // The machine between two entries of a map.
  ghost predicate AtEntry(p: Parser) {
    p.node.OpenMap? && p.key == [] && !p.want && p.word.None?
  }

  // The machine inside a list, before an element.
  ghost predicate AtItem(p: Parser) {
    p.node.OpenList? && p.key == [] && p.want && p.word.None? && p.stack != []
  }

  // The machine where a map value is expected.
  ghost predicate AtValue(p: Parser) {
    p.node.OpenMap? && p.want && p.word.None?
  }

  lemma StepEquals(p: Parser)
    requires !p.want
    ensures p.word.None? ==> Step(p, '=') == Failed
    ensures p.word.Some? ==> Step(p, '=') == Running(p.(key := TrimRight(p.word.value), word := None, want := true))
  {
  }

  // The blank, equals sign and blank after a key.
  lemma RunEquals(p: Parser)
    requires !p.want
    ensures p.word.None? ==> Run(Running(p), " = ") == Failed
    ensures p.word.Some? ==>
      Run(Running(p), " = ") == Running(p.(key := TrimRight(p.word.value + " "), word := None, want := true))
  {
    var q := p.(word := Grown(p.word, ' '));
    StepBlank(p);
    StepEquals(q);
    RunOne(Running(p), ' ');
    assert " = " == [' '] + ['=', ' '];
    RunAppend(Running(p), [' '], ['=', ' ']);
    RunTwo(Running(q), '=', ' ');
    if p.word.Some? {
      StepBlank(q.(key := TrimRight(q.word.value), word := None, want := true));
    }
  }

  lemma RunKey(p: Parser, k: string)
    requires AtEntry(p) && AllAlnum(k)
    ensures k == [] ==> Run(Running(p), k + " = ") == Failed
    ensures k != [] ==> Run(Running(p), k + " = ") == Running(p.(key := k, want := true))
  {
    if k == [] {
      assert k + " = " == " = ";
      RunEquals(p);
    } else {
      RunWord(p, k);
      RunAppend(Running(p), k, " = ");
      RunEquals(p.(word := Some(k)));
      TrimPlain(k);
    }
  }

  // ---- Lists ----

  /** The machine after the closing bracket of the current node. */
  function Closed(p: Parser): Parser
    requires p.stack != []
  {
    Close(p).(want := Close(p).node.OpenList?, word := None)
  }

  lemma StepItemEnd(p: Parser, c: char)
    requires p.node.OpenList? && p.want && p.stack != [] && (c == ',' || c == ']')
    ensures p.word.None? ==> Step(p, c) == Failed
    ensures p.word.Some? ==>
      var q := AddValue(p, Str(p.word.value)).(word := None);
      Step(p, c) == Running(if c == ',' then q else Closed(q))
  {
  }

  lemma RunSeparator(p: Parser)
    requires p.node.OpenList? && p.want && p.stack != []
    ensures p.word.None? ==> Run(Running(p), ", ") == Failed
    ensures p.word.Some? ==> Run(Running(p), ", ") == Running(AddValue(p, Str(p.word.value)).(word := None))
  {
    StepItemEnd(p, ',');
    assert ", " == [',', ' '];
    RunTwo(Running(p), ',', ' ');
    if p.word.Some? {
      StepBlank(AddValue(p, Str(p.word.value)).(word := None));
    }
  }

  /** The state after reading the rest of a list's elements and its closing bracket. */
  ghost function AfterList(p: Parser, items: seq<Data>): Status
    requires AtItem(p)
  {
    if items != [] && AllStrings(items) then Running(Closed(p.(node := OpenList(p.node.items + items))))
    else Failed
  }

  /** What follows an element: the bracket, or the separator and the other elements. */
  function AfterItem(items: seq<Data>): string
    requires items != []
  {
    if |items| == 1 then "]" else ", " + (PrintItems(items[1..]) + "]")
  }

  lemma {:induction false} RunListBody(p: Parser, items: seq<Data>)
    requires AtItem(p) && PlainItems(items) && OrderedItems(items)
    ensures Run(Running(p), PrintItems(items) + "]") == AfterList(p, items)
    decreases items, 0
  {
    if items == [] {
      StepItemEnd(p, ']');
      RunOne(Running(p), ']');
      assert PrintItems(items) + "]" == [']'];
    } else {
      RunAppend(Running(p), Print(items[0]), AfterItem(items));
      assert PrintItems(items) + "]" == Print(items[0]) + AfterItem(items);
      if items[0].Str? {
        var s := items[0].s;
        var q := if s == [] then p else p.(word := Some(s));
        if s != [] {
          RunWord(p, s);
        }
        assert Run(Running(p), Print(items[0])) == Running(q);
        RunAfterItem(p, q, items);
      } else {
        RunContainer(p, items[0]);
        RunStopped(Failed, AfterItem(items));
        assert items[0] in items;
      }
    }
  }

  lemma RunAfterLast(p: Parser, q: Parser, items: seq<Data>)
    requires AtItem(p) && |items| == 1 && items[0].Str?
    requires q == if items[0].s == [] then p else p.(word := Some(items[0].s))
    ensures Run(Running(q), "]") == AfterList(p, items)
  {
    StepItemEnd(q, ']');
    RunOne(Running(q), ']');
    assert items == [items[0]];
  }

  lemma AfterMoreItems(p: Parser, x: Data, items: seq<Data>)
    requires AtItem(p) && |items| > 1 && x == items[0] && x.Str? && x.s != []
    ensures AfterList(p.(node := OpenList(p.node.items + [x])), items[1..]) == AfterList(p, items)
  {
    assert p.node.items + [x] + items[1..] == p.node.items + items;
    assert AllStrings(items) <==> AllStrings(items[1..]);
  }

  lemma {:induction false} RunAfterItem(p: Parser, q: Parser, items: seq<Data>)
    requires AtItem(p) && PlainItems(items) && OrderedItems(items) && items != [] && items[0].Str?
    requires q == if items[0].s == [] then p else p.(word := Some(items[0].s))
    ensures Run(Running(q), AfterItem(items)) == AfterList(p, items)
    decreases items[1..], 1
  {
    var x := items[0];
    if |items| == 1 {
      RunAfterLast(p, q, items);
    } else {
      var rest := PrintItems(items[1..]) + "]";
      RunAppend(Running(q), ", ", rest);
      RunSeparator(q);
      if x.s == [] {
        RunStopped(Failed, rest);
        assert x in items;
      } else {
        RunListBody(p.(node := OpenList(p.node.items + [x])), items[1..]);
        AfterMoreItems(p, x, items);
      }
    }
  }

  // ---- Containers and maps ----

  lemma StepOpen(p: Parser, c: char)
    requires p.want && p.word.None? && (c == '[' || c == '{')
    ensures Step(p, c) == Running(Open(p, if c == '[' then OpenList([]) else OpenMap([]), c == '[', None))
  {
  }

  lemma StepMapEnd(p: Parser, c: char)
    requires p.node.OpenMap? && !p.want && (c == ',' || (c == '}' && p.stack != []))
    ensures Step(p, c) == Running(if c == ',' then p.(word := None) else Closed(p.(word := None)))
  {
  }

  /** The state after a whole list or map where a value was wanted. */
  ghost function AfterContainer(p: Parser, d: Data): Status {
    if p.node.OpenMap? && Printable(d) then
      Running(p.(node := AddTo(p.node, p.key, d), key := "", want := false))
    else Failed
  }

  lemma {:induction false} RunContainer(p: Parser, d: Data)
    requires AtItem(p) || AtValue(p)
    requires !d.Str? && Plain(d) && Ordered(d)
    ensures Run(Running(p), Print(d)) == AfterContainer(p, d)
    decreases d, 0
  {
    match d
    case List(items) =>
      var p1 := Open(p, OpenList([]), true, None);
      RunListBody(p1, items);
      RunBrackets(p, p1, items);
    case Map(entries) =>
      var p1 := Open(p, OpenMap([]), false, None);
      RunEntries(p1, entries);
      RunBraces(p, p1, entries);
  }

  // Closing what was opened under p and ending the line puts it where p wanted a value, and
  // fails when that is a list: there another element is wanted and none is there.
  lemma CloseAndEndLine(p: Parser, p1: Parser, node: Node)
    requires AtItem(p) || AtValue(p)
    requires p1.stack == p.stack + [Frame(p.node, p.key)] && p1.key == []
    ensures Feed(Running(Closed(p1.(node := node))), '\n') ==
      if p.node.OpenMap? then Running(p.(node := AddTo(p.node, p.key, Freeze(node)), key := "", want := false))
      else Failed
  {
    assert p1.stack[..|p.stack|] == p.stack;
    assert Closed(p1.(node := node)) ==
      p.(node := AddTo(p.node, p.key, Freeze(node)), key := "", want := p.node.OpenList?, word := None);
  }

  lemma RunEndOfList(p: Parser, p1: Parser, items: seq<Data>)
    requires (AtItem(p) || AtValue(p)) && p1 == Open(p, OpenList([]), true, None)
    ensures Run(AfterList(p1, items), ['\n']) == AfterContainer(p, List(items))
  {
    RunOne(AfterList(p1, items), '\n');
    assert [] + items == items;
    CloseAndEndLine(p, p1, OpenList(items));
  }

  lemma {:induction false} RunBrackets(p: Parser, p1: Parser, items: seq<Data>)
    requires (AtItem(p) || AtValue(p)) && p1 == Open(p, OpenList([]), true, None)
    requires Run(Running(p1), PrintItems(items) + "]") == AfterList(p1, items)
    ensures Run(Running(p), Print(List(items))) == AfterContainer(p, List(items))
  {
    var body, end := PrintItems(items) + "]", ['\n'];
    assert Print(List(items)) == ['['] + (body + end);
    RunAppend(Running(p), ['['], body + end);
    RunOne(Running(p), '[');
    StepOpen(p, '[');
    RunAppend(Running(p1), body, end);
    RunEndOfList(p, p1, items);
  }

  lemma RunBraces(p: Parser, p1: Parser, entries: seq<Entry>)
    requires (AtItem(p) || AtValue(p)) && p1 == Open(p, OpenMap([]), false, None) && OrderedEntries(entries)
    requires Run(Running(p1), PrintEntries(entries)) == AfterEntries(p1, entries)
    ensures Run(Running(p), Print(Map(entries))) == AfterContainer(p, Map(entries))
  {
    var start, body, end := ['{', '\n'], PrintEntries(entries), ['}', '\n'];
    assert Print(Map(entries)) == start + (body + end);
    RunAppend(Running(p), start, body + end);
    RunOpenBrace(p);
    RunAppend(Running(p1), body, end);
    RunCloseBrace(p, p1, entries);
  }

  lemma RunOpenBrace(p: Parser)
    requires AtItem(p) || AtValue(p)
    ensures Run(Running(p), ['{', '\n']) == Running(Open(p, OpenMap([]), false, None))
  {
    StepOpen(p, '{');
    RunTwo(Running(p), '{', '\n');
  }

  lemma RunCloseBrace(p: Parser, p1: Parser, entries: seq<Entry>)
    requires (AtItem(p) || AtValue(p)) && p1 == Open(p, OpenMap([]), false, None) && OrderedEntries(entries)
    ensures Run(AfterEntries(p1, entries), ['}', '\n']) == AfterContainer(p, Map(entries))
  {
    assert Printable(Map(entries)) <==> PrintableEntries(entries);
    if PrintableEntries(entries) {
      PutAllOrdered([], entries);
      assert [] + entries == entries;
      RunMapEnd(p1.(node := OpenMap(entries)));
      CloseAndEndLine(p, p1, OpenMap(entries));
      assert Freeze(OpenMap(entries)) == Map(entries);
    } else {
      RunStopped(Failed, ['}', '\n']);
    }
  }

  lemma RunMapEnd(q: Parser)
    requires q.node.OpenMap? && !q.want && q.word.None? && q.stack != []
    ensures Run(Running(q), ['}', '\n']) == Feed(Running(Closed(q)), '\n')
  {
    RunTwo(Running(q), '}', '\n');
    StepMapEnd(q, '}');
    assert q.(word := None) == q;
  }

  ghost function PutAll(acc: seq<Entry>, entries: seq<Entry>): seq<Entry>
    decreases |entries|
  {
    if entries == [] then acc else PutAll(Put(acc, entries[0].key, entries[0].value), entries[1..])
  }

  ghost function AfterEntry(p: Parser, e: Entry): Status
    requires p.node.OpenMap?
  {
    if PrintableEntry(e) then Running(p.(node := OpenMap(Put(p.node.entries, e.key, e.value)))) else Failed
  }

  ghost function AfterEntries(p: Parser, entries: seq<Entry>): Status
    requires p.node.OpenMap?
  {
    if PrintableEntries(entries) then Running(p.(node := OpenMap(PutAll(p.node.entries, entries)))) else Failed
  }

  // The comma and newline after the value of an entry.
  lemma RunEntryEnd(p: Parser)
    requires p.node.OpenMap?
    ensures p.want && p.word.None? ==> Run(Running(p), ",\n") == Failed
    ensures p.want && p.word.Some? ==>
      Run(Running(p), ",\n") == Running(AddValue(p, Str(p.word.value)).(want := false, word := None))
    ensures !p.want && p.word.None? ==> Run(Running(p), ",\n") == Running(p)
  {
    assert ",\n" == [',', '\n'];
    RunTwo(Running(p), ',', '\n');
  }

  // A string value with the comma and newline behind it.
  lemma RunString(q: Parser, s: string)
    requires AtValue(q) && AllAlnum(s)
    ensures s == [] ==> Run(Running(q), s + ",\n") == Failed
    ensures s != [] ==>
      Run(Running(q), s + ",\n") == Running(q.(node := AddTo(q.node, q.key, Str(s)), key := "", want := false))
  {
    if s == [] {
      assert s + ",\n" == ",\n";
      RunEntryEnd(q);
    } else {
      RunAppend(Running(q), s, ",\n");
      RunWord(q, s);
      RunEntryEnd(q.(word := Some(s)));
    }
  }

  lemma {:induction false} RunEntry(p: Parser, e: Entry)
    requires AtEntry(p) && AllAlnum(e.key) && Plain(e.value) && Ordered(e.value)
    ensures Run(Running(p), PrintEntry(e)) == AfterEntry(p, e)
    decreases e, 1
  {
    var rest := Print(e.value) + ",\n";
    assert PrintEntry(e) == (e.key + " = ") + rest;
    RunAppend(Running(p), e.key + " = ", rest);
    RunKey(p, e.key);
    if e.key == [] {
      RunStopped(Failed, rest);
    } else {
      var q := p.(key := e.key, want := true);
      if e.value.Str? {
        assert Print(e.value) == e.value.s;
        RunString(q, e.value.s);
        assert PrintableEntry(e) <==> e.value.s != [];
        if e.value.s != [] {
          assert AddTo(q.node, q.key, Str(e.value.s)) == OpenMap(Put(p.node.entries, e.key, e.value));
        }
        assert Run(Running(q), rest) == AfterEntry(p, e);
      } else {
        RunAppend(Running(q), Print(e.value), ",\n");
        RunContainer(q, e.value);
        if Printable(e.value) {
          RunEntryEnd(AfterContainer(q, e.value).p);
        } else {
          RunStopped(Failed, ",\n");
        }
      }
    }
  }

  lemma {:induction false} RunEntries(p: Parser, entries: seq<Entry>)
    requires AtEntry(p) && PlainEntries(entries) && OrderedEntries(entries)
    ensures Run(Running(p), PrintEntries(entries)) == AfterEntries(p, entries)
    decreases entries, 0
  {
    if entries == [] {
    } else {
      var rest := PrintEntries(entries[1..]);
      RunAppend(Running(p), PrintEntry(entries[0]), rest);
      RunEntry(p, entries[0]);
      if PrintableEntry(entries[0]) {
        RunEntries(AfterEntry(p, entries[0]).p, entries[1..]);
      } else {
        RunStopped(Failed, rest);
      }
    }
  }

  // ---- Sorted maps ----

  lemma {:induction false} PutLast(acc: seq<Entry>, k: string, v: Data)
    requires forall i :: 0 <= i < |acc| ==> Less(acc[i].key, k)
    ensures Put(acc, k, v) == acc + [Entry(k, v)]
  {
    if acc == [] {
    } else {
      LessIsStrict(acc[0].key, k);
      PutLast(acc[1..], k, v);
    }
  }

  // Reading the entries of a sorted map in order rebuilds the map.
  lemma {:induction false} PutAllOrdered(acc: seq<Entry>, entries: seq<Entry>)
    requires OrderedEntries(entries)
    requires entries != [] ==> forall i :: 0 <= i < |acc| ==> Less(acc[i].key, entries[0].key)
    ensures PutAll(acc, entries) == acc + entries
    decreases |entries|
  {
    if entries == [] {
    } else {
      var e := entries[0];
      PutLast(acc, e.key, e.value);
      if |entries| > 1 {
        forall i | 0 <= i < |acc| ensures Less(acc[i].key, entries[1].key) {
          LessIsTransitive(acc[i].key, e.key, entries[1].key);
        }
      }
      PutAllOrdered(acc + [e], entries[1..]);
      assert acc + [e] + entries[1..] == acc + entries;
    }
  }

  // ---- The root ----

  // The outermost open node is a map.
  ghost predicate RootIsMap(p: Parser) {
    (if p.stack == [] then p.node else p.stack[0].node).OpenMap?
  }

  lemma CloseKeepsRoot(p: Parser)
    requires RootIsMap(p) && p.stack != []
    ensures RootIsMap(Close(p))
  {
    var n := |p.stack| - 1;
    if n > 0 {
      assert p.stack[..n][0] == p.stack[0];
    }
  }

  lemma FeedKeepsRoot(p: Parser, c: char)
    requires RootIsMap(p)
    ensures Feed(Running(p), c).Running? ==> RootIsMap(Feed(Running(p), c).p)
  {
    var s := EndWord(p);
    if (c == ',' || c == ']' || c == '}') && s.Running? && s.p.stack != [] {
      CloseKeepsRoot(s.p);
    }
  }

  lemma {:induction false} RunKeepsRoot(text: string)
    ensures var s := Run(Running(EMPTY), text); s.Running? ==> RootIsMap(s.p)
  {
    if text == [] {
    } else {
      RunKeepsRoot(text[..|text| - 1]);
      var s := Run(Running(EMPTY), text[..|text| - 1]);
      if s.Running? {
        FeedKeepsRoot(s.p, text[|text| - 1]);
      }
    }
  }

  lemma {:induction false} RootOfMap(stack: seq<Frame>, node: Node)
    requires (if stack == [] then node else stack[0].node).OpenMap?
    ensures Root(stack, node).Map?
    decreases |stack|
  {
    if stack == [] {
    } else {
      var n := |stack| - 1;
      if n > 0 {
        assert stack[..n][0] == stack[0];
      }
      RootOfMap(stack[..n], AddTo(stack[n].node, stack[n].key, Freeze(node)));
    }
  }

  // Whatever a text says, what is read from it is a map.
  lemma ReadingGivesAMap(text: string)
    ensures Parse(text).Ok? ==> Parse(text).root.Map?
  {
    RunKeepsRoot(text);
    var s := Run(Running(EMPTY), text);
    if s.Running? && EndLine(s.p).Running? {
      RootOfMap(EndLine(s.p).p.stack, EndLine(s.p).p.node);
    }
  }

  // Data of letters and digits comes back from its own text exactly when it is a printable map,
  // and everything else that is a map is refused rather than misread.
  lemma {:induction false} ReadsBack(d: Data)
    requires Plain(d) && Ordered(d)
    ensures Parse(PrintRoot(d)) == Ok(d) <==> d.Map? && Printable(d)
    ensures d.Map? && !Printable(d) ==> Parse(PrintRoot(d)) == Error
  {
    match d
    case Map(entries) =>
      RunEntries(EMPTY, entries);
      PutAllOrdered([], entries);
      assert [] + entries == entries;
    case _ =>
      ReadingGivesAMap(PrintRoot(d));
  }
}
