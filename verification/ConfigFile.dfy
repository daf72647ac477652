/** Writing configuration data to a file and reading it back, line by line and character by
    character. */
module ConfigFile {
  import opened Common
  import opened ConfigRoundTrip
  import opened ConfigText
  import opened Split
  import opened TextLines

  // ---- Writing ----

  /** Appends a value to the file; the root, at depth 0, goes without braces. */
  method WriteFile(d: Data, tf: TextFile, depth: nat)
    requires tf.Valid() && tf.pos == |tf.content|
    modifies tf
    ensures tf.Valid() && tf.pos == |tf.content|
    ensures tf.content == old(tf.content) + if depth == 0 then PrintRoot(d) else Print(d)
    decreases d, 0
  {
    ghost var before := tf.content;
    match d
    case Str(s) => tf.Write(s);
    case Map(entries) =>
      if depth > 0 {
        tf.Write("{\n");
      }
      WriteEntries(entries, tf, depth);
      if depth > 0 {
        tf.Write("}\n");
        Associate(before, "{\n", PrintEntries(entries));
        Associate(before, "{\n" + PrintEntries(entries), "}\n");
      }
    case List(items) =>
      tf.Write("[");
      WriteItems(items, tf, depth);
      tf.Write("]\n");
      Associate(before, "[", PrintItems(items));
      Associate(before, "[" + PrintItems(items), "]\n");
  }

  method WriteEntries(entries: seq<Entry>, tf: TextFile, depth: nat)
    requires tf.Valid() && tf.pos == |tf.content|
    modifies tf
    ensures tf.Valid() && tf.pos == |tf.content|
    ensures tf.content == old(tf.content) + PrintEntries(entries)
    decreases entries, 0
  {
    ghost var before := tf.content;
    var i := 0;
    while i < |entries|
      invariant 0 <= i <= |entries| && tf.Valid() && tf.pos == |tf.content|
      invariant tf.content + PrintEntries(entries[i..]) == before + PrintEntries(entries)
    {
      ghost var sofar := tf.content;
      tf.Write(entries[i].key + " = ");
      WriteFile(entries[i].value, tf, depth + 1);
      tf.Write(",\n");
      assert tf.content == sofar + PrintEntry(entries[i]);
      assert entries[i..][1..] == entries[i + 1..];
      i := i + 1;
    }
    assert entries[i..] == [];
  }

  method WriteItems(items: seq<Data>, tf: TextFile, depth: nat)
    requires tf.Valid() && tf.pos == |tf.content|
    modifies tf
    ensures tf.Valid() && tf.pos == |tf.content|
    ensures tf.content == old(tf.content) + PrintItems(items)
    decreases items, 0
  {
    ghost var before := tf.content;
    var first := true;
    var i := 0;
    while i < |items|
      invariant 0 <= i <= |items| && tf.Valid() && tf.pos == |tf.content| && (first <==> i == 0)
      invariant tf.content + Pending(items, i) == before + PrintItems(items)
    {
      PendingStep(tf.content, items, i);
      if !first {
        tf.Write(", ");
      }
      WriteFile(items[i], tf, depth + 1);
      first := false;
      i := i + 1;
    }
  }

  /** The text of the elements from i on, behind those already written. */
  ghost function Pending(items: seq<Data>, i: nat): string
    requires i <= |items|
  {
    (if 0 < i < |items| then ", " else "") + PrintItems(items[i..])
  }

  lemma PendingStep(written: string, items: seq<Data>, i: nat)
    requires i < |items|
    ensures written + Pending(items, i) ==
      written + (if i > 0 then ", " else "") + Print(items[i]) + Pending(items, i + 1)
  {
    assert items[i..][1..] == items[i + 1..];
    assert PrintItems(items[i..]) == Print(items[i]) + Pending(items, i + 1);
  }

  // ---- Reading ----

  /** Whether reading goes on, stops with an error, or meets a character not modelled. */
  datatype Outcome = Going | Bad | Beyond

  /** The word begun at start, read up to j; start is -1 when no word has begun. */
  ghost function Word(line: string, start: int, j: nat): Option<string>
    requires -1 <= start <= j <= |line|
  {
    if start == -1 then None else Some(line[start..j])
  }

  lemma GrowWord(line: string, start: int, j: nat)
    requires -1 <= start <= j < |line|
    ensures Word(line, start, j + 1) == Grown(Word(line, start, j), line[j])
    ensures Word(line, j, j + 1) == Grown(Some(""), line[j])
  {
    if start >= 0 {
      assert line[start..j + 1] == line[start..j] + [line[j]];
    }
    assert line[j..j + 1] == "" + [line[j]];
  }

  /** The parser's lasting state. The innermost open node is passed along beside it. */
  class Config {
    var stack: seq<Frame>
    var wantValue: bool
    var key: string

    constructor ()
      ensures stack == [] && !wantValue && key == []
    {
      stack, wantValue, key := [], false, "";
    }

    ghost function At(r: Node, word: Option<string>): Parser
      reads this
    {
      Parser(stack, r, key, wantValue, word)
    }

    method Add(r0: Node, v: Data) returns (r: Node)
      modifies `key
      ensures At(r, None) == AddValue(old(At(r0, None)), v)
    {
      r := AddTo(r0, key, v);
      if r0.OpenMap? {
        key := "";
      }
    }

    method Push(r0: Node, node: Node, want: bool) returns (r: Node)
      modifies this
      ensures At(r, None) == Open(old(At(r0, None)), node, want, None)
    {
      stack := stack + [Frame(r0, key)];
      if r0.OpenMap? {
        key := "";
      }
      wantValue := want;
      r := node;
    }

    method Pop(r0: Node) returns (r: Node)
      requires stack != []
      modifies `stack
      ensures At(r, None) == Close(old(At(r0, None)))
    {
      var n := |stack| - 1;
      r := AddTo(stack[n].node, stack[n].key, Freeze(r0));
      stack := stack[..n];
    }

    /** A comma or a closing bracket ends a word, and a bracket closes the current node. */
    method ReadSeparator(line: string, j: nat, r0: Node, start: int) returns (out: Outcome, r: Node)
      requires j < |line| && -1 <= start <= j && (line[j] == ',' || line[j] == ']' || line[j] == '}')
      modifies this
      ensures out != Beyond
      ensures var s := Separator(old(At(r0, Word(line, start, j))), line[j]);
              s == if out == Going then Running(At(r, None)) else Failed
    {
      r := r0;
      ghost var s := EndWord(At(r0, Word(line, start, j)));
      if wantValue {
        if start == -1 {
          return Bad, r;
        }
        r := Add(r, Str(line[start..j]));
      }
      assert s == Running(At(r, None));
      if line[j] == ']' || line[j] == '}' {
        if (line[j] == ']' && !r.OpenList?) || (line[j] == '}' && !r.OpenMap?) || stack == [] {
          return Bad, r;
        }
        r := Pop(r);
      }
      wantValue := r.OpenList?;
      out := Going;
    }

    /** One turn of the character loop. */
    method ReadChar(line: string, j: nat, r0: Node, start0: int) returns (out: Outcome, r: Node, start: int)
      requires j < |line| && -1 <= start0 < j
      modifies this
      ensures -1 <= start <= j
      ensures var s := Step(old(At(r0, Word(line, start0, j))), line[j]);
              match out
              case Going => s == Running(At(r, Word(line, start, j + 1)))
              case Bad => s == Failed
              case Beyond => s == Unmodelled
    {
      out, r, start := Going, r0, start0;
      var c := line[j];
      if start == -1 && IsWordStart(c) {
        start := j;
      }
      if c == ',' || c == ']' || c == '}' {
        out, r := ReadSeparator(line, j, r, start);
        return out, r, -1;
      }
      GrowWord(line, start0, j);
      if IsUnmodelled(c) {
        out := Beyond;
      } else if c == '[' && wantValue {
        r := Push(r, OpenList([]), true);
      } else if c == '{' && wantValue {
        r := Push(r, OpenMap([]), false);
      } else if c == '=' && !wantValue {
        if start == -1 {
          return Bad, r, start;
        }
        key := TrimmedKey(line[start..j]);
        start := -1;
        wantValue := true;
      }
    }

    /** One line. The word it ends in starts at the returned place. */
    method ReadLine(line: string, r0: Node) returns (out: Outcome, r: Node, start: int)
      requires '\n' !in line
      modifies this
      ensures -1 <= start <= |line|
      ensures var s := Run(Running(old(At(r0, None))), line);
              match out
              case Going => s == Running(At(r, Word(line, start, |line|)))
              case Bad => s == Failed
              case Beyond => s == Unmodelled
    {
      ghost var s0 := Running(At(r0, None));
      r, start := r0, -1;
      var j := 0;
      while j < |line|
        invariant 0 <= j <= |line| && -1 <= start < j
        invariant Run(s0, line[..j]) == Running(At(r, Word(line, start, j)))
      {
        RunNext(s0, line, j);
        out, r, start := ReadChar(line, j, r, start);
        if out != Going {
          StaysStopped(s0, line, j + 1);
          return;
        }
        j := j + 1;
      }
      assert line[..j] == line;
      out := Going;
    }

    /** The end of a line finishes a value that was still wanted. */
    method FinishLine(line: string, r0: Node, start0: int) returns (ok: bool, r: Node, start: int)
      requires -1 <= start0 <= |line|
      modifies this
      ensures -1 <= start <= |line| && (ok ==> !wantValue)
      ensures EndLine(old(At(r0, Word(line, start0, |line|)))) ==
        if ok then Running(At(r, Word(line, start, |line|))) else Failed
    {
      ok, r, start := true, r0, start0;
      if wantValue {
        if start == -1 {
          return false, r, start;
        }
        assert line[start..] == line[start..|line|];
        r := Add(r, Str(line[start..]));
        start := -1;
        wantValue := false;
      }
    }

    /** One line with its end. */
    method ReadWholeLine(line: string, r0: Node) returns (out: Outcome, r: Node, start: int)
      requires '\n' !in line
      modifies this
      ensures -1 <= start <= |line|
      ensures var s := LineDone(Run(Running(old(At(r0, None))), line));
              match out
              case Going => !wantValue && s == Running(At(r, Word(line, start, |line|)))
              case Bad => s == Failed
              case Beyond => s == Unmodelled
    {
      out, r, start := ReadLine(line, r0);
      if out == Going {
        var ok;
        ok, r, start := FinishLine(line, r, start);
        out := if ok then Going else Bad;
      }
    }

    /** Steps over the line that has been read; a last one without newline is used up already. */
    method AdvancePast(it: LineIterator, ghost text: string)
      requires it.Valid() && !it.AtEnd()
      requires it.Remaining() == if End(text, '\n') < |text| then text else []
      modifies it, it.parent`pos
      ensures it.Valid() && (it.AtEnd() <==> End(text, '\n') == |text|)
      ensures !it.AtEnd() ==> it.Remaining() == text[End(text, '\n') + 1..]
    {
      it.Advance();
    }

    /** One turn of the line loop. */
    method ReadNext(it: LineIterator, r0: Node) returns (out: Outcome, r: Node, start: int)
      requires it.Valid() && !it.AtEnd()
      modifies this, it, it.parent`pos
      ensures it.Valid() && -1 <= start
      ensures out == Going && !it.AtEnd() ==> |it.Remaining()| < |old(it.Remaining())|
      ensures var result := Finish(Run(Running(old(At(r0, None))), old(it.Remaining())));
              match out
              case Going => result == Reached(it, r, start)
              case Bad => result == Error
              case Beyond => result == NotModelled
    {
      ghost var text, n := it.Remaining(), End(it.Remaining(), '\n');
      FinishLines(Running(At(r0, None)), text);
      var line := it.Deref();
      EndStops(text, '\n');
      ghost var kept := it.Remaining();
      assert kept == if n < |text| then text else [];
      out, r, start := ReadWholeLine(line, r0);
      assert it.Remaining() == kept;
      if out == Going {
        AdvancePast(it, text);
      }
    }

    /** What the rest of the text will give. */
    ghost function Reached(it: LineIterator, r: Node, start: int): Result
      reads this, it, it.parent
      requires it.Valid()
    {
      if !it.AtEnd() then Finish(Run(Running(At(r, None)), it.Remaining()))
      else if start != -1 then Error else Ok(Root(stack, r))
    }

    /** The text as a whole, whatever pieces it arrives in. */
    method ReadFile(tf: TextFile) returns (result: Result)
      requires tf.Valid() && stack == [] && !wantValue && key == []
      modifies this, tf`pos
      ensures result == Parse(tf.content)
    {
      var r := OpenMap([]);
      var start := -1;
      var it := new LineIterator(tf);
      while !it.AtEnd()
        invariant it.Valid() && it.parent == tf && fresh(it)
        invariant Parse(tf.content) == Reached(it, r, start)
        decreases if it.AtEnd() then 0 else |it.Remaining()| + 1
      {
        var out;
        out, r, start := ReadNext(it, r);
        if out != Going {
          return if out == Bad then Error else NotModelled;
        }
      }
      if start != -1 {
        return Error;
      }
      result := Ok(Root(stack, r));
    }
  }

  /** Writing data to a new file and reading it back: plain data comes back exactly when it is a
      printable map, and any other map is refused. */
  method WriteThenRead(d: Data) returns (result: Result)
    requires Plain(d) && Ordered(d)
    ensures result == Ok(d) <==> d.Map? && Printable(d)
    ensures d.Map? && !Printable(d) ==> result == Error
  {
    var tf := new TextFile();
    WriteFile(d, tf, 0);
    assert tf.content == PrintRoot(d);
    var config := new Config();
    result := config.ReadFile(tf);
    ReadsBack(d);
  }

  /** Dropping the blanks at the end of a key, one by one. */
  method TrimmedKey(word: string) returns (key: string)
    ensures key == TrimRight(word)
  {
    key := word;
    while |key| > 0 && IsSpace(key[|key| - 1])
      invariant TrimRight(key) == TrimRight(word)
    {
      key := key[..|key| - 1];
    }
  }

  lemma RunNext(s: Status, text: string, j: nat)
    requires j < |text| && '\n' !in text
    ensures var s1 := Run(s, text[..j]);
            Run(s, text[..j + 1]) == if s1.Running? then Step(s1.p, text[j]) else s1
  {
    assert text[..j + 1][..j] == text[..j];
  }

  lemma StaysStopped(s: Status, text: string, n: nat)
    requires n <= |text| && !Run(s, text[..n]).Running?
    ensures Run(s, text) == Run(s, text[..n])
  {
    RunAppend(s, text[..n], text[n..]);
    RunStopped(Run(s, text[..n]), text[n..]);
    assert text == text[..n] + text[n..];
  }

  // Reading a text is reading its first line, then the newline, then the rest.
  lemma SplitLine(s: Status, text: string)
    ensures var n := End(text, '\n');
            Run(s, text) ==
            if n < |text| then Run(Feed(Run(s, text[..n]), '\n'), text[n + 1..]) else Run(s, text[..n])
    ensures !Run(s, text[..End(text, '\n')]).Running? ==> Run(s, text) == Run(s, text[..End(text, '\n')])
  {
    var n := End(text, '\n');
    if n < |text| {
      EndStops(text, '\n');
      assert text == text[..n] + ['\n'] + text[n + 1..];
      RunAppend(s, text[..n] + ['\n'], text[n + 1..]);
      RunAppend(s, text[..n], ['\n']);
      RunOne(Run(s, text[..n]), '\n');
      if !Run(s, text[..n]).Running? {
        StaysStopped(s, text, n);
      }
    } else {
      assert text[..n] == text;
    }
  }

  /** The state after the end of a line or of the text. */
  ghost function LineDone(s: Status): Status {
    if s.Running? then EndLine(s.p) else s
  }

  // What a text parses to, line by line.
  lemma FinishLines(s: Status, text: string)
    ensures var n := End(text, '\n');
            var e := LineDone(Run(s, text[..n]));
            Finish(Run(s, text)) ==
            if e == Failed then Error
            else if e == Unmodelled then NotModelled
            else if n < |text| then Finish(Run(Running(e.p.(word := None)), text[n + 1..]))
            else if e.p.word.Some? then Error
            else Ok(Root(e.p.stack, e.p.node))
  {
    var n := End(text, '\n');
    SplitLine(s, text);
    if n < |text| {
      RunStopped(Failed, text[n + 1..]);
    }
  }
}
