/** Configuration data, the text it is written as, and the character machine that reads such
    text back. */
module ConfigText {
  import opened Common

  datatype Entry = Entry(key: string, value: Data)

  /** Maps are kept as their entries in key order, the order a sorted map is walked in. */
  datatype Data = Str(s: string) | List(items: seq<Data>) | Map(entries: seq<Entry>)

  // ---- Writing ----

  /** A value below the root, as it is written. */
  function Print(d: Data): string
    decreases d, 0
  {
    match d
    case Str(s) => s
    case List(items) => "[" + PrintItems(items) + "]\n"
    case Map(entries) => "{\n" + PrintEntries(entries) + "}\n"
  }

  function PrintItems(items: seq<Data>): string
    decreases items, 0
  {
    if items == [] then []
    else Print(items[0]) + (if |items| == 1 then [] else ", " + PrintItems(items[1..]))
  }

  function PrintEntry(e: Entry): string
    decreases e, 1
  {
    e.key + " = " + Print(e.value) + ",\n"
  }

  function PrintEntries(entries: seq<Entry>): string
    decreases entries, 0
  {
    if entries == [] then [] else PrintEntry(entries[0]) + PrintEntries(entries[1..])
  }

  /** The root is written without its braces. */
  function PrintRoot(d: Data): string {
    if d.Map? then PrintEntries(d.entries) else Print(d)
  }

  // ---- Reading ----

  predicate IsAlnum(c: char) {
    'a' <= c <= 'z' || 'A' <= c <= 'Z' || '0' <= c <= '9'
  }

  /** Quotes, escapes, comments, commands and templates: what they do is not modelled. */
  predicate IsUnmodelled(c: char) {
    c == '"' || c == '\\' || c == '#' || c == '$' || c == '<' || c == '>'
  }

  predicate IsWordStart(c: char) {
    IsAlnum(c) || '!' <= c <= '*' || c == '.' || c == '/' || c == ';' || c == '<' || c == '>'
    || c == '?' || c == '@' || c == '\\' || c == '^' || c == '|'
  }

  function TrimRight(s: string): string {
    if s != [] && IsSpace(s[|s| - 1]) then TrimRight(s[..|s| - 1]) else s
  }

  /** A list or map that is still being filled. */
  datatype Node = OpenList(items: seq<Data>) | OpenMap(entries: seq<Entry>)

  /** An enclosing node and the key under which what is open inside it belongs. */
  datatype Frame = Frame(node: Node, key: string)

  /** word is the text since the first word character, up to the character being read. */
  datatype Parser = Parser(stack: seq<Frame>, node: Node, key: string, want: bool, word: Option<string>)

  datatype Status = Running(p: Parser) | Failed | Unmodelled

  /** Storing a value under a key: the old value is replaced, a new key goes to its place. */
  function Put(entries: seq<Entry>, k: string, v: Data): seq<Entry> {
    if entries == [] || Less(k, entries[0].key) then [Entry(k, v)] + entries
    else if entries[0].key == k then [Entry(k, v)] + entries[1..]
    else [entries[0]] + Put(entries[1..], k, v)
  }

  function AddTo(node: Node, k: string, v: Data): Node {
    match node
    case OpenList(items) => OpenList(items + [v])
    case OpenMap(entries) => OpenMap(Put(entries, k, v))
  }

  function Freeze(node: Node): Data {
    match node
    case OpenList(items) => List(items)
    case OpenMap(entries) => Map(entries)
  }

  /** Adding a value to the current node; a key is used up by it. */
  function AddValue(p: Parser, v: Data): Parser {
    p.(node := AddTo(p.node, p.key, v), key := if p.node.OpenMap? then "" else p.key)
  }

  function Open(p: Parser, node: Node, want: bool, word: Option<string>): Parser {
    Parser(p.stack + [Frame(p.node, p.key)], node, if p.node.OpenMap? then "" else p.key, want, word)
  }

  function Close(p: Parser): Parser
    requires p.stack != []
  {
    var n := |p.stack| - 1;
    p.(stack := p.stack[..n], node := AddTo(p.stack[n].node, p.stack[n].key, Freeze(p.node)))
  }

  function Grown(word: Option<string>, c: char): Option<string> {
    match word
    case Some(w) => Some(w + [c])
    case None => None
  }

  /** The end of a word at a separator or bracket. */
  function EndWord(p: Parser): Status {
    if !p.want then Running(p.(word := None))
    else if p.word.None? then Failed
    else Running(AddValue(p, Str(p.word.value)).(word := None))
  }

  function Separator(p: Parser, c: char): Status {
    var s := EndWord(p);
    if !s.Running? then s
    else
      var q := s.p;
      if c == ',' then Running(q.(want := q.node.OpenList?))
      else if (c == ']' && !q.node.OpenList?) || (c == '}' && !q.node.OpenMap?) || q.stack == [] then Failed
      else Running(Close(q).(want := Close(q).node.OpenList?))
  }

  /** One character inside a line. */
  function Step(p: Parser, c: char): Status {
    var word := if p.word.None? && IsWordStart(c) then Some("") else p.word;
    if IsUnmodelled(c) then Unmodelled
    else if c == '[' && p.want then Running(Open(p, OpenList([]), true, Grown(word, c)))
    else if c == '{' && p.want then Running(Open(p, OpenMap([]), false, Grown(word, c)))
    else if c == ',' || c == ']' || c == '}' then Separator(p, c)
    else if c == '=' && !p.want then
      if word.None? then Failed else Running(p.(key := TrimRight(word.value), word := None, want := true))
    else Running(p.(word := Grown(word, c)))
  }

  /** The end of a line finishes a value that was still wanted. */
  function EndLine(p: Parser): Status {
    if !p.want then Running(p)
    else if p.word.None? then Failed
    else Running(AddValue(p, Str(p.word.value)).(word := None, want := false))
  }

  function NextLine(s: Status): Status {
    if s.Running? then Running(s.p.(word := None)) else s
  }

  function Feed(s: Status, c: char): Status {
    if !s.Running? then s
    else if c == '\n' then NextLine(EndLine(s.p))
    else Step(s.p, c)
  }

  function Run(s: Status, text: string): Status {
    if text == [] then s else Feed(Run(s, text[..|text| - 1]), text[|text| - 1])
  }

  /** The root as it stands, nodes that were never closed included. */
  function Root(stack: seq<Frame>, node: Node): Data
    decreases |stack|
  {
    if stack == [] then Freeze(node)
    else
      var n := |stack| - 1;
      Root(stack[..n], AddTo(stack[n].node, stack[n].key, Freeze(node)))
  }

  datatype Result = Ok(root: Data) | Error | NotModelled

  /** The end of the file. */
  function Finish(s: Status): Result {
    match s
    case Failed => Error
    case Unmodelled => NotModelled
    case Running(p) =>
      match EndLine(p)
      case Running(q) => if q.word.Some? then Error else Ok(Root(q.stack, q.node))
      case _ => Error
  }

  const EMPTY := Parser([], OpenMap([]), "", false, None)

  function Parse(text: string): Result {
    Finish(Run(Running(EMPTY), text))
  }

  // ---- Running the machine over pieces of text ----

  lemma {:induction false} RunAppend(s: Status, a: string, b: string)
    ensures Run(s, a + b) == Run(Run(s, a), b)
  {
    if b == [] {
      assert a + b == a;
    } else {
      var n := |b| - 1;
      assert (a + b)[..|a| + n] == a + b[..n];
      RunAppend(s, a, b[..n]);
    }
  }

  lemma RunOne(s: Status, c: char)
    ensures Run(s, [c]) == Feed(s, c)
  {
    assert Run(s, [c][..0]) == s;
  }

  lemma RunTwo(s: Status, c: char, d: char)
    ensures Run(s, [c, d]) == Feed(Feed(s, c), d)
  {
    assert [c, d] == [c] + [d];
    RunAppend(s, [c], [d]);
    RunOne(s, c);
    RunOne(Feed(s, c), d);
  }

  lemma {:induction false} RunStopped(s: Status, text: string)
    requires !s.Running?
    ensures Run(s, text) == s
  {
    if text == [] {
    } else {
      RunStopped(s, text[..|text| - 1]);
    }
  }
}
