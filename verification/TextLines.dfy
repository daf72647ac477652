/** A text file read in pieces of any size, and the iterator that cuts what it reads into lines. */
module TextLines {
  import opened Split

  const MAX_ITERATOR_READ := 16384

  /** An open file: its bytes and the position the next read or write starts at. */
  class TextFile {
    var content: string
    var pos: nat

    ghost predicate Valid()
      reads this
    {
      pos <= |content|
    }

    constructor ()
      ensures Valid() && content == [] && pos == 0
    {
      content, pos := [], 0;
    }

    method Seek(o: nat)
      requires Valid() && o <= |content|
      modifies this`pos
      ensures Valid() && pos == o
    {
      pos := o;
    }

    /** How much arrives is up to the system; nothing arrives only at the end of the file. */
    method Read(max: nat) returns (b: string)
      requires Valid() && max > 0
      modifies this`pos
      ensures Valid() && old(pos) <= pos && b == content[old(pos)..pos] && |b| <= max
      ensures b == [] <==> old(pos) == |content|
    {
      var left := |content| - pos;
      var n: nat := 0;
      if left > 0 {
        n :| 1 <= n <= left && n <= max;
      }
      b := content[pos..pos + n];
      pos := pos + n;
    }

    /** Writing at the end of the file. */
    method Write(data: string)
      requires Valid() && pos == |content|
      modifies this
      ensures Valid() && pos == |content| && content == old(content) + data
    {
      content := content + data;
      pos := pos + |data|;
    }
  }

  /** Walks over the lines of a file. The end is marked by both offsets being -1. */
  class LineIterator {
    const parent: TextFile
    var off: int
    var buffBase: int
    var buff: string

    ghost predicate Valid()
      reads this, parent
    {
      parent.Valid() && -1 <= off <= |parent.content| && (AtEnd() <==> off == -1)
    }

    predicate AtEnd()
      reads this
    {
      off == -1 && buffBase == -1
    }

    /** The text the lines still to come are in. */
    ghost function Remaining(): string
      reads this, parent
      requires Valid() && !AtEnd()
    {
      buff + parent.content[off..]
    }

    constructor (tf: TextFile)
      requires tf.Valid()
      ensures parent == tf && Valid() && !AtEnd() && Remaining() == tf.content
    {
      parent, off, buffBase, buff := tf, 0, 0, "";
      new;
      assert Remaining() == parent.content;
    }

    /** Appends a piece of the file to the buffer, of whatever length the read gives. */
    method ReadMore() returns (more: bool)
      requires Valid() && !AtEnd()
      modifies this, parent`pos
      ensures Valid() && !AtEnd() && Remaining() == old(Remaining())
      ensures more <==> old(off) < |parent.content|
      ensures more ==> off > old(off)
      ensures !more ==> buff == old(buff) && off == old(off)
    {
      parent.Seek(off);
      buffBase := off;
      var b := parent.Read(MAX_ITERATOR_READ);
      if |b| == 0 {
        return false;
      }
      off := parent.pos;
      buff := buff + b;
      assert parent.content[old(off)..] == b + parent.content[off..];
      return true;
    }

    /** Reads until the buffer holds a whole line or the file is used up. */
    method FillLine() returns (s: nat)
      requires Valid() && !AtEnd()
      modifies this, parent`pos
      ensures Valid() && !AtEnd() && Remaining() == old(Remaining())
      ensures s == End(buff, '\n') && s == End(Remaining(), '\n')
      ensures s == |buff| ==> buff == Remaining()
    {
      s := End(buff, '\n');
      while s == |buff|
        invariant Valid() && !AtEnd() && Remaining() == old(Remaining()) && s == End(buff, '\n')
        decreases |parent.content| - off
      {
        var more := ReadMore();
        if !more {
          assert buff == Remaining();
          return;
        }
        s := End(buff, '\n');
      }
      EndOfPrefix(buff, parent.content[off..], '\n');
    }

    /** The current line. A last line without a newline is taken out of the buffer. */
    method Deref() returns (line: string)
      requires Valid() && !AtEnd()
      modifies this, parent`pos
      ensures Valid() && !AtEnd()
      ensures var r, n := old(Remaining()), End(old(Remaining()), '\n');
              line == r[..n] && Remaining() == if n < |r| then r else []
    {
      var s := FillLine();
      if s == |buff| {
        line := buff;
        buff := "";
      } else {
        line := buff[..s];
      }
    }

    /** On to the next line, or to the end. */
    method Advance()
      requires Valid() && !AtEnd()
      modifies this, parent`pos
      ensures Valid()
      ensures var r, n := old(Remaining()), End(old(Remaining()), '\n');
              (AtEnd() <==> n == |r|) && (n < |r| ==> Remaining() == r[n + 1..])
    {
      var s := FillLine();
      if s == |buff| {
        buff, off, buffBase := "", -1, -1;
      } else {
        buff := buff[s + 1..];
        buffBase := buffBase + s + 1;
      }
    }

    /** The lines still to come. */
    ghost function Left(): seq<string>
      reads this, parent
      requires Valid()
    {
      if AtEnd() then [] else Pieces(Remaining(), '\n')
    }

    /** One turn of a loop over the lines. */
    method Take() returns (line: string)
      requires Valid() && !AtEnd()
      modifies this, parent`pos
      ensures Valid() && old(Left()) == [line] + Left()
    {
      ghost var r, n := Remaining(), End(Remaining(), '\n');
      ghost var lines, rest := Left(), if n < |r| then Pieces(r[n + 1..], '\n') else [];
      assert lines == [r[..n]] + rest;
      line := Deref();
      Advance();
      if n < |r| {
        assert Remaining() == r[n + 1..];
        assert Left() == rest;
      } else {
        assert AtEnd() && Left() == rest;
      }
    }
  }

  /** The loop over a file's lines that the readers of text files run. */
  method ReadLines(tf: TextFile) returns (lines: seq<string>)
    requires tf.Valid()
    modifies tf`pos
    ensures lines == Pieces(tf.content, '\n')
  {
    lines := [];
    var it := new LineIterator(tf);
    while !it.AtEnd()
      invariant it.Valid() && it.parent == tf && fresh(it)
      invariant lines + it.Left() == Pieces(tf.content, '\n')
      decreases |it.Left()|
    {
      var line := it.Take();
      Associate(lines, [line], it.Left());
      lines := lines + [line];
    }
  }
}
