/** Reading a whole file: lines appended to a buffer that grows in batches. */
module FileRead {
  const BATCH_SIZE: nat := 50

  function Batches(len: nat): nat {
    len / BATCH_SIZE + 1
  }

  function Concat(lines: seq<string>): string {
    if lines == [] then "" else Concat(lines[..|lines| - 1]) + lines[|lines| - 1]
  }

  /** memcpy() */
  method CopyLine(buf: array<char>, at: nat, line: array<char>, n: nat)
    requires at + n <= buf.Length && n <= line.Length && buf != line
    modifies buf
    ensures buf[..at] == old(buf[..at]) && forall k | 0 <= k < n :: buf[at + k] == line[k]
  {
    for i := 0 to n
      invariant buf[..at] == old(buf[..at]) && forall k | 0 <= k < i :: buf[at + k] == line[k]
    {
      buf[at + i] := line[i];
    }
  }

  class Slurp {
    var buf: array?<char>
    var fulllen: nat

    /** The buffer holds the terminated text in exactly the batches it needs with its terminator. */
    ghost predicate Holds(text: string)
      reads this, buf
    {
      && fulllen == |text|
      && if buf == null then text == ""
         else buf.Length == Batches(|text| + 1) * BATCH_SIZE && buf[..|text|] == text && buf[|text|] == '\0'
    }

    constructor ()
      ensures Holds("") && buf == null
    {
      buf, fulllen := null, 0;
    }

    /** realloc(): the old contents up to the smaller of the sizes. */
    method Realloc(size: nat)
      requires size > 0 && (buf != null ==> size >= buf.Length)
      modifies `buf
      ensures buf != null && fresh(buf) && buf.Length == size
      ensures old(buf) != null ==> buf[..old(buf).Length] == old(buf[..])
    {
      var bigger := new char[size](_ => '\0');
      if buf != null {
        for i := 0 to buf.Length
          invariant buf == old(buf) && bigger[..i] == buf[..i] && buf[..] == old(buf[..])
        {
          bigger[i] := buf[i];
        }
      }
      buf := bigger;
    }

    /** Never shrinks the buffer, and leaves room for newlen characters. */
    method BatchRealloc(oldlen: nat, newlen: nat, ghost text: string)
      requires Holds(text) && oldlen == |text| && newlen > oldlen
      modifies `buf
      ensures buf != null && (buf == old(buf) || fresh(buf)) && buf.Length == Batches(newlen) * BATCH_SIZE >= newlen
      ensures newlen < buf.Length <= newlen + BATCH_SIZE
      ensures old(buf) != null ==> buf.Length >= old(buf.Length)
      ensures buf == old(buf) <==> old(buf) != null && newlen / BATCH_SIZE == oldlen / BATCH_SIZE
      ensures buf[..|text|] == text
    {
      var newbatches := Batches(newlen);
      var oldbatches := Batches(oldlen);
      if buf == null || newbatches > oldbatches {
        Realloc(newbatches * BATCH_SIZE);
      }
    }

    /** The line, of which getline() keeps a terminator, is copied together with it. */
    method AppendLine(line: array<char>, newlen: nat, ghost text: string)
      requires Holds(text) && newlen < line.Length && line[newlen] == '\0' && line != buf
      modifies this, buf
      ensures Holds(text + line[..newlen]) && buf != null && (buf == old(buf) || fresh(buf))
    {
      var oldlen := fulllen;
      var full := oldlen + newlen;
      BatchRealloc(oldlen, full + 1, text);
      CopyLine(buf, oldlen, line, newlen + 1);
      fulllen := full;
      assert buf[..full] == text + line[..newlen];
    }

    /** All lines that getline() yields; a file without lines gives no buffer. */
    method ReadFile(lines: seq<string>)
      requires Holds("") && buf == null
      modifies this
      ensures Holds(Concat(lines)) && (buf == null <==> lines == [])
    {
      for n := 0 to |lines|
        invariant Holds(Concat(lines[..n])) && (buf != null ==> fresh(buf)) && (buf == null <==> n == 0)
      {
        var text := lines[n];
        var line := new char[|text| + 1](i => if 0 <= i < |text| then text[i] else '\0');
        assert line[..|text|] == text;
        AppendLine(line, |text|, Concat(lines[..n]));
        assert lines[..n + 1][..n] == lines[..n];
      }
      assert lines[..|lines|] == lines;
    }
  }
}
