/** The queue files of the HTTP tunnel: lines of base 64, appended and drained under a lock. */
module TunnelQueue {
  import opened Text
  import opened Base64

  /** What draining decodes: the lines that are not empty and that decode. */
  function DataOfLines(lines: seq<string>): seq<Byte> {
    if lines == [] then []
    else (if lines[0] != "" && Decode(lines[0]).Some? then Decode(lines[0]).value else []) + DataOfLines(lines[1..])
  }

  function Data(content: string): seq<Byte> { DataOfLines(SplitOn(content, '\n')) }

  /** The file after a chunk is appended. */
  function Appended(content: string, data: seq<Byte>): string {
    if data == [] then content else content + Encode(data) + "\n"
  }

  /** Only whole lines are ever written. */
  predicate WholeLines(content: string) { content == "" || content[|content| - 1] == '\n' }

  lemma SplitAt(first: string, rest: string)
    requires Without(first, '\n')
    ensures SplitOn(first + "\n" + rest, '\n') == [first] + SplitOn(rest, '\n')
  {
    CutAt(first, '\n', rest);
    assert IndexByte(first + "\n" + rest, '\n') >= 0;
  }

  lemma SplitOnEmpty()
    ensures SplitOn("", '\n') == [""]
  {
  }

  lemma FirstLine(content: string) returns (first: string, rest: string)
    requires WholeLines(content) && content != ""
    ensures content == first + "\n" + rest && Without(first, '\n') && WholeLines(rest)
  {
    IndexByteIsFirst(content, '\n');
    var i := IndexByte(content, '\n');
    first, rest := content[..i], content[i + 1..];
  }

  lemma {:induction false} SplitOnAppended(content: string, line: string) returns (lines: seq<string>)
    requires WholeLines(content) && Without(line, '\n')
    ensures SplitOn(content, '\n') == lines + [""] && SplitOn(content + line + "\n", '\n') == lines + [line, ""]
    decreases |content|
  {
    hide SplitOn, Without, WholeLines;
    SplitOnEmpty();
    if content == "" {
      SplitAt(line, "");
      assert content + line + "\n" == line + "\n" + "" && [line] + [""] == [] + [line, ""] && [] + [""] == [""];
      lines := [];
    } else {
      var first, rest := FirstLine(content);
      var tail := SplitOnAppended(rest, line);
      SplitAt(first, rest);
      SplitAt(first, rest + line + "\n");
      assert content + line + "\n" == first + "\n" + (rest + line + "\n");
      lines := [first] + tail;
    }
  }

  lemma {:induction false} DataOfLinesConcat(a: seq<string>, b: seq<string>)
    ensures DataOfLines(a + b) == DataOfLines(a) + DataOfLines(b)
  {
    hide Decode;
    if a == [] {
      assert a + b == b;
    } else {
      assert (a + b)[1..] == a[1..] + b;
      DataOfLinesConcat(a[1..], b);
    }
  }

  /** Draining is the exact inverse of appending: what is drained is everything appended, in order. */
  lemma AppendedData(content: string, data: seq<Byte>)
    requires WholeLines(content)
    ensures WholeLines(Appended(content, data)) && Data(Appended(content, data)) == Data(content) + data
  {
    hide SplitOn, Encode, Decode, DataOfLines, Without;
    if data != [] {
      var line := Encode(data);
      EncodeIsOneLine(data);
      DecodeEncode(data);
      var lines := SplitOnAppended(content, line);
      DataOfLinesConcat(lines, [line, ""]);
      DataOfLinesConcat(lines, [""]);
      OneLine(line, data);
      assert DataOfLines(lines) + [] == DataOfLines(lines);
    }
  }

  lemma OneLine(line: string, data: seq<Byte>)
    requires line != "" && Decode(line) == Some(data)
    ensures DataOfLines([line, ""]) == data && DataOfLines([""]) == []
  {
    hide Decode;
    assert [line, ""][1..] == [""] && [""][1..] == [];
  }

  lemma EmptyQueue()
    ensures WholeLines("") && Data("") == []
  {
    assert SplitOn("", '\n') == [""];
    assert [""][1..] == [];
  }

  /** The chunks appended to a queue since it was empty are what a drain returns. */
  lemma {:induction false} ChunksDrained(chunks: seq<seq<Byte>>)
    ensures WholeLines(QueueOf(chunks)) && Data(QueueOf(chunks)) == Flat(chunks)
  {
    if chunks == [] {
      EmptyQueue();
    } else {
      ChunksDrained(chunks[..|chunks| - 1]);
      AppendedData(QueueOf(chunks[..|chunks| - 1]), chunks[|chunks| - 1]);
    }
  }

  function QueueOf(chunks: seq<seq<Byte>>): string {
    if chunks == [] then "" else Appended(QueueOf(chunks[..|chunks| - 1]), chunks[|chunks| - 1])
  }

  function Flat(chunks: seq<seq<Byte>>): seq<Byte> {
    if chunks == [] then [] else Flat(chunks[..|chunks| - 1]) + chunks[|chunks| - 1]
  }

  /** A queue file. Each method is one region under the file's lock. */
  class Queue {
    var content: string

    constructor ()
      ensures content == "" && WholeLines(content)
    {
      content := "";
    }

    method AppendChunk(data: seq<Byte>)
      requires WholeLines(content)
      modifies this
      ensures WholeLines(content) && Data(content) == old(Data(content)) + data
    {
      hide Data, Encode;
      AppendedData(content, data);
      if data == [] {
        return;
      }
      content := content + Encode(data) + "\n";
    }

    method DrainChunks() returns (decoded: seq<Byte>)
      modifies this
      ensures content == "" && WholeLines(content) && Data(content) == [] && decoded == old(Data(content))
    {
      hide Decode, SplitOn;
      var encoded := content;
      content := "";
      EmptyQueue();
      decoded := [];
      var lines := SplitOn(encoded, '\n');
      for i := 0 to |lines|
        invariant DataOfLines(lines) == decoded + DataOfLines(lines[i..])
        invariant content == ""
      {
        assert lines[i..][1..] == lines[i + 1..];
        if lines[i] == "" {
          continue;
        }
        var chunk := Decode(lines[i]);
        if chunk.Some? {
          decoded := decoded + chunk.value;
        }
      }
    }
  }

  /** The socket: each write takes some of the bytes, none for now, or fails; `patience` bounds how
      often in a row it takes none. */
  class Socket {
    var sent: seq<Byte>
    var patience: nat

    constructor (patience: nat)
      ensures sent == [] && this.patience == patience
    {
      sent, this.patience := [], patience;
    }

    method Write(data: seq<Byte>) returns (written: Option<nat>)
      modifies this
      ensures written.None? ==> sent == old(sent)
      ensures written.Some? ==> written.value <= |data| && sent == old(sent) + data[..written.value]
      ensures written == Some(0) && data != [] ==> patience < old(patience)
      ensures patience <= old(patience)
    {
      var n: nat, failed: bool := *, *;
      if failed || n > |data| || (n == 0 && patience == 0) {
        return None;
      }
      if n == 0 {
        patience := patience - 1;
      }
      sent := sent + data[..n];
      return Some(n);
    }
  }

  /** Everything is written, in order, or an exact prefix of it is and the write failed. */
  method WriteAll(socket: Socket, data: seq<Byte>) returns (ok: bool, ghost count: nat)
    modifies socket
    ensures count <= |data| && socket.sent == old(socket.sent) + data[..count]
    ensures ok ==> socket.sent == old(socket.sent) + data
  {
    var offset := 0;
    while offset < |data|
      invariant 0 <= offset <= |data| && socket.sent == old(socket.sent) + data[..offset]
      decreases |data| - offset, socket.patience
    {
      var written := socket.Write(data[offset..]);
      if written.None? {
        return false, offset;
      }
      if written.value == 0 {
        continue;
      }
      assert data[..offset] + data[offset..][..written.value] == data[..offset + written.value];
      offset := offset + written.value;
    }
    assert data[..offset] == data;
    return true, offset;
  }
}
