/** Buffered reading of a socket.  What the operating system does is a script: each `read`
    yields a non-empty chunk, is interrupted, or fails, and when the script is over the stream
    has ended.  The reader's contracts mention only the flattened stream, so nothing they
    promise can depend on where the chunks were cut. */
module Rio {

  datatype ReadEvent = Chunk(bytes: string) | Interrupted | Failed

  /** What a reader can observe: a byte, or a failure of the connection. */
  datatype Item = Byte(c: char) | Fault

  function Bytes(s: string): (r: seq<Item>)
    ensures |r| == |s| && forall i :: 0 <= i < |s| ==> r[i] == Byte(s[i])
  {
    seq(|s|, i requires 0 <= i < |s| => Byte(s[i]))
  }

  /** The stream of items behind a script; chunk boundaries and interruptions leave no trace. */
  function Flat(script: seq<ReadEvent>): seq<Item> {
    if script == [] then []
    else
      match script[0]
      case Chunk(bytes) => Bytes(bytes) + Flat(script[1..])
      case Interrupted => Flat(script[1..])
      case Failed => [Fault] + Flat(script[1..])
  }

  /** Reading part of a chunk leaves the stream after that part. */
  lemma PartOfChunk(bytes: string, n: nat, rest: seq<ReadEvent>)
    requires n <= |bytes|
    ensures Flat([Chunk(bytes)] + rest) == Bytes(bytes[..n]) + Flat([Chunk(bytes[n..])] + rest)
  {
    assert Bytes(bytes) == Bytes(bytes[..n]) + Bytes(bytes[n..]);
    assert ([Chunk(bytes)] + rest)[1..] == rest == ([Chunk(bytes[n..])] + rest)[1..];
  }

  ghost predicate WellCut(script: seq<ReadEvent>) {
    forall i :: 0 <= i < |script| && script[i].Chunk? ==> script[i].bytes != ""
  }

  datatype ReadResult = Got(bytes: string) | Eof | Eintr | Error

  class Socket {
    var script: seq<ReadEvent>

    constructor (script: seq<ReadEvent>)
      ensures this.script == script
    {
      this.script := script;
    }

    /** The system call: at most n bytes of the next chunk. */
    method Read(n: nat) returns (r: ReadResult)
      requires n > 0 && WellCut(script)
      modifies this
      ensures WellCut(script)
      ensures match r
              case Got(bytes) => 0 < |bytes| <= n && old(Flat(script)) == Bytes(bytes) + Flat(script)
              case Eof => old(script) == [] && script == []
              case Eintr => Flat(script) == old(Flat(script)) && |script| < |old(script)|
              case Error => old(Flat(script)) == [Fault] + Flat(script)
    {
      if script == [] {
        return Eof;
      }
      var event := script[0];
      match event {
        case Interrupted =>
          script := script[1..];
          r := Eintr;
        case Failed =>
          script := script[1..];
          r := Error;
        case Chunk(bytes) =>
          if |bytes| <= n {
            script := script[1..];
            r := Got(bytes);
          } else {
            r := Got(bytes[..n]);
            PartOfChunk(bytes, n, script[1..]);
            assert script == [Chunk(bytes)] + script[1..];
            script := [Chunk(bytes[n..])] + script[1..];
          }
      }
    }
  }

  const BUFSIZE: nat := 8192

  // ----- what the readers compute, as functions of the stream -----

  datatype Outcome = Ended | Broken | Complete

  /** Text taken off the front of a stream, what is left, and why it stopped there. */
  datatype Extract = Extract(text: string, rest: seq<Item>, outcome: Outcome)

  /** `whole` is `taken` followed by what is still to take. */
  ghost predicate Continues(whole: Extract, taken: string, more: Extract) {
    whole.text == taken + more.text && whole.rest == more.rest && whole.outcome == more.outcome
  }

  /** At most k bytes, stopping after a newline. */
  function LineOf(items: seq<Item>, k: nat): (r: Extract)
    ensures r.outcome != Broken ==> items == Bytes(r.text) + r.rest
    ensures |r.text| <= k && |r.rest| <= |items|
    ensures r.outcome != Broken && r.text == "" && k > 0 ==> items == [] && r.outcome == Ended
    decreases |items|
  {
    if k == 0 then Extract("", items, Complete)
    else if items == [] then Extract("", [], Ended)
    else if items[0].Fault? then Extract("", items[1..], Broken)
    else if items[0].c == '\n' then Extract("\n", items[1..], Complete)
    else
      var r := LineOf(items[1..], k - 1);
      Extract([items[0].c] + r.text, r.rest, r.outcome)
  }

  /** Exactly n bytes, or as many as there are before the stream ends. */
  function BlockOf(items: seq<Item>, n: nat): (r: Extract)
    ensures r.outcome != Broken ==> items == Bytes(r.text) + r.rest
    ensures r.outcome == Complete ==> |r.text| == n
    ensures r.outcome == Ended ==> r.rest == []
    decreases |items|
  {
    if n == 0 then Extract("", items, Complete)
    else if items == [] then Extract("", [], Ended)
    else if items[0].Fault? then Extract("", items[1..], Broken)
    else
      var r := BlockOf(items[1..], n - 1);
      Extract([items[0].c] + r.text, r.rest, r.outcome)
  }

  /** Where a line stops: after its only newline or its last byte allowed, at the end of the stream,
      or having used up a failure. */
  lemma {:induction false} LineStops(items: seq<Item>, k: nat)
    ensures var r := LineOf(items, k);
            && (forall i :: 0 <= i < |r.text| - 1 ==> r.text[i] != '\n')
            && match r.outcome
               case Complete => |r.text| == k || (r.text != "" && r.text[|r.text| - 1] == '\n')
               case Ended => r.rest == [] && '\n' !in r.text
               case Broken => items == Bytes(r.text) + [Fault] + r.rest && '\n' !in r.text
    decreases k
  {
    if k > 0 && items != [] && items[0].Byte? && items[0].c != '\n' {
      LineStops(items[1..], k - 1);
      var more := LineOf(items[1..], k - 1);
      assert Bytes([items[0].c] + more.text) == [items[0]] + Bytes(more.text);
    }
  }

  /** And where a block does. */
  lemma {:induction false} BlockBreaks(items: seq<Item>, n: nat)
    ensures var r := BlockOf(items, n);
            r.outcome == Broken ==> items == Bytes(r.text) + [Fault] + r.rest && |r.text| < n
    decreases n
  {
    if n > 0 && items != [] && items[0].Byte? {
      BlockBreaks(items[1..], n - 1);
      var more := BlockOf(items[1..], n - 1);
      assert Bytes([items[0].c] + more.text) == [items[0]] + Bytes(more.text);
    }
  }

  // ----- the buffered reader -----

  class Reader {
    const socket: Socket
    const buf: array<char>
    var cnt: int     // unread bytes in the buffer, or what the last read returned
    var pos: nat     // index of the next unread byte

    ghost predicate Valid()
      reads this, socket, buf
    {
      && buf.Length == BUFSIZE
      && (cnt > 0 ==> pos + cnt <= BUFSIZE)
      && WellCut(socket.script)
    }

    /** The items not yet read: what is left in the buffer, then the socket. */
    ghost function Items(): seq<Item>
      requires Valid()
      reads this, socket, buf
    {
      (if cnt > 0 then Bytes(buf[pos..pos + cnt]) else []) + Flat(socket.script)
    }

    constructor (socket: Socket)
      requires WellCut(socket.script)
      ensures Valid() && fresh(this) && fresh(buf) && this.socket == socket
      ensures Items() == Flat(socket.script)
    {
      this.socket := socket;
      buf := new char[BUFSIZE];
      cnt := 0;
      pos := 0;
    }

    /** Refill the buffer until it has bytes, the stream ends, or the connection fails. */
    method Refill() returns (rc: int)
      requires Valid()
      modifies this, socket, buf
      ensures Valid()
      ensures rc > 0 ==> cnt > 0 && Items() == old(Items())
      ensures rc == 0 ==> old(Items()) == [] && Items() == []
      ensures rc < 0 ==> old(Items()) == [Fault] + Items()
    {
      while cnt <= 0
        invariant Valid() && Items() == old(Items())
        decreases |socket.script|, if cnt <= 0 then 1 else 0
      {
        ghost var script := socket.script;
        var r := socket.Read(BUFSIZE);
        match r {
          case Eintr => cnt := -1;
          case Error =>
            cnt := -1;
            return -1;
          case Eof =>
            cnt := 0;
            return 0;
          case Got(bytes) =>
            forall i | 0 <= i < |bytes| {
              buf[i] := bytes[i];
            }
            cnt := |bytes|;
            pos := 0;
            assert buf[0..cnt] == bytes;
            return 1;
        }
      }
      return 1;
    }

    /** Up to n bytes, as many as are buffered. */
    method Take(n: nat) returns (rc: int, bytes: string)
      requires Valid() && n > 0
      modifies this, socket, buf
      ensures Valid()
      ensures rc > 0 ==> rc == |bytes| <= n && old(Items()) == Bytes(bytes) + Items()
      ensures rc == 0 ==> bytes == "" && old(Items()) == [] && Items() == []
      ensures rc < 0 ==> bytes == "" && old(Items()) == [Fault] + Items()
    {
      bytes := "";
      rc := Refill();
      if rc > 0 {
        rc := if cnt < n then cnt else n;
        bytes := Copy(rc);
      }
    }

    /** Move k buffered bytes to the caller. */
    method Copy(k: nat) returns (bytes: string)
      requires Valid() && 0 < k <= cnt
      modifies this
      ensures Valid() && |bytes| == k
      ensures old(Items()) == Bytes(bytes) + Items()
    {
      bytes := buf[pos..pos + k];
      ghost var later := buf[pos + k..pos + cnt];
      assert buf[pos..pos + cnt] == bytes + later;
      SplitBytes(bytes, later);
      pos := pos + k;
      cnt := cnt - k;
    }

    /** A text line of at most maxlen - 1 bytes, read one byte at a time. */
    method ReadLine(maxlen: nat) returns (n: int, line: string)
      requires Valid() && maxlen > 0
      modifies this, socket, buf
      ensures Valid()
      ensures var r := LineOf(old(Items()), maxlen - 1);
              && Items() == r.rest
              && (r.outcome.Broken? ==> n == -1)
              && (!r.outcome.Broken? ==> line == r.text && n == |line|)
    {
      ghost var whole := LineOf(Items(), maxlen - 1);
      line := "";
      n := 1;
      while n < maxlen
        invariant Valid() && 1 <= n <= maxlen && |line| == n - 1
        invariant Continues(whole, line, LineOf(Items(), maxlen - n))
      {
        ghost var before := Items();
        var rc, c := Take(1);
        if rc == 1 {
          LineAfter(before, Items(), c, maxlen - n);
          ContinuesTwice(whole, line, LineOf(before, maxlen - n), c, LineOf(Items(), maxlen - n - 1));
          line := line + c;
          n := n + 1;
          if c[0] == '\n' {
            break;
          }
        } else if rc == 0 {
          return n - 1, line;
        } else {
          assert Items() == before[1..];
          return -1, line;
        }
      }
      return n - 1, line;
    }

    /** Exactly n bytes, or all that are left. */
    method ReadBlock(n: nat) returns (rc: int, block: string)
      requires Valid()
      modifies this, socket, buf
      ensures Valid()
      ensures var r := BlockOf(old(Items()), n);
              && Items() == r.rest
              && (r.outcome.Broken? ==> rc == -1)
              && (!r.outcome.Broken? ==> block == r.text && rc == |block|)
    {
      ghost var whole := BlockOf(Items(), n);
      block := "";
      var left := n;
      while left > 0
        invariant Valid() && 0 <= left <= n && |block| == n - left
        invariant Continues(whole, block, BlockOf(Items(), left))
      {
        ghost var before := Items();
        var k, bytes := Take(left);
        if k < 0 {
          assert Items() == before[1..];
          return -1, block;
        } else if k == 0 {
          break;
        }
        BlockAfter(before, Items(), bytes, left);
        ContinuesTwice(whole, block, BlockOf(before, left), bytes, BlockOf(Items(), left - k));
        block := block + bytes;
        left := left - k;
      }
      return n - left, block;
    }
  }

  lemma ContinuesTwice(whole: Extract, a: string, x: Extract, b: string, y: Extract)
    requires Continues(whole, a, x)
    ensures Continues(x, b, y) ==> Continues(whole, a + b, y)
  {
  }

  lemma LineAfter(items: seq<Item>, rest: seq<Item>, c: string, k: nat)
    requires k > 0 && |c| == 1 && items == Bytes(c) + rest
    ensures if c[0] == '\n' then LineOf(items, k) == Extract(c, rest, Complete)
            else Continues(LineOf(items, k), c, LineOf(rest, k - 1))
  {
    assert items[0] == Byte(c[0]) && items[1..] == rest && c == [c[0]];
  }

  lemma SplitBytes(a: string, b: string)
    ensures Bytes(a + b) == Bytes(a) + Bytes(b)
  {
  }

  /** Taking some bytes off the front leaves the rest of the block to read. */
  lemma {:induction false} BlockAfter(items: seq<Item>, rest: seq<Item>, bytes: string, n: nat)
    requires items == Bytes(bytes) + rest && |bytes| <= n
    ensures Continues(BlockOf(items, n), bytes, BlockOf(rest, n - |bytes|))
  {
    if bytes == "" {
      assert items == rest;
    } else {
      assert items[1..] == Bytes(bytes[1..]) + rest;
      BlockAfter(items[1..], rest, bytes[1..], n - 1);
    }
  }

  // ----- writing -----

  datatype WriteEvent = Wrote(count: nat) | WriteInterrupted | WriteFailed

  /** The sending side: every `write` takes part of what it is given, is interrupted, or fails. */
  class Sink {
    var script: seq<WriteEvent>
    var output: string

    /** The system call. */
    method Write(bytes: string) returns (count: int, interrupted: bool)
      requires bytes != ""
      modifies this
      ensures count > 0 ==> count <= |bytes| && output == old(output) + bytes[..count]
      ensures count <= 0 ==> output == old(output) && (interrupted ==> |script| < |old(script)|)
    {
      if script == [] {
        output := output + bytes;
        return |bytes|, false;
      }
      var event := script[0];
      script := script[1..];
      match event {
        case WriteInterrupted => return -1, true;
        case WriteFailed => return -1, false;
        case Wrote(k) =>
          if k == 0 {
            return 0, true;
          }
          count := if k < |bytes| then k else |bytes|;
          interrupted := false;
          output := output + bytes[..count];
      }
    }

    /** Write everything, however it is cut. */
    method WriteAll(bytes: string) returns (n: int)
      modifies this
      ensures n == |bytes| || n == -1
      ensures n == |bytes| ==> output == old(output) + bytes
      ensures n == -1 ==> exists k :: 0 <= k < |bytes| && output == old(output) + bytes[..k]
    {
      var done := 0;
      while done < |bytes|
        invariant 0 <= done <= |bytes| && output == old(output) + bytes[..done]
        decreases |bytes| - done, |script|
      {
        var count, interrupted := Write(bytes[done..]);
        if count <= 0 {
          if !interrupted {
            return -1;
          }
          count := 0;
        }
        assert bytes[..done] + bytes[done..][..count] == bytes[..done + count];
        done := done + count;
      }
      assert bytes[..done] == bytes;
      return |bytes|;
    }
  }
}
