/** The message codec over the buffered reader: what `Connection` sends and receives, and what
    the receiving client makes of a delivery. */
module Codec {
  import opened Rio

  const MAXLEN: nat := 255

  datatype Message = Message(tag: string, data: string)

  datatype Result = Received(msg: Message) | EofOrError | InvalidMsg

  /** Why the last send or receive ended as it did. */
  datatype Status = Succeeded | HitEofOrError | WasInvalid

  function StatusOf(r: Result): Status {
    match r
    case Received(_) => Succeeded
    case EofOrError => HitEofOrError
    case InvalidMsg => WasInvalid
  }

  function Encode(m: Message): string {
    m.tag + ":" + m.data + "\n"
  }

  // ----- strings -----

  /** The index of the first `c` in s, or |s|. */
  function Find(s: string, c: char): (i: nat)
    ensures i <= |s|
    ensures i < |s| ==> s[i] == c
    ensures forall j :: 0 <= j < i ==> s[j] != c
  {
    if s == "" || s[0] == c then 0 else 1 + Find(s[1..], c)
  }

  /** A C string ends at its first NUL. */
  function UntilNul(s: string): string {
    s[..Find(s, '\0')]
  }

  predicate IsBreak(c: char) {
    c == '\n' || c == '\r'
  }

  /** s without its trailing newlines and carriage returns. */
  function Trim(s: string): (r: string)
    ensures r <= s
    ensures r != "" ==> !IsBreak(r[|r| - 1])
    ensures forall i :: |r| <= i < |s| ==> IsBreak(s[i])
  {
    if s != "" && IsBreak(s[|s| - 1]) then Trim(s[..|s| - 1]) else s
  }

  /** Trimming as the program does it, dropping one character at a time. */
  method TrimLine(line: string) returns (r: string)
    ensures r == Trim(line)
  {
    r := line;
    while r != "" && IsBreak(r[|r| - 1])
      invariant Trim(r) == Trim(line)
      decreases |r|
    {
      r := r[..|r| - 1];
    }
  }

  // ----- what one receive does to the stream -----

  function Parse(text: string): Result {
    var colon := Find(text, ':');
    if text == "" || colon == |text| then InvalidMsg
    else Received(Message(text[..colon], text[colon + 1..]))
  }

  datatype Reception = Reception(result: Result, rest: seq<Item>)

  function Receive(items: seq<Item>): (r: Reception)
    ensures |r.rest| <= |items|
    ensures r.result.Received? ==> |r.rest| < |items|
  {
    var line := LineOf(items, MAXLEN);
    if line.outcome.Broken? || line.text == "" then Reception(EofOrError, line.rest)
    else Reception(Parse(Trim(UntilNul(line.text))), line.rest)
  }

  /** A connection: the file descriptor's state, the read buffer and the sending side. */
  class Connection {
    var isOpen: bool
    const reader: Reader
    const sink: Sink
    var last: Status

    ghost predicate Valid()
      reads this, reader, reader.socket, reader.buf
    {
      reader.Valid()
    }

    constructor (reader: Reader, sink: Sink)
      requires reader.Valid()
      ensures Valid() && fresh(this) && this.reader == reader && this.sink == sink && isOpen
    {
      this.reader := reader;
      this.sink := sink;
      isOpen := true;
      last := Succeeded;
    }

    /** Encode and write; a message that would encode to more than MAXLEN bytes is refused. */
    method Send(m: Message) returns (sent: bool)
      modifies this`last, sink
      ensures sent <==> last.Succeeded?
      ensures isOpen ==> (|Encode(m)| > 255 <==> last.WasInvalid?)
      ensures sent ==> isOpen && |Encode(m)| <= 255 && sink.output == old(sink.output) + Encode(m)
      ensures !sent && isOpen && |Encode(m)| <= 255 ==>
                exists k :: 0 <= k < |Encode(m)| && sink.output == old(sink.output) + Encode(m)[..k]
      ensures !(isOpen && |Encode(m)| <= 255) ==> !sent && sink.output == old(sink.output)
    {
      if !isOpen {
        last := HitEofOrError;
        return false;
      }
      var encoded := m.tag + ":" + m.data + "\n";
      if |encoded| > MAXLEN {
        last := WasInvalid;
        return false;
      }
      var n := sink.WriteAll(encoded);
      last := if n == |encoded| then Succeeded else HitEofOrError;
      return n == |encoded|;
    }

    /** Read one line and split it.  The connection is lost when it is closed, fails, or ends before
        a byte of the line; a line without a colon is invalid. */
    method ReceiveMessage() returns (r: Result)
      requires Valid()
      modifies this, reader, reader.socket, reader.buf
      ensures Valid() && isOpen == old(isOpen)
      ensures isOpen ==> Reception(r, reader.Items()) == Receive(old(reader.Items()))
      ensures !isOpen ==> r == EofOrError && reader.Items() == old(reader.Items())
      ensures last.Succeeded? <==> r.Received?
      ensures var line := LineOf(old(reader.Items()), 255);
              && (last.HitEofOrError? <==> !isOpen || line.outcome.Broken? || line.text == "")
              && (last.WasInvalid? <==>
                    isOpen && !line.outcome.Broken? && line.text != "" && ':' !in Trim(UntilNul(line.text)))
    {
      r := EofOrError;
      ghost var items := reader.Items();
      if isOpen {
        r := ReceiveLine(reader);
        WhyReceived(items);
      }
      last := StatusOf(r);
    }
  }

  lemma WhyReceived(items: seq<Item>)
    ensures var line := LineOf(items, MAXLEN);
            var lost := line.outcome.Broken? || line.text == "";
            match Receive(items).result
            case Received(_) => !lost && ':' in Trim(UntilNul(line.text))
            case EofOrError => lost
            case InvalidMsg => !lost && ':' !in Trim(UntilNul(line.text))
  {
  }

  method ReceiveLine(reader: Reader) returns (r: Result)
    requires reader.Valid()
    modifies reader, reader.socket, reader.buf
    ensures reader.Valid()
    ensures Reception(r, reader.Items()) == Receive(old(reader.Items()))
  {
    ghost var items := reader.Items();
    var n, buf := reader.ReadLine(MAXLEN + 1);
    r := EofOrError;
    if n > 0 {
      r := ParseLine(buf);
    }
    LineReceived(items, n, buf, r);
  }

  /** What a line that was read, newline and all, says. */
  method ParseLine(buf: string) returns (r: Result)
    ensures r == Parse(Trim(UntilNul(buf)))
  {
    var line := TrimLine(UntilNul(buf));
    r := SplitLine(line);
    SplitIsParsed(line, r);
  }

  lemma LineReceived(items: seq<Item>, n: int, text: string, r: Result)
    requires var line := LineOf(items, MAXLEN);
             if line.outcome.Broken? then n == -1 else n == |text| && line.text == text
    requires r == if n <= 0 then EofOrError else Parse(Trim(UntilNul(text)))
    ensures Receive(items) == Reception(r, LineOf(items, MAXLEN).rest)
  {
  }

  /** What SplitLine promises leaves one result only. */
  lemma SplitIsParsed(line: string, r: Result)
    requires r.Received? <==> ':' in line
    requires r.Received? ==> line == r.msg.tag + ":" + r.msg.data && ':' !in r.msg.tag
    requires !r.Received? ==> r == InvalidMsg
    ensures r == Parse(line)
  {
    if r.Received? {
      ParseInverts(r.msg);
    } else {
      FindNone(line, ':');
    }
  }

  /** Split a trimmed line at its first colon: the parts put together are the line, and the tag has
      no colon.  A line without a colon, the empty one for instance, is invalid. */
  method SplitLine(line: string) returns (r: Result)
    ensures r.Received? <==> ':' in line
    ensures r.Received? ==> line == r.msg.tag + ":" + r.msg.data && ':' !in r.msg.tag
    ensures !r.Received? ==> r == InvalidMsg
  {
    if line == "" {
      return InvalidMsg;
    }
    var colon := Find(line, ':');
    if colon == |line| {
      return InvalidMsg;
    }
    return Received(Message(line[..colon], line[colon + 1..]));
  }

  // ----- the round trip -----

  predicate NoBreaks(s: string) {
    '\n' !in s && '\0' !in s
  }

  /** The messages that survive the wire. */
  predicate WellFormed(m: Message) {
    ':' !in m.tag && NoBreaks(m.tag) && NoBreaks(m.data) && (m.data == "" || m.data[|m.data| - 1] != '\r')
  }

  lemma {:induction false} LineUpToNewline(s: string, rest: seq<Item>, k: nat)
    requires '\n' !in s && |s| < k
    ensures LineOf(Bytes(s + "\n") + rest, k) == Extract(s + "\n", rest, Complete)
  {
    var items := Bytes(s + "\n") + rest;
    if s == "" {
      assert items[0] == Byte('\n') && items[1..] == rest;
    } else {
      assert items[0] == Byte(s[0]);
      assert (s + "\n")[1..] == s[1..] + "\n";
      assert items[1..] == Bytes(s[1..] + "\n") + rest;
      LineUpToNewline(s[1..], rest, k - 1);
      assert [s[0]] + (s[1..] + "\n") == s + "\n";
    }
  }

  /** With no newline in its first k bytes, a line is cut there and the rest is read as the next
      line. */
  lemma {:induction false} LongLineIsCut(s: string, rest: seq<Item>)
    requires '\n' !in s
    ensures LineOf(Bytes(s) + rest, |s|) == Extract(s, rest, Complete)
  {
    if s == "" {
      assert Bytes(s) + rest == rest;
    } else {
      var items := Bytes(s) + rest;
      assert items[1..] == Bytes(s[1..]) + rest;
      LongLineIsCut(s[1..], rest);
      assert [s[0]] + s[1..] == s;
    }
  }

  lemma FindAt(s: string, c: char, i: nat)
    requires i < |s| && s[i] == c && forall j :: 0 <= j < i ==> s[j] != c
    ensures Find(s, c) == i
  {
  }

  lemma FindNone(s: string, c: char)
    requires c !in s
    ensures Find(s, c) == |s|
  {
  }

  lemma TrimOnce(s: string)
    requires s == "" || !IsBreak(s[|s| - 1])
    ensures Trim(s + "\n") == s
  {
    assert (s + "\n")[..|s|] == s;
  }

  lemma ParseInverts(m: Message)
    requires ':' !in m.tag
    ensures Parse(m.tag + ":" + m.data) == Received(m)
  {
    var s := m.tag + ":" + m.data;
    assert forall j | 0 <= j < |m.tag| :: s[j] == m.tag[j] != ':';
    FindAt(s, ':', |m.tag|);
    assert s[..|m.tag|] == m.tag && s[|m.tag| + 1..] == m.data;
  }

  lemma TrimInverts(m: Message)
    requires WellFormed(m)
    ensures Trim(UntilNul(Encode(m))) == m.tag + ":" + m.data
  {
    var s := m.tag + ":" + m.data;
    assert Encode(m) == s + "\n";
    assert '\0' !in Encode(m);
    FindNone(Encode(m), '\0');
    assert UntilNul(Encode(m)) == Encode(m);
    assert s[|s| - 1] == if m.data == "" then ':' else m.data[|m.data| - 1];
    TrimOnce(s);
  }

  lemma WellFormedSurvives(m: Message, rest: seq<Item>)
    requires |Encode(m)| <= MAXLEN && WellFormed(m)
    ensures Receive(Bytes(Encode(m)) + rest) == Reception(Received(m), rest)
  {
    var s := m.tag + ":" + m.data;
    assert '\n' !in s && Encode(m) == s + "\n";
    LineUpToNewline(s, rest, MAXLEN);
    TrimInverts(m);
    ParseInverts(m);
  }

  lemma ReceivedSize(text: string, m: Message)
    requires Parse(text) == Received(m)
    ensures text == m.tag + ":" + m.data && ':' !in m.tag
  {
    var i := Find(text, ':');
    assert text == text[..i] + [text[i]] + text[i + 1..];
  }

  /** An encoded message is received unchanged, leaving the stream after it, if and only if it is
      well formed and within the length limit. */
  lemma RoundTrip(m: Message, rest: seq<Item>)
    ensures Receive(Bytes(Encode(m)) + rest) == Reception(Received(m), rest)
            <==> WellFormed(m) && |Encode(m)| <= 255
  {
    var items := Bytes(Encode(m)) + rest;
    if WellFormed(m) && |Encode(m)| <= MAXLEN {
      WellFormedSurvives(m, rest);
    }
    OnlyWellFormed(items);
    var line := LineOf(items, MAXLEN);
    if !line.outcome.Broken? && line.rest == rest {
      assert |items| == |Bytes(line.text)| + |rest|;
    }
  }

  lemma {:induction false} NewlineOnlyLast(items: seq<Item>, k: nat)
    requires !LineOf(items, k).outcome.Broken?
    ensures var s := LineOf(items, k).text; forall i :: 0 <= i < |s| - 1 ==> s[i] != '\n'
    decreases k
  {
    if k > 0 && items != [] && items[0].Byte? && items[0].c != '\n' {
      NewlineOnlyLast(items[1..], k - 1);
    }
  }

  /** A line as the program sees it: no newline, no NUL, no trailing carriage return. */
  lemma LineIsText(items: seq<Item>)
    requires !LineOf(items, MAXLEN).outcome.Broken?
    ensures IsText(Trim(UntilNul(LineOf(items, MAXLEN).text)))
  {
    var line := LineOf(items, MAXLEN).text;
    var text := Trim(UntilNul(line));
    NewlineOnlyLast(items, MAXLEN);
    TrimmedIsText(line, UntilNul(line), text);
  }

  lemma TrimmedIsText(line: string, front: string, text: string)
    requires text <= front <= line && '\0' !in front && (text != "" ==> !IsBreak(text[|text| - 1]))
    requires forall i :: 0 <= i < |line| - 1 ==> line[i] != '\n'
    ensures IsText(text)
  {
    forall i | 0 <= i < |text| ensures text[i] != '\n' && text[i] != '\0' {
      assert text[i] == front[i] == line[i];
    }
  }

  lemma PartsOfText(m: Message)
    requires IsText(m.tag + ":" + m.data) && ':' !in m.tag
    ensures WellFormed(m)
  {
    var text := m.tag + ":" + m.data;
    assert forall i | 0 <= i < |m.tag| :: m.tag[i] == text[i];
    assert forall i | 0 <= i < |m.data| :: m.data[i] == text[|m.tag| + 1 + i];
    assert m.data != "" ==> m.data[|m.data| - 1] == text[|text| - 1];
  }

  /** Whatever bytes arrive, what `receive` returns is well formed. */
  lemma OnlyWellFormed(items: seq<Item>)
    ensures Receive(items).result.Received? ==> WellFormed(Receive(items).result.msg)
  {
    if Receive(items).result.Received? {
      LineIsText(items);
      ReceivedSize(Trim(UntilNul(LineOf(items, MAXLEN).text)), Receive(items).result.msg);
      PartsOfText(Receive(items).result.msg);
    }
  }

  /** Everything a list of messages puts on the wire. */
  function EncodeAll(ms: seq<Message>): string {
    if ms == [] then "" else Encode(ms[0]) + EncodeAll(ms[1..])
  }

  /** n receives in a row. */
  function ReceiveMany(items: seq<Item>, n: nat): (seq<Result>, seq<Item>)
    decreases n
  {
    if n == 0 then ([], items)
    else
      var r := Receive(items);
      var more := ReceiveMany(r.rest, n - 1);
      ([r.result] + more.0, more.1)
  }

  function AllReceived(ms: seq<Message>): seq<Result> {
    seq(|ms|, i requires 0 <= i < |ms| => Received(ms[i]))
  }

  /** Framing: any list of well-formed messages comes out of the stream as it went in, whatever
      follows. */
  lemma {:induction false} FramingIsExact(ms: seq<Message>, rest: seq<Item>)
    requires forall i :: 0 <= i < |ms| ==> WellFormed(ms[i]) && |Encode(ms[i])| <= MAXLEN
    ensures ReceiveMany(Bytes(EncodeAll(ms)) + rest, |ms|) == (AllReceived(ms), rest)
  {
    if ms == [] {
      assert Bytes("") + rest == rest && AllReceived(ms) == [];
    } else {
      var later := Bytes(EncodeAll(ms[1..])) + rest;
      FirstEncoded(ms, rest);
      WellFormedSurvives(ms[0], later);
      FramingIsExact(ms[1..], rest);
      AllReceivedCons(ms);
      OneThenMany(Bytes(EncodeAll(ms)) + rest, Received(ms[0]), later, AllReceived(ms[1..]), rest);
    }
  }

  lemma FirstEncoded(ms: seq<Message>, rest: seq<Item>)
    requires ms != []
    ensures Bytes(EncodeAll(ms)) + rest == Bytes(Encode(ms[0])) + (Bytes(EncodeAll(ms[1..])) + rest)
  {
    SplitBytes(Encode(ms[0]), EncodeAll(ms[1..]));
    Associate(Bytes(Encode(ms[0])), Bytes(EncodeAll(ms[1..])), rest);
  }

  lemma Associate(a: seq<Item>, b: seq<Item>, c: seq<Item>)
    ensures a + b + c == a + (b + c)
  {
  }

  lemma AllReceivedCons(ms: seq<Message>)
    requires ms != []
    ensures AllReceived(ms) == [Received(ms[0])] + AllReceived(ms[1..])
  {
  }

  lemma OneThenMany(items: seq<Item>, first: Result, later: seq<Item>, others: seq<Result>, rest: seq<Item>)
    requires Receive(items) == Reception(first, later) && ReceiveMany(later, |others|) == (others, rest)
    ensures ReceiveMany(items, |others| + 1) == ([first] + others, rest)
  {
  }

  // ----- deliveries -----

  predicate IsAlnum(c: char) {
    '0' <= c <= '9' || 'A' <= c <= 'Z' || 'a' <= c <= 'z'
  }

  /** A name the server accepts. */
  predicate IsValidName(name: string) {
    name != "" && forall i :: 0 <= i < |name| ==> IsAlnum(name[i])
  }

  /** Digits and letters of ASCII, by their codes. */
  lemma ValidNamesAre(name: string)
    ensures IsValidName(name) <==>
            name != "" && forall c :: c in name ==>
              48 <= c as int <= 57 || 65 <= c as int <= 90 || 97 <= c as int <= 122
  {
    assert (forall i :: 0 <= i < |name| ==> IsAlnum(name[i])) <==> (forall c :: c in name ==> IsAlnum(c));
  }

  /** The payload the server broadcasts. */
  function Payload(room: string, sender: string, text: string): string {
    room + ":" + sender + ":" + text
  }

  datatype Shown = Nothing | Line(sender: string, text: string)

  /** How the receiving client takes a payload apart, at its first two colons. */
  function Display(payload: string): Shown {
    var first := Find(payload, ':');
    if first == |payload| then Nothing
    else
      var second := Find(payload[first + 1..], ':');
      if second == |payload| - first - 1 then Nothing
      else Line(payload[first + 1..][..second], payload[first + 1..][second + 1..])
  }

  /** Text that can reach the server through `receive`. */
  predicate IsText(s: string) {
    NoBreaks(s) && (s == "" || s[|s| - 1] != '\r')
  }

  /** Whatever a client writes, the data the server receives from it is text. */
  lemma ReceivedDataIsText(items: seq<Item>)
    ensures Receive(items).result.Received? ==> IsText(Receive(items).result.msg.data)
  {
    OnlyWellFormed(items);
  }

  /** Sender and text come back out of a payload whose room and sender have no colon, and its first
      field is the room. */
  lemma DisplayInvertsPayload(room: string, sender: string, text: string)
    requires ':' !in room && ':' !in sender
    ensures Display(Payload(room, sender, text)) == Line(sender, text)
    ensures room + ":" <= Payload(room, sender, text)
  {
    var p := Payload(room, sender, text);
    assert p[..|room|] == room;
    FindAt(p, ':', |room|);
    var q := sender + ":" + text;
    assert p[|room| + 1..] == q;
    assert q[..|sender|] == sender;
    FindAt(q, ':', |sender|);
    assert q[|sender| + 1..] == text;
  }

  /** End to end: a broadcast whose delivery fits in a message reaches the client as exactly the
      sender and the text, even when the text contains colons. */
  lemma DeliveryIsFaithful(room: string, sender: string, text: string, rest: seq<Item>)
    requires IsValidName(room) && IsValidName(sender) && IsText(text)
    requires |Encode(Message("delivery", Payload(room, sender, text)))| <= MAXLEN
    ensures var m := Message("delivery", Payload(room, sender, text));
            Receive(Bytes(Encode(m)) + rest) == Reception(Received(m), rest)
            && Display(m.data) == Line(sender, text)
  {
    var m := Message("delivery", Payload(room, sender, text));
    DeliveryIsWellFormed(m, room, sender, text);
    WellFormedSurvives(m, rest);
    NoColonInName(room);
    NoColonInName(sender);
    DisplayInvertsPayload(room, sender, text);
  }

  lemma NoColonInName(name: string)
    requires IsValidName(name)
    ensures ':' !in name
  {
  }

  lemma DeliveryIsWellFormed(m: Message, room: string, sender: string, text: string)
    requires m == Message("delivery", Payload(room, sender, text))
    requires IsValidName(room) && IsValidName(sender) && IsText(text)
    ensures WellFormed(m)
  {
    PayloadIsText(room, sender, text);
  }

  lemma PayloadIsText(room: string, sender: string, text: string)
    requires IsValidName(room) && IsValidName(sender) && IsText(text)
    ensures IsText(Payload(room, sender, text))
  {
    var p := Payload(room, sender, text);
    assert forall i | 0 <= i < |p| ::
        p[i] == ':' || (exists j :: 0 <= j < |room| && p[i] == room[j])
        || (exists j :: 0 <= j < |sender| && p[i] == sender[j]) || p[i] in text;
    assert p[|p| - 1] == if text == "" then ':' else text[|text| - 1];
  }

  // ----- the client's loop -----

  function ShowOne(m: Message): seq<Shown> {
    if m.tag == "delivery" && Display(m.data).Line? then [Display(m.data)] else []
  }

  /** Everything the client displays until a receive fails. */
  function ShowAll(items: seq<Item>): seq<Shown>
    decreases |items|
  {
    var r := Receive(items);
    if r.result.Received? then ShowOne(r.result.msg) + ShowAll(r.rest) else []
  }

  /** A message that displays as this line: a delivery of room, sender and text, the first two
      without a colon. */
  ghost predicate Displays(m: Message, sender: string, text: string) {
    m.tag == "delivery" && ':' !in sender
    && exists room :: ':' !in room && m.data == Payload(room, sender, text)
  }

  lemma ShownLines(m: Message, sender: string, text: string)
    ensures ShowOne(m) == [Line(sender, text)] <==> Displays(m, sender, text)
    ensures |ShowOne(m)| <= 1 && (ShowOne(m) != [] ==> ShowOne(m)[0].Line?)
  {
    if Displays(m, sender, text) {
      var room :| ':' !in room && m.data == Payload(room, sender, text);
      DisplayInvertsPayload(room, sender, text);
    }
    if Display(m.data) == Line(sender, text) {
      var room := DisplayedRoom(m.data, sender, text);
    }
  }

  lemma DisplayedRoom(payload: string, sender: string, text: string) returns (room: string)
    requires Display(payload) == Line(sender, text)
    ensures ':' !in room && ':' !in sender && payload == Payload(room, sender, text)
  {
    var first := Find(payload, ':');
    var rest := payload[first + 1..];
    room := payload[..first];
    CutAtColon(payload, first);
    CutAtColon(rest, Find(rest, ':'));
    Regroup(room, sender, text);
  }

  lemma CutAtColon(s: string, i: nat)
    requires i == Find(s, ':') < |s|
    ensures s == s[..i] + ":" + s[i + 1..] && ':' !in s[..i]
  {
    CutAt(s, i);
    assert [s[i]] == ":";
  }

  lemma CutAt(s: string, i: nat)
    requires i < |s|
    ensures s == s[..i] + [s[i]] + s[i + 1..]
  {
  }

  lemma Regroup(a: string, b: string, c: string)
    ensures a + ":" + (b + ":" + c) == Payload(a, b, c)
  {
  }

  /** The body of the client's loop: it displays one line or nothing, and a given line exactly when
      the message is a delivery that reads that way. */
  method DisplayMessage(m: Message) returns (shown: seq<Shown>)
    ensures |shown| <= 1 && (shown != [] ==> shown[0].Line?)
    ensures forall sender, text :: shown == [Line(sender, text)] <==> Displays(m, sender, text)
  {
    ghost var expected := ShowOne(m);
    forall sender, text ensures expected == [Line(sender, text)] <==> Displays(m, sender, text) {
      ShownLines(m, sender, text);
    }
    shown := [];
    if m.tag == "delivery" {
      var payload := m.data;
      var first := Find(payload, ':');
      if first < |payload| {
        var second := Find(payload[first + 1..], ':');
        if second < |payload| - first - 1 {
          shown := [Line(payload[first + 1..][..second], payload[first + 1..][second + 1..])];
        }
      }
    }
  }

  method DisplayOne(m: Message) returns (shown: seq<Shown>)
    ensures shown == ShowOne(m)
  {
    shown := DisplayMessage(m);
    SameLines(m, shown);
  }

  lemma SameLines(m: Message, shown: seq<Shown>)
    requires |shown| <= 1 && (shown != [] ==> shown[0].Line?)
    requires forall sender, text :: shown == [Line(sender, text)] <==> Displays(m, sender, text)
    ensures shown == ShowOne(m)
  {
    if shown != [] {
      assert shown == [Line(shown[0].sender, shown[0].text)];
      ShownLines(m, shown[0].sender, shown[0].text);
    } else if ShowOne(m) != [] {
      ShownLines(m, ShowOne(m)[0].sender, ShowOne(m)[0].text);
    }
  }

  lemma ShowStep(all: seq<Shown>, shown: seq<Shown>, left: seq<Item>)
    requires StillToShow(all, shown, left)
    ensures var r := Receive(left);
            if r.result.Received? then StillToShow(all, shown + ShowOne(r.result.msg), r.rest) else all == shown
  {
    var r := Receive(left);
    if r.result.Received? {
      ShowAssoc(shown, ShowOne(r.result.msg), ShowAll(r.rest));
    } else {
      assert shown + [] == shown;
    }
  }

  lemma ShowAssoc(a: seq<Shown>, b: seq<Shown>, c: seq<Shown>)
    ensures a + (b + c) == (a + b) + c
  {
  }

  /** The receiving client: receive, take apart, display, until a receive fails. */
  method RunReceiver(conn: Connection) returns (shown: seq<Shown>)
    requires conn.Valid() && conn.isOpen
    modifies conn, conn.reader, conn.reader.socket, conn.reader.buf
    ensures shown == ShowAll(old(conn.reader.Items()))
  {
    ghost var all := ShowAll(conn.reader.Items());
    shown := [];
    var open := true;
    while open
      invariant conn.Valid() && conn.isOpen
      invariant if open then StillToShow(all, shown, conn.reader.Items()) else all == shown
      decreases open, |conn.reader.Items()|
    {
      ghost var left := conn.reader.Items();
      var more;
      open, more := ReceiveAndShow(conn);
      ShowStep(all, shown, left);
      shown := shown + more;
    }
  }

  /** One turn of the client's loop: whether a message came, and what it displays. */
  method ReceiveAndShow(conn: Connection) returns (open: bool, more: seq<Shown>)
    requires conn.Valid() && conn.isOpen
    modifies conn, conn.reader, conn.reader.socket, conn.reader.buf
    ensures conn.Valid() && conn.isOpen
    ensures var r := Receive(old(conn.reader.Items()));
            && conn.reader.Items() == r.rest && open == r.result.Received?
            && more == if open then ShowOne(r.result.msg) else []
  {
    var r := conn.ReceiveMessage();
    open, more := r.Received?, [];
    if open {
      more := DisplayOne(r.msg);
    }
  }

  /** What the client displays in all is what it has displayed and what is left in the stream. */
  ghost predicate StillToShow(all: seq<Shown>, shown: seq<Shown>, left: seq<Item>) {
    all == shown + ShowAll(left)
  }

  datatype Delivery = Delivery(room: string, sender: string, text: string)

  predicate Deliverable(d: Delivery) {
    && IsValidName(d.room) && IsValidName(d.sender) && IsText(d.text)
    && |Encode(Message("delivery", Payload(d.room, d.sender, d.text)))| <= MAXLEN
  }

  function DeliveryMessages(ds: seq<Delivery>): seq<Message> {
    seq(|ds|, i requires 0 <= i < |ds| => Message("delivery", Payload(ds[i].room, ds[i].sender, ds[i].text)))
  }

  lemma OneDelivery(d: Delivery, rest: seq<Item>)
    requires Deliverable(d)
    ensures ShowAll(Bytes(Encode(Message("delivery", Payload(d.room, d.sender, d.text)))) + rest)
            == [Line(d.sender, d.text)] + ShowAll(rest)
  {
    DeliveryIsFaithful(d.room, d.sender, d.text, rest);
  }

  /** A client sent any list of deliverable broadcasts displays exactly their senders and texts, in
      order, and then whatever the rest of the stream makes it display. */
  lemma {:induction false} ClientShowsEveryDelivery(ds: seq<Delivery>, rest: seq<Item>)
    requires forall i :: 0 <= i < |ds| ==> Deliverable(ds[i])
    ensures ShowAll(Bytes(EncodeAll(DeliveryMessages(ds))) + rest) == Lines(ds) + ShowAll(rest)
  {
    var ms := DeliveryMessages(ds);
    if ds == [] {
      assert Bytes(EncodeAll(ms)) + rest == rest;
      assert Lines(ds) + ShowAll(rest) == ShowAll(rest);
    } else {
      var later := Bytes(EncodeAll(DeliveryMessages(ds[1..]))) + rest;
      assert ms[1..] == DeliveryMessages(ds[1..]);
      FirstEncoded(ms, rest);
      OneDelivery(ds[0], later);
      ClientShowsEveryDelivery(ds[1..], rest);
      LinesCons(ds);
      ShowAssoc([Line(ds[0].sender, ds[0].text)], Lines(ds[1..]), ShowAll(rest));
    }
  }

  lemma LinesCons(ds: seq<Delivery>)
    requires ds != []
    ensures Lines(ds) == [Line(ds[0].sender, ds[0].text)] + Lines(ds[1..])
  {
  }

  function Lines(ds: seq<Delivery>): seq<Shown> {
    seq(|ds|, i requires 0 <= i < |ds| => Line(ds[i].sender, ds[i].text))
  }

  // ----- a delivery cut short -----

  lemma {:induction false} LineAtTheEnd(s: string, k: nat)
    requires '\n' !in s && |s| < k
    ensures LineOf(Bytes(s), k) == Extract(s, [], Ended)
  {
    if s != "" {
      assert Bytes(s)[0] == Byte(s[0]) && Bytes(s)[1..] == Bytes(s[1..]);
      LineAtTheEnd(s[1..], k - 1);
      assert [s[0]] + s[1..] == s;
    }
  }

  /** Up to its first colon, and beyond, a front of a text agrees with the text. */
  lemma FrontOfField(a: string, x: string, b: string, y: string)
    requires ':' !in a && ':' !in b && a + ":" + x <= b + ":" + y
    ensures a == b && x <= y
  {
    var p, q := a + ":" + x, b + ":" + y;
    FindAt(q, ':', |b|);
    assert p[|a|] == ':' && forall j | 0 <= j < |a| :: q[j] == p[j] == a[j];
    FindAt(q, ':', |a|);
    assert a == p[..|a|] == q[..|a|] == b;
    assert x == p[|a| + 1..] && y == q[|a| + 1..];
  }

  /** At the end of the stream the client takes what there is as a line, without its trailing
      carriage returns. */
  lemma LastLine(s: string)
    requires NoBreaks(s) && 0 < |s| < MAXLEN
    ensures Receive(Bytes(s)) == Reception(Parse(Trim(s)), [])
  {
    LineAtTheEnd(s, MAXLEN);
    FindNone(s, '\0');
    assert UntilNul(s) == s;
    LineReceived(Bytes(s), |s|, s, Parse(Trim(s)));
  }

  lemma NothingLeft(items: seq<Item>)
    requires Receive(items).rest == []
    ensures var r := Receive(items).result;
            ShowAll(items) == if r.Received? then ShowOne(r.msg) else []
  {
    NoMore();
    var r := Receive(items).result;
    if r.Received? {
      assert ShowOne(r.msg) + [] == ShowOne(r.msg);
    }
  }

  lemma NoMore()
    ensures ShowAll([]) == []
  {
  }

  /** A line it displays from a front of a delivery has the sender of the delivery and a front of
      its text. */
  lemma FrontDisplays(m: Message, d: Delivery, sender: string, text: string)
    requires IsValidName(d.room) && IsValidName(d.sender)
    requires m.tag + ":" + m.data <= "delivery" + ":" + Payload(d.room, d.sender, d.text)
    requires ':' !in m.tag && Displays(m, sender, text)
    ensures sender == d.sender && text <= d.text
  {
    var room :| ':' !in room && m.data == Payload(room, sender, text);
    NoColonInName(d.room);
    NoColonInName(d.sender);
    FrontOfField(m.tag, m.data, "delivery", Payload(d.room, d.sender, d.text));
    Regroup(room, sender, text);
    Regroup(d.room, d.sender, d.text);
    FrontOfField(room, sender + ":" + text, d.room, d.sender + ":" + d.text);
    FrontOfField(sender, text, d.sender, d.text);
  }

  /** What a proper front of a delivery makes the client display: nothing, or the sender and a
      front of the text. */
  ghost predicate IsCut(shown: seq<Shown>, d: Delivery) {
    shown == [] || exists text :: text <= d.text && shown == [Line(d.sender, text)]
  }

  lemma CutDelivery(d: Delivery, front: string)
    requires Deliverable(d) && front < Encode(Message("delivery", Payload(d.room, d.sender, d.text)))
    ensures IsCut(ShowAll(Bytes(front)), d)
  {
    var body := "delivery" + ":" + Payload(d.room, d.sender, d.text);
    FrontHasNoBreaks(d, front, body);
    if front == "" {
      NoMore();
      assert Bytes(front) == [];
    } else {
      LastLine(front);
      NothingLeft(Bytes(front));
      CutLine(d, front, body);
    }
  }

  lemma CutLine(d: Delivery, front: string, body: string)
    requires Deliverable(d) && body == "delivery" + ":" + Payload(d.room, d.sender, d.text) && front <= body
    ensures var r := Parse(Trim(front)); r.Received? ==> IsCut(ShowOne(r.msg), d)
  {
    var r := Parse(Trim(front));
    if r.Received? {
      ReceivedSize(Trim(front), r.msg);
      CutMessage(d, r.msg, body);
    }
  }

  lemma FrontHasNoBreaks(d: Delivery, front: string, body: string)
    requires Deliverable(d) && body == "delivery" + ":" + Payload(d.room, d.sender, d.text)
    requires front < Encode(Message("delivery", Payload(d.room, d.sender, d.text)))
    ensures NoBreaks(front) && front <= body && |front| < MAXLEN
  {
    var m := Message("delivery", Payload(d.room, d.sender, d.text));
    DeliveryIsWellFormed(m, d.room, d.sender, d.text);
    assert Encode(m) == body + "\n";
    assert front == body[..|front|];
  }

  lemma CutMessage(d: Delivery, m: Message, body: string)
    requires Deliverable(d) && body == "delivery" + ":" + Payload(d.room, d.sender, d.text)
    requires m.tag + ":" + m.data <= body && ':' !in m.tag
    ensures IsCut(ShowOne(m), d)
  {
    if ShowOne(m) != [] {
      ShownLines(m, Display(m.data).sender, Display(m.data).text);
      FrontDisplays(m, d, Display(m.data).sender, Display(m.data).text);
    }
  }

  /** After whole deliveries and a front of one more, the client displays the whole ones, and at
      most one line more: the same sender with a front of the text. */
  lemma ClientShowsACut(ds: seq<Delivery>, d: Delivery, front: string)
    requires forall i :: 0 <= i < |ds| ==> Deliverable(ds[i])
    requires Deliverable(d) && front < Encode(Message("delivery", Payload(d.room, d.sender, d.text)))
    ensures var shown := ShowAll(Bytes(EncodeAll(DeliveryMessages(ds))) + Bytes(front));
            Lines(ds) <= shown && IsCut(shown[|ds|..], d)
  {
    ClientShowsEveryDelivery(ds, Bytes(front));
    CutDelivery(d, front);
    assert (Lines(ds) + ShowAll(Bytes(front)))[|ds|..] == ShowAll(Bytes(front));
  }

  /** A text cut short is displayed as if it had been sent: nothing marks it. */
  lemma CutTextIsShown(d: Delivery, text: string)
    requires Deliverable(d) && text < d.text && IsText(text)
    ensures var front := "delivery:" + Payload(d.room, d.sender, text);
            && front < Encode(Message("delivery", Payload(d.room, d.sender, d.text)))
            && ShowAll(Bytes(front)) == [Line(d.sender, text)]
  {
    var m := Message("delivery", Payload(d.room, d.sender, text));
    var front := "delivery:" + Payload(d.room, d.sender, text);
    CutEncoding(d, text, front);
    FrontHasNoBreaks(d, front, "delivery" + ":" + Payload(d.room, d.sender, d.text));
    DeliveryIsWellFormed(m, d.room, d.sender, text);
    UncutMessage(front, m);
    LastMessage(front, m);
    NoColonInName(d.room);
    NoColonInName(d.sender);
    DisplayInvertsPayload(d.room, d.sender, text);
  }

  lemma LastMessage(s: string, m: Message)
    requires NoBreaks(s) && 0 < |s| < MAXLEN && Parse(Trim(s)) == Received(m)
    ensures ShowAll(Bytes(s)) == ShowOne(m)
  {
    LastLine(s);
    NothingLeft(Bytes(s));
  }

  lemma CutEncoding(d: Delivery, text: string, front: string)
    requires text < d.text && front == "delivery:" + Payload(d.room, d.sender, text)
    ensures front < Encode(Message("delivery", Payload(d.room, d.sender, d.text)))
  {
    assert d.text == text + d.text[|text|..];
    assert Encode(Message("delivery", Payload(d.room, d.sender, d.text))) == front + (d.text[|text|..] + "\n");
  }

  lemma UncutMessage(s: string, m: Message)
    requires WellFormed(m) && s == "delivery:" + m.data && m.tag == "delivery"
    ensures Parse(Trim(s)) == Received(m)
  {
    assert s == m.tag + ":" + m.data;
    NothingToTrim(s, m);
    ParseInverts(m);
  }

  lemma NothingToTrim(s: string, m: Message)
    requires WellFormed(m) && s == m.tag + ":" + m.data
    ensures Trim(s) == s
  {
    assert s[|s| - 1] == if m.data == "" then ':' else m.data[|m.data| - 1];
  }
}
