/** One request and one response travel over a stream socket, each as a line. The kernel
  * takes and gives bytes in whatever portions it likes: a schedule of outcomes stands for it,
  * and a call that outlives its schedule waits.
  */
module LineFraming {
  import opened Splitting

  const MAX_LINE_BYTES := 1024 * 1024
  const BUFFER_BYTES := 4096

  // Takes(n): n bytes are taken, or all that is offered when that is less.
  datatype SendOutcome = Takes(limit: nat) | SendInterrupted | SendFails

  datatype ReadOutcome = Chunk(bytes: string) | ReadInterrupted | EndOfFile | ConnectionReset | ReadFails

  datatype WriteResult = Written | PayloadTooLarge | PayloadHasNewline | WroteZeroBytes | WriteFailed | SendWaits

  datatype ReadResult = Line(text: string) | LineTooLarge | MissingNewline | ReadFailed | ReadWaits

  // read(2) fills part of the buffer, and never none of it
  predicate IsRead(outcome: ReadOutcome) {
    outcome.Chunk? ==> 0 < |outcome.bytes| <= BUFFER_BYTES
  }

  predicate AreArrivals(arrivals: seq<ReadOutcome>) {
    forall i :: 0 <= i < |arrivals| ==> IsRead(arrivals[i])
  }

  // How many bytes a schedule of sends takes before it fails or ends.
  function Capacity(sends: seq<SendOutcome>): nat {
    if sends == [] then 0
    else match sends[0] {
      case Takes(limit) => if limit == 0 then 0 else limit + Capacity(sends[1..])
      case SendInterrupted => Capacity(sends[1..])
      case SendFails => 0
    }
  }

  function SendEnd(sends: seq<SendOutcome>): WriteResult {
    if sends == [] then SendWaits
    else match sends[0] {
      case Takes(limit) => if limit == 0 then WroteZeroBytes else SendEnd(sends[1..])
      case SendInterrupted => SendEnd(sends[1..])
      case SendFails => WriteFailed
    }
  }

  // The bytes a schedule of arrivals delivers before it ends, and how it ends.
  function Bytes(arrivals: seq<ReadOutcome>): string {
    if arrivals == [] then ""
    else match arrivals[0] {
      case Chunk(bytes) => bytes + Bytes(arrivals[1..])
      case ReadInterrupted => Bytes(arrivals[1..])
      case _ => ""
    }
  }

  function ReadEnd(arrivals: seq<ReadOutcome>): ReadResult {
    if arrivals == [] then ReadWaits
    else match arrivals[0] {
      case Chunk(_) => ReadEnd(arrivals[1..])
      case ReadInterrupted => ReadEnd(arrivals[1..])
      case EndOfFile => MissingNewline
      case ConnectionReset => MissingNewline
      case ReadFails => ReadFailed
    }
  }

  // What a line means to its reader: it depends on the bytes and on how they end only.
  function LineOf(stream: string, end: ReadResult): ReadResult {
    var n := IndexOf('\n', stream);
    if n > MAX_LINE_BYTES then LineTooLarge
    else if n < |stream| then Line(stream[..n])
    else end
  }

  predicate IsPayload(data: string) {
    |data| <= MAX_LINE_BYTES && '\n' !in data
  }

  // What a write leaves on the wire.
  function SentOf(data: string, sends: seq<SendOutcome>): string {
    if !IsPayload(data) then ""
    else if Capacity(sends) >= |data| + 1 then data + "\n"
    else data[..Capacity(sends)]
  }

  function WriteResultOf(data: string, sends: seq<SendOutcome>): WriteResult {
    if |data| > MAX_LINE_BYTES then PayloadTooLarge
    else if '\n' in data then PayloadHasNewline
    else if Capacity(sends) >= |data| + 1 then Written
    else SendEnd(sends)
  }

  // What the server's handler gives for a request.
  datatype Handled = Answer(text: string) | HandlerThrew

  // How the server is done with a connection.
  datatype Served = NotRead(request: ReadResult) | NotHandled | Replied(written: WriteResult)

  // What the server leaves on the wire.
  function AnswerOf(handler: string -> Handled, request: ReadResult, sends: seq<SendOutcome>): string {
    if request.Line? && handler(request.text).Answer? then SentOf(handler(request.text).text, sends) else ""
  }

  // The three ways to read a stream.
  lemma WholeLine(stream: string, n: nat, end: ReadResult)
    requires n < |stream| && n <= MAX_LINE_BYTES && '\n' !in stream[..n] && stream[n] == '\n'
    ensures LineOf(stream, end) == Line(stream[..n])
  {
    IndexOfIsUnique('\n', stream, n);
  }

  lemma LongLine(stream: string, n: nat, end: ReadResult)
    requires MAX_LINE_BYTES <= n < |stream| && '\n' !in stream[..n] && stream[n] != '\n'
    ensures LineOf(stream, end) == LineTooLarge
  {
    assert forall i :: 0 <= i < n ==> stream[i] in stream[..n];
  }

  lemma NoLine(stream: string, end: ReadResult)
    requires |stream| <= MAX_LINE_BYTES && '\n' !in stream
    ensures LineOf(stream, end) == end
  {
    IndexOfIsUnique('\n', stream, |stream|);
  }

  lemma {:induction false} SendEndIsNotWritten(sends: seq<SendOutcome>)
    ensures SendEnd(sends).WroteZeroBytes? || SendEnd(sends).WriteFailed? || SendEnd(sends).SendWaits?
  {
    if sends != [] {
      SendEndIsNotWritten(sends[1..]);
    }
  }

  lemma {:induction false} ReadEndIsNoLine(arrivals: seq<ReadOutcome>)
    ensures !ReadEnd(arrivals).Line? && !ReadEnd(arrivals).LineTooLarge?
  {
    if arrivals != [] {
      ReadEndIsNoLine(arrivals[1..]);
    }
  }

  // Reads that neither end nor fail.
  predicate GoesOn(arrivals: seq<ReadOutcome>) {
    forall i :: 0 <= i < |arrivals| ==> arrivals[i].Chunk? || arrivals[i].ReadInterrupted?
  }

  lemma {:induction false} ReadsUpTo(before: seq<ReadOutcome>, last: ReadOutcome, after: seq<ReadOutcome>)
    requires GoesOn(before) && !last.Chunk? && !last.ReadInterrupted?
    ensures Bytes(before + [last] + after) == Bytes(before) && ReadEnd(before) == ReadWaits
    ensures ReadEnd(before + [last] + after) == if last.ReadFails? then ReadFailed else MissingNewline
  {
    if before == [] {
      assert before + [last] + after == [last] + after;
    } else {
      ReadsUpTo(before[1..], last, after);
      assert (before + [last] + after)[1..] == before[1..] + [last] + after;
    }
  }

  // A line that stays without its newline: the end of the stream and a reset count as one, a failure as another, and
  // what comes after them does not count.
  lemma UnfinishedLine(before: seq<ReadOutcome>, after: seq<ReadOutcome>)
    requires GoesOn(before) && |Bytes(before)| <= 1024 * 1024 && '\n' !in Bytes(before)
    ensures LineOf(Bytes(before), ReadEnd(before)) == ReadWaits
    ensures LineOf(Bytes(before + [EndOfFile] + after), ReadEnd(before + [EndOfFile] + after)) == MissingNewline
    ensures LineOf(Bytes(before + [ConnectionReset] + after), ReadEnd(before + [ConnectionReset] + after)) ==
            MissingNewline
    ensures LineOf(Bytes(before + [ReadFails] + after), ReadEnd(before + [ReadFails] + after)) == ReadFailed
  {
    ReadsUpTo(before, EndOfFile, after);
    ReadsUpTo(before, ConnectionReset, after);
    ReadsUpTo(before, ReadFails, after);
    NoLine(Bytes(before), ReadWaits);
    NoLine(Bytes(before), MissingNewline);
    NoLine(Bytes(before), ReadFailed);
  }

  // Sends that neither stop nor fail.
  predicate TakesOn(sends: seq<SendOutcome>) {
    forall i :: 0 <= i < |sends| ==> sends[i].SendInterrupted? || (sends[i].Takes? && sends[i].limit > 0)
  }

  lemma {:induction false} SendsUpTo(before: seq<SendOutcome>, last: SendOutcome, after: seq<SendOutcome>)
    requires TakesOn(before) && (last == Takes(0) || last == SendFails)
    ensures Capacity(before + [last] + after) == Capacity(before) && SendEnd(before) == SendWaits
    ensures SendEnd(before + [last] + after) == if last.SendFails? then WriteFailed else WroteZeroBytes
  {
    if before == [] {
      assert before + [last] + after == [last] + after;
    } else {
      SendsUpTo(before[1..], last, after);
      assert (before + [last] + after)[1..] == before[1..] + [last] + after;
    }
  }

  // A payload that is not sent to its end: how the sends end tells the error, and what was taken before is sent.
  lemma UnfinishedWrite(data: string, before: seq<SendOutcome>, after: seq<SendOutcome>)
    requires |data| <= 1024 * 1024 && '\n' !in data && TakesOn(before) && Capacity(before) <= |data|
    ensures WriteResultOf(data, before) == SendWaits
    ensures WriteResultOf(data, before + [Takes(0)] + after) == WroteZeroBytes
    ensures WriteResultOf(data, before + [SendFails] + after) == WriteFailed
    ensures SentOf(data, before + [SendFails] + after) == data[..Capacity(before)]
  {
    SendsUpTo(before, Takes(0), after);
    SendsUpTo(before, SendFails, after);
  }

  // What is no payload is refused before anything is sent, for its size first.
  lemma RefusedUnsent(data: string, sends: seq<SendOutcome>)
    requires |data| > 1024 * 1024 || '\n' in data
    ensures SentOf(data, sends) == ""
    ensures WriteResultOf(data, sends) == if |data| > 1024 * 1024 then PayloadTooLarge else PayloadHasNewline
  {
  }

  lemma PortionOf(stream: string, data: string, portion: string, left: string)
    requires stream == data + (portion + left)
    ensures |data| + |portion| <= |stream| && data == stream[..|data|]
    ensures forall i :: 0 <= i < |portion| ==> portion[i] == stream[|data| + i]
    ensures stream == stream[..|data| + |portion|] + left
  {
  }

  // The inner loop of a read: it moves one portion into the line.
  method TakePortion(data: string, buffer: array<char>, count: nat, ghost stream: string, ghost end: ReadResult)
    returns (grown: string, done: bool, result: ReadResult)
    requires count <= buffer.Length && |data| + count <= |stream|
    requires data == stream[..|data|] && |data| <= MAX_LINE_BYTES && '\n' !in data
    requires forall i :: 0 <= i < count ==> buffer[i] == stream[|data| + i]
    ensures done ==> result == LineOf(stream, end)
    ensures !done ==> grown == stream[..|data| + count] && |grown| <= MAX_LINE_BYTES && '\n' !in grown
  {
    grown, done, result := data, false, ReadWaits;
    for index := 0 to count
      invariant |grown| <= MAX_LINE_BYTES && '\n' !in grown && !done
      invariant |grown| == |data| + index && grown == stream[..|data| + index]
    {
      if buffer[index] == '\n' {
        WholeLine(stream, |grown|, end);
        return grown, true, Line(grown);
      }
      if |grown| >= MAX_LINE_BYTES {
        LongLine(stream, |grown|, end);
        return grown, true, LineTooLarge;
      }
      grown := grown + [buffer[index]];
    }
  }

  class Connection {
    var sends: seq<SendOutcome>
    var arrivals: seq<ReadOutcome>
    var sent: string // everything the kernel has taken

    constructor (sends: seq<SendOutcome>, arrivals: seq<ReadOutcome>)
      requires AreArrivals(arrivals)
      ensures this.sends == sends && this.arrivals == arrivals && sent == ""
    {
      this.sends, this.arrivals, this.sent := sends, arrivals, "";
    }

    method WriteAll(data: string) returns (result: WriteResult)
      modifies this
      ensures arrivals == old(arrivals)
      ensures sent == old(sent) + if Capacity(old(sends)) >= |data| then data else data[..Capacity(old(sends))]
      ensures result == if Capacity(old(sends)) >= |data| then Written else SendEnd(old(sends))
    {
      var current, remaining := 0, |data|;
      while remaining > 0
        invariant 0 <= current == |data| - remaining <= |data| && arrivals == old(arrivals)
        invariant sent == old(sent) + data[..current]
        invariant Capacity(old(sends)) >= |data| <==> Capacity(sends) >= remaining
        invariant Capacity(sends) < remaining ==>
                    Capacity(old(sends)) == current + Capacity(sends) && SendEnd(old(sends)) == SendEnd(sends)
        decreases |sends|
      {
        if sends == [] {
          return SendWaits;
        }
        var outcome := sends[0];
        sends := sends[1..];
        match outcome {
          case SendInterrupted =>
            continue;
          case SendFails =>
            return WriteFailed;
          case Takes(limit) =>
            var written := if limit <= remaining then limit else remaining;
            if written == 0 {
              return WroteZeroBytes;
            }
            assert data[..current + written] == data[..current] + data[current..current + written];
            sent := sent + data[current..current + written];
            current, remaining := current + written, remaining - written;
        }
      }
      assert data[..current] == data;
      return Written;
    }

    method WriteLine(data: string) returns (result: WriteResult)
      modifies this
      ensures arrivals == old(arrivals)
      ensures sent == old(sent) + SentOf(data, old(sends))
      ensures result == WriteResultOf(data, old(sends))
    {
      if |data| > MAX_LINE_BYTES {
        assert sent == old(sent) + "";
        return PayloadTooLarge;
      }
      if '\n' in data {
        assert sent == old(sent) + "";
        return PayloadHasNewline;
      }
      ghost var taken := Capacity(sends);
      assert taken <= |data| ==> (data + "\n")[..taken] == data[..taken];
      result := WriteAll(data + "\n");
    }

    // One read(2): -1 for a failed call, with the reason beside it.
    method Read(buffer: array<char>) returns (count: int, why: ReadOutcome)
      requires buffer.Length == BUFFER_BYTES && arrivals != [] && AreArrivals(arrivals)
      modifies this, buffer
      ensures arrivals == old(arrivals[1..]) && why == old(arrivals[0]) && sends == old(sends) && sent == old(sent)
      ensures AreArrivals(arrivals)
      ensures why.Chunk? ==> count == |why.bytes| && buffer[..count] == why.bytes
      ensures why.EndOfFile? ==> count == 0
      ensures !why.Chunk? && !why.EndOfFile? ==> count == -1
    {
      why := arrivals[0];
      arrivals := arrivals[1..];
      count := if why.EndOfFile? then 0 else -1;
      if why.Chunk? {
        count := |why.bytes|;
        forall i | 0 <= i < |why.bytes| {
          buffer[i] := why.bytes[i];
        }
      }
    }

    method ReadLine() returns (result: ReadResult)
      requires AreArrivals(arrivals)
      modifies this
      ensures sends == old(sends) && sent == old(sent)
      ensures result == LineOf(Bytes(old(arrivals)), ReadEnd(old(arrivals)))
    {
      ghost var stream, end := Bytes(arrivals), ReadEnd(arrivals);
      var data := "";
      var buffer := new char[BUFFER_BYTES];
      while true
        invariant sends == old(sends) && sent == old(sent) && fresh(buffer)
        invariant AreArrivals(arrivals) && ReadEnd(arrivals) == end
        invariant |data| <= MAX_LINE_BYTES && '\n' !in data
        invariant stream == data + Bytes(arrivals)
        decreases |arrivals|
      {
        if arrivals == [] {
          NoLine(stream, end);
          return ReadWaits;
        }
        ghost var left, before := Bytes(arrivals[1..]), |data|;
        var count, why := Read(buffer);
        if count < 0 {
          if why == ReadInterrupted {
            continue;
          }
          NoLine(stream, end);
          return if why == ConnectionReset then MissingNewline else ReadFailed;
        }
        if count == 0 {
          NoLine(stream, end);
          return MissingNewline;
        }
        PortionOf(stream, data, buffer[..count], left);
        var done;
        data, done, result := TakePortion(data, buffer, count, stream, end);
        if done {
          return;
        }
      }
    }

    // The client: one request, then one response.
    method Request(request: string) returns (written: WriteResult, response: ReadResult)
      requires AreArrivals(arrivals)
      modifies this
      ensures sent == old(sent) + SentOf(request, old(sends))
      ensures written == WriteResultOf(request, old(sends))
      ensures response == if written == Written then LineOf(Bytes(old(arrivals)), ReadEnd(old(arrivals))) else ReadWaits
    {
      response := ReadWaits;
      written := WriteLine(request);
      if written == Written {
        response := ReadLine();
      }
    }

    // The server: it answers only what it read as a line. Whatever its caller is thrown, the connection is done.
    method AcceptOne(handler: string -> Handled) returns (served: Served)
      requires AreArrivals(arrivals)
      modifies this
      ensures var request := LineOf(Bytes(old(arrivals)), ReadEnd(old(arrivals)));
              && (served.NotRead? <==> !request.Line?) && (served.NotRead? ==> served.request == request)
              && (served.NotHandled? <==> request.Line? && handler(request.text).HandlerThrew?)
              && (served.Replied? ==> served.written == WriteResultOf(handler(request.text).text, old(sends)))
      ensures sent == old(sent) + AnswerOf(handler, LineOf(Bytes(old(arrivals)), ReadEnd(old(arrivals))), old(sends))
    {
      var request := ReadLine();
      assert sent == old(sent) + "";
      if !request.Line? {
        return NotRead(request);
      }
      var answer := handler(request.text);
      if answer.HandlerThrew? {
        return NotHandled;
      }
      var written := WriteLine(answer.text);
      return Replied(written);
    }
  }

  // Whatever part of a written line reaches the reader, in whatever chunks, the reader gets the payload
  // when all of it came and an error, never a shorter or longer line, when not.
  lemma LineArrivesWholeOrNotAtAll(data: string, sends: seq<SendOutcome>, arrivals: seq<ReadOutcome>)
    requires Bytes(arrivals) <= SentOf(data, sends)
    ensures var result := LineOf(Bytes(arrivals), ReadEnd(arrivals));
            && !result.LineTooLarge?
            && (result.Line? <==> Bytes(arrivals) == data + "\n" && WriteResultOf(data, sends) == Written)
            && (result.Line? ==> result.text == data)
            && (!result.Line? ==> result == ReadEnd(arrivals))
  {
    var stream := Bytes(arrivals);
    ReadEndIsNoLine(arrivals);
    SendEndIsNotWritten(sends);
    if stream == data + "\n" {
      assert IsPayload(data);
      assert stream[..|data|] == data;
      IndexOfIsUnique('\n', stream, |data|);
    } else if IsPayload(data) {
      assert stream <= data + "\n" && |stream| <= |data|;
      assert stream == (data + "\n")[..|stream|] == data[..|stream|];
      IndexOfIsUnique('\n', stream, |stream|);
    } else {
      IndexOfIsUnique('\n', stream, 0);
    }
  }

  // A schedule without errors that makes progress at least `size` times, however often it is interrupted.
  predicate IsPatient(sends: seq<SendOutcome>, size: nat) {
    && (forall i :: 0 <= i < |sends| ==> sends[i].SendInterrupted? || (sends[i].Takes? && sends[i].limit > 0))
    && size <= |multiset(sends)| - multiset(sends)[SendInterrupted]
  }

  lemma {:induction false} PatientSchedule(sends: seq<SendOutcome>, size: nat)
    requires IsPatient(sends, size)
    ensures size <= Capacity(sends)
    decreases |sends|
  {
    if sends != [] {
      assert sends == [sends[0]] + sends[1..];
      assert multiset(sends) == multiset([sends[0]]) + multiset(sends[1..]);
      var least := |multiset(sends[1..])| - multiset(sends[1..])[SendInterrupted];
      assert least >= 0 by {
        assert multiset(sends[1..])[SendInterrupted] <= |multiset(sends[1..])|;
      }
      PatientSchedule(sends[1..], if size <= least then size else least);
    }
  }

  // Every payload comes back, whatever the short writes, the interruptions and the chunks.
  lemma RoundTrip(data: string, sends: seq<SendOutcome>, arrivals: seq<ReadOutcome>)
    requires IsPayload(data) && IsPatient(sends, |data| + 1)
    requires Bytes(arrivals) == SentOf(data, sends)
    ensures WriteResultOf(data, sends) == Written
    ensures LineOf(Bytes(arrivals), ReadEnd(arrivals)) == Line(data)
  {
    PatientSchedule(sends, |data| + 1);
    LineArrivesWholeOrNotAtAll(data, sends, arrivals);
  }

  // The reader's view of both directions: the client holds an answer exactly when all of it arrived, and never one to
  // anything but its own request.
  lemma ExchangeIsFaithful(request: string, handler: string -> Handled,
                           clientSends: seq<SendOutcome>, serverArrivals: seq<ReadOutcome>,
                           serverSends: seq<SendOutcome>, clientArrivals: seq<ReadOutcome>)
    requires Bytes(serverArrivals) <= SentOf(request, clientSends)
    requires Bytes(clientArrivals) <=
             AnswerOf(handler, LineOf(Bytes(serverArrivals), ReadEnd(serverArrivals)), serverSends)
    ensures var got := LineOf(Bytes(serverArrivals), ReadEnd(serverArrivals));
            var answer := LineOf(Bytes(clientArrivals), ReadEnd(clientArrivals));
            && (got.Line? ==> got.text == request && WriteResultOf(request, clientSends) == Written)
            && (answer.Line? ==> handler(request) == Answer(answer.text)
                                 && got.Line? && WriteResultOf(answer.text, serverSends) == Written)
            && (answer.Line? <==> got.Line? && handler(request).Answer?
                                  && Bytes(clientArrivals) == handler(request).text + "\n")
  {
    LineArrivesWholeOrNotAtAll(request, clientSends, serverArrivals);
    var got := LineOf(Bytes(serverArrivals), ReadEnd(serverArrivals));
    if got.Line? && handler(request).Answer? {
      LineArrivesWholeOrNotAtAll(handler(request).text, serverSends, clientArrivals);
    } else {
      ReadEndIsNoLine(clientArrivals);
      IndexOfIsUnique('\n', Bytes(clientArrivals), 0);
    }
  }
}
