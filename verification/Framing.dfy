/** Line framing: cutting a stream of text into lines as it arrives, in whatever pieces it arrives. */
module Framing {
  import opened Strings

  /** The lines a text ends with a newline, in order. */
  function Lines(text: string): seq<string>
    decreases |text|
  {
    var at := IndexOf(text, '\n');
    if at == |text| then [] else [text[..at]] + Lines(text[at + 1..])
  }

  /** What follows the last newline. */
  function Rest(text: string): string
    decreases |text|
  {
    var at := IndexOf(text, '\n');
    if at == |text| then text else Rest(text[at + 1..])
  }

  predicate IsBlank(line: string) {
    Trim(line) == ""
  }

  function NonBlank(lines: seq<string>): seq<string> {
    if lines == [] then []
    else NonBlank(lines[..|lines| - 1]) + if IsBlank(lines[|lines| - 1]) then [] else [lines[|lines| - 1]]
  }

  lemma {:induction false} NonBlankAppend(a: seq<string>, b: seq<string>)
    ensures NonBlank(a + b) == NonBlank(a) + NonBlank(b)
  {
    hide IsBlank;
    if b == [] {
      assert a + b == a;
    } else {
      NonBlankAppend(a, b[..|b| - 1]);
      assert (a + b)[..|a + b| - 1] == a + b[..|b| - 1];
    }
  }

  lemma IndexOfAppend(a: string, b: string, c: char)
    ensures IndexOf(a, c) < |a| ==> IndexOf(a + b, c) == IndexOf(a, c)
  {
    if IndexOf(a, c) < |a| {
      assert (a + b)[IndexOf(a, c)] == c;
      assert forall j :: 0 <= j < IndexOf(a, c) ==> (a + b)[j] == a[j];
    }
  }

  lemma FirstLine(text: string)
    ensures
      var at := IndexOf(text, '\n');
      if at == |text| then Lines(text) == [] && Rest(text) == text
      else Lines(text) == [text[..at]] + Lines(text[at + 1..]) && Rest(text) == Rest(text[at + 1..])
  {
    hide IndexOf;
  }

  /** Splitting a text in one go is splitting its front, and then the rest with what follows. */
  lemma {:induction false} SplitInTwo(a: string, b: string)
    ensures Lines(a + b) == Lines(a) + Lines(Rest(a) + b) && Rest(a + b) == Rest(Rest(a) + b)
    decreases |a|
  {
    hide Lines, Rest, IndexOf;
    var at := IndexOf(a, '\n');
    FirstLine(a);
    if at < |a| {
      IndexOfAppend(a, b, '\n');
      FirstLine(a + b);
      assert (a + b)[at + 1..] == a[at + 1..] + b && (a + b)[..at] == a[..at];
      SplitInTwo(a[at + 1..], b);
    }
  }

  /** Lines written out again, each with its newline. */
  function Unlines(lines: seq<string>): string {
    if lines == [] then "" else lines[0] + "\n" + Unlines(lines[1..])
  }

  /** Cutting loses nothing and adds nothing: written out again the lines and the rest are the text, and none of
      them holds a newline. */
  lemma {:induction false} LinesMakeText(text: string)
    ensures Unlines(Lines(text)) + Rest(text) == text
    ensures '\n' !in Rest(text) && forall line :: line in Lines(text) ==> '\n' !in line
    decreases |text|
  {
    hide IndexOf;
    FirstLine(text);
    NoneBefore(text, '\n');
    var at := IndexOf(text, '\n');
    if at < |text| {
      LinesMakeText(text[at + 1..]);
      assert text == text[..at] + "\n" + text[at + 1..];
      assert Lines(text)[1..] == Lines(text[at + 1..]);
    } else {
      assert text[..at] == text;
    }
  }

  lemma NoneBefore(text: string, c: char)
    ensures IndexOf(text, c) <= |text| && c !in text[..IndexOf(text, c)]
    ensures IndexOf(text, c) < |text| ==> text[IndexOf(text, c)] == c
  {
  }

  /** The extraction loop both readers run on every chunk: whole lines off the front of the buffer. */
  method TakeLines(buffer: string) returns (lines: seq<string>, rest: string)
    ensures lines == Lines(buffer) && rest == Rest(buffer)
  {
    hide Lines, Rest, IndexOf;
    lines, rest := [], buffer;
    FirstLine(rest);
    var at := IndexOf(rest, '\n');
    while at < |rest|
      invariant at == IndexOf(rest, '\n')
      invariant if at == |rest| then Lines(rest) == [] && Rest(rest) == rest
        else Lines(rest) == [rest[..at]] + Lines(rest[at + 1..]) && Rest(rest) == Rest(rest[at + 1..])
      invariant lines + Lines(rest) == Lines(buffer) && Rest(rest) == Rest(buffer)
      decreases |rest|
    {
      lines := lines + [rest[..at]];
      rest := rest[at + 1..];
      FirstLine(rest);
      at := IndexOf(rest, '\n');
    }
  }

  function Joined(chunks: seq<string>): string {
    if chunks == [] then "" else Joined(chunks[..|chunks| - 1]) + chunks[|chunks| - 1]
  }
}

/** The protocol server over standard input and output. */
module FramingStdio {
  import opened Options
  import opened Framing

  /** What a line is answered with, if anything; parse and handler failures answer like anything else. */
  type Handler = string -> Option<string>

  function Replies(lines: seq<string>, handle: Handler): seq<string> {
    if lines == [] then []
    else
      var reply := handle(lines[|lines| - 1]);
      Replies(lines[..|lines| - 1], handle) + if reply.Some? then [reply.value] else []
  }

  /** All the requests of a finished input: an unterminated last line is one too. */
  function Requests(input: string): seq<string> {
    NonBlank(Lines(input) + [Rest(input)])
  }

  class StdioServer {
    const handle: Handler
    var buffer: string
    var queue: seq<string>
    var done: nat
    var ended: bool
    var output: seq<string>
    ghost var input: string

    /** Whatever the chunks were, the queue holds the non-blank lines so far and the output answers the
        first of them in order. */
    ghost predicate Valid()
      reads this
    {
      && done <= |queue| && output == Replies(queue[..done], handle)
      && (if ended then buffer == "" && queue == Requests(input)
          else buffer == Rest(input) && queue == NonBlank(Lines(input)))
    }

    constructor (handle: Handler)
      ensures Valid() && this.handle == handle && !ended && input == "" && done == 0
    {
      this.handle := handle;
      buffer, queue, done, ended, output, input := "", [], 0, false, [], "";
    }

    method HandleLine(line: string)
      modifies this`queue
      ensures queue == old(queue) + NonBlank([line])
    {
      assert NonBlank([line]) == NonBlank([]) + if IsBlank(line) then [] else [line];
      if !IsBlank(line) {
        queue := queue + [line];
      }
    }

    method HandleLines(lines: seq<string>)
      modifies this`queue
      ensures queue == old(queue) + NonBlank(lines)
    {
      hide IsBlank;
      for i := 0 to |lines|
        invariant queue == old(queue) + NonBlank(lines[..i])
      {
        NonBlankAppend(lines[..i], [lines[i]]);
        assert lines[..i + 1] == lines[..i] + [lines[i]];
        HandleLine(lines[i]);
      }
      assert lines[..|lines|] == lines;
    }

    method OnData(chunk: string)
      requires Valid() && !ended
      modifies this
      ensures Valid() && !ended && input == old(input) + chunk && done == old(done)
    {
      hide Lines, Rest, NonBlank, Replies;
      SplitInTwo(input, chunk);
      var lines, rest := TakeLines(buffer + chunk);
      ghost var before := queue;
      HandleLines(lines);
      NonBlankAppend(Lines(input), lines);
      assert queue[..done] == before[..done];
      buffer, input := rest, input + chunk;
    }

    method OnEnd()
      requires Valid()
      modifies this
      ensures Valid() && ended && input == old(input) && done == old(done)
    {
      if ended {
        return;
      }
      ended := true;
      ghost var before := queue;
      HandleLine(buffer);
      NonBlankAppend(Lines(input), [Rest(input)]);
      assert queue[..done] == before[..done];
      buffer := "";
    }

    /** The queue runs its requests one after another, whenever it gets to. */
    method RunNext()
      requires Valid() && done < |queue|
      modifies this`done, this`output
      ensures Valid() && done == old(done) + 1
    {
      var reply := handle(queue[done]);
      assert queue[..done + 1][..done] == queue[..done];
      if reply.Some? {
        output := output + [reply.value];
      }
      done := done + 1;
    }
  }

  /** For every way of cutting the input, the replies are those to its non-blank lines, in order. */
  method Serve(chunks: seq<string>, handle: Handler) returns (output: seq<string>)
    ensures output == Replies(Requests(Joined(chunks)), handle)
  {
    var server := new StdioServer(handle);
    for i := 0 to |chunks|
      invariant server.Valid() && !server.ended && server.input == Joined(chunks[..i]) && server.handle == handle
    {
      assert chunks[..i + 1][..i] == chunks[..i];
      server.OnData(chunks[i]);
      if server.done < |server.queue| {
        server.RunNext();
      }
    }
    assert chunks[..|chunks|] == chunks;
    server.OnEnd();
    while server.done < |server.queue|
      invariant server.Valid() && server.ended && server.input == Joined(chunks) && server.handle == handle
      decreases |server.queue| - server.done
    {
      server.RunNext();
    }
    assert server.queue[..server.done] == server.queue;
    return server.output;
  }
}

/** The command line's side of the Runner socket: one request in flight, answers by line. */
module FramingConnection {
  import opened Options
  import opened Strings
  import opened Framing

  const MAX_FRAME_BYTES: nat := 1_048_576

  /** The bytes of a text in UTF-8. */
  function ByteLength(text: string): nat {
    if text == "" then 0
    else
      var c := text[|text| - 1];
      ByteLength(text[..|text| - 1])
        + if c < '\U{80}' then 1 else if c < '\U{800}' then 2 else if c < '\U{10000}' then 3 else 4
  }

  datatype Failure = FRAME_TOO_LARGE | CONNECTION_CLOSED | SOCKET_ERROR(message: string)

  /** How an exchange ended. */
  datatype Ended = Answered(line: string) | Failed(failure: Failure) | TimedOut

  /** What the exchanges were answered with, in order. */
  function Taken(results: seq<Ended>): seq<string> {
    if results == [] then []
    else
      var last := results[|results| - 1];
      Taken(results[..|results| - 1]) + if last.Answered? then [last.line] else []
  }

  /** Once an exchange has gone unanswered, none after it is answered. */
  ghost predicate AnsweredFirst(results: seq<Ended>) {
    forall j, k :: 0 <= j < k < |results| && results[k].Answered? ==> results[j].Answered?
  }

  lemma TakenMore(results: seq<Ended>, ended: Ended)
    ensures Taken(results + [ended]) == Taken(results) + if ended.Answered? then [ended.line] else []
  {
    assert (results + [ended])[..|results|] == results;
  }

  lemma {:induction false} TakenAt(results: seq<Ended>, k: nat)
    requires AnsweredFirst(results) && k < |results| && results[k].Answered?
    ensures k < |Taken(results)| && Taken(results)[k] == results[k].line
    ensures results[|results| - 1].Answered? ==> |Taken(results)| == |results|
  {
    var front := results[..|results| - 1];
    if k < |front| {
      TakenAt(front, k);
      if results[|results| - 1].Answered? {
        assert results[|results| - 2].Answered?;
        assert front[|front| - 1] == results[|results| - 2];
      }
    } else if k > 0 {
      assert results[k - 1].Answered? && front[k - 1] == results[k - 1];
      TakenAt(front, k - 1);
    }
  }

  class Connection {
    var buffer: string
    var lines: seq<string>
    var waiting: bool
    var failure: Option<Failure>
    var closed: bool
    /** What was sent, and how each exchange that is over ended. */
    var sent: seq<string>
    var results: seq<Ended>
    ghost var input: string

    /** Nothing is lost, invented or reordered between the stream and the exchanges; after one has gone
        unanswered, the next ones will be too. */
    ghost predicate Valid()
      reads this
    {
      && buffer == Rest(input) && Taken(results) + lines == NonBlank(Lines(input))
      && (waiting ==> lines == [] && failure.None?) && |sent| == |results| + (if waiting then 1 else 0)
      && AnsweredFirst(results)
      && (forall k :: 0 <= k < |results| && !results[k].Answered? ==> failure.Some? || (closed && lines == []))
    }

    constructor ()
      ensures Valid() && !waiting && !closed && failure.None? && sent == [] && input == ""
    {
      buffer, lines, waiting, failure, closed, sent, results, input := "", [], false, None, false, [], [], "";
    }

    /** A line goes to the exchange that waits, or is kept for the next. */
    method Deliver(line: string)
      requires waiting ==> lines == []
      modifies this`lines, this`waiting, this`results
      ensures Taken(results) + lines == old(Taken(results) + lines) + [line] && (waiting ==> lines == [])
      ensures old(waiting) ==> !waiting && results == old(results) + [Answered(line)] && lines == old(lines)
      ensures !old(waiting) ==> !waiting && results == old(results)
    {
      if !waiting {
        lines := lines + [line];
        return;
      }
      waiting := false;
      TakenMore(results, Answered(line));
      results := results + [Answered(line)];
    }

    method DeliverAll(found: seq<string>)
      requires waiting ==> lines == []
      modifies this`lines, this`waiting, this`results
      ensures Taken(results) + lines == old(Taken(results) + lines) + NonBlank(found) && (waiting ==> lines == [])
      ensures waiting ==> old(waiting) && results == old(results)
      ensures !waiting ==>
        results == old(results) || (old(waiting) && |results| == |old(results)| + 1 && results[..|old(results)|] == old(results)
          && results[|old(results)|].Answered?)
      ensures old(waiting) && !waiting ==> |results| == |old(results)| + 1
    {
      hide IsBlank, Taken;
      for i := 0 to |found|
        invariant Taken(results) + lines == old(Taken(results) + lines) + NonBlank(found[..i]) && (waiting ==> lines == [])
        invariant waiting ==> old(waiting) && results == old(results)
        invariant !waiting ==>
          results == old(results) || (old(waiting) && |results| == |old(results)| + 1 && results[..|old(results)|] == old(results)
            && results[|old(results)|].Answered?)
        invariant old(waiting) && !waiting ==> |results| == |old(results)| + 1
      {
        assert found[..i + 1][..i] == found[..i];
        if !IsBlank(found[i]) {
          Deliver(found[i]);
        }
      }
      assert found[..|found|] == found;
    }

    /** The first failure stands; an exchange that waits ends with it. */
    method Fail(error: Failure)
      requires Valid()
      modifies this
      ensures Valid() && !waiting && failure == (if old(failure).Some? then old(failure) else Some(error))
      ensures input == old(input) && sent == old(sent) && closed == old(closed)
      ensures results == old(results) + if old(waiting) then [Failed(error)] else []
    {
      hide Taken, NonBlank, Lines, Rest;
      if failure.None? {
        failure := Some(error);
      }
      if waiting {
        waiting := false;
        TakenMore(results, Failed(failure.value));
        results := results + [Failed(failure.value)];
      }
    }

    /** A chunk of the stream. A socket that was closed delivers none. */
    method OnData(chunk: string)
      requires Valid() && !closed
      modifies this
      ensures Valid() && input == old(input) + chunk && sent == old(sent) && closed == old(closed)
      ensures failure == if old(failure).None? && ByteLength(Rest(input)) > MAX_FRAME_BYTES then Some(FRAME_TOO_LARGE) else old(failure)
    {
      hide Lines, Rest, NonBlank, Taken, ByteLength;
      SplitInTwo(input, chunk);
      var found, rest := TakeLines(buffer + chunk);
      DeliverAll(found);
      NonBlankAppend(Lines(input), found);
      buffer, input := rest, input + chunk;
      if ByteLength(buffer) > MAX_FRAME_BYTES {
        Fail(FRAME_TOO_LARGE);
      }
    }

    method OnClose(error: Option<Failure>)
      requires Valid()
      modifies this
      ensures Valid() && !waiting && input == old(input) && sent == old(sent) && closed == old(closed)
      ensures failure == if old(failure).Some? then old(failure)
                         else if error.Some? then error else Some(CONNECTION_CLOSED)
      ensures results == old(results) + if old(waiting) then [Failed(failure.value)] else []
    {
      hide Taken, NonBlank, Lines, Rest;
      Fail(if error.Some? then error.value else CONNECTION_CLOSED);
    }

    /** A request goes out and waits for its line, unless one has been delivered already. After a failure
        nothing goes out, and neither does a frame that is too large. */
    method Exchange(frame: string) returns (refused: Option<Failure>)
      requires Valid() && !waiting
      modifies this
      ensures Valid() && input == old(input) && closed == old(closed) && failure == old(failure)
      ensures refused == if failure.Some? then failure
                         else if ByteLength(frame + "\n") > MAX_FRAME_BYTES then Some(FRAME_TOO_LARGE) else None
      ensures refused.Some? ==> sent == old(sent) && results == old(results) && !waiting
      ensures refused.None? ==> sent == old(sent) + [frame + "\n"]
    {
      hide Taken, NonBlank, Lines, Rest, ByteLength;
      if failure.Some? {
        return failure;
      }
      var line := frame + "\n";
      if ByteLength(line) > MAX_FRAME_BYTES {
        return Some(FRAME_TOO_LARGE);
      }
      sent := sent + [line];
      if lines != [] {
        TakenMore(results, Answered(lines[0]));
        results := results + [Answered(lines[0])];
        lines := lines[1..];
      } else {
        waiting := true;
      }
      return None;
    }

    /** No line came in time: the exchange is over and the connection closed. */
    method Timeout()
      requires Valid() && waiting
      modifies this
      ensures Valid() && !waiting && closed && results == old(results) + [TimedOut] && input == old(input) && sent == old(sent)
    {
      hide Taken, NonBlank, Lines, Rest;
      waiting := false;
      Close();
      TakenMore(results, TimedOut);
      results := results + [TimedOut];
    }

    /** Closing again does nothing more, and costs no line. */
    method Close()
      modifies this`closed
      ensures closed && (old(Valid()) ==> Valid())
    {
      if closed {
        return;
      }
      closed := true;
    }

    /** If the k-th exchange is answered, it is with the k-th non-blank line of everything received, however
        the stream was cut up, whenever the exchanges were made, and whatever failed or timed out. */
    lemma KthAnswer(k: nat)
      requires Valid() && k < |results| && results[k].Answered?
      ensures k < |NonBlank(Lines(input))| && results[k].line == NonBlank(Lines(input))[k]
    {
      TakenAt(results, k);
      assert Taken(results)[k] == (Taken(results) + lines)[k];
    }
  }
}
