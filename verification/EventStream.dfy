/** The Server-Sent Events reader of internal/sse/sse.go. It follows the code, not sections 9.2.5
    and 9.2.6 of the WHATWG HTML Living Standard, where they differ: only LF ends a line (trailing
    CRs are trimmed), a line without a colon is skipped, an event with an id or a type but no data
    is delivered, and the id does not carry over. Text is a sequence of characters. */
module EventStream {
  import opened Options

  datatype Event = Event(id: string, kind: string, data: string)

  datatype Outcome = Received(event: Event) | NotConnected | Cancelled | Closed | Broken

  /** The event being collected. */
  datatype Draft = Draft(id: string, kind: string, lines: seq<string>) {
    predicate Complete() { lines != [] || kind != [] || id != [] }
    function Finished(): Event { Event(id, kind, Join(lines)) }
  }

  const BLANK := Draft([], [], [])

  // ---------------------------------------------------------------- lines and fields

  /** The position of the first `c`, or the length of the text. */
  function Find(s: string, c: char): (i: nat)
    ensures i <= |s| && (i < |s| ==> s[i] == c)
    ensures forall k :: 0 <= k < i ==> s[k] != c
  {
    if s == [] || s[0] == c then 0 else 1 + Find(s[1..], c)
  }

  function TrimRight(s: string): (t: string)
    ensures t <= s
    ensures t != [] ==> t[|t| - 1] != '\r' && t[|t| - 1] != '\n'
  {
    if s != [] && (s[|s| - 1] == '\r' || s[|s| - 1] == '\n') then TrimRight(s[..|s| - 1]) else s
  }

  function Join(lines: seq<string>): (s: string)
  {
    if lines == [] then []
    else if |lines| == 1 then lines[0]
    else lines[0] + ['\n'] + Join(lines[1..])
  }

  datatype Field = Id | Kind | Data | Skip

  function FieldNamed(name: string): Field
  {
    if name == "id" then Id else if name == "event" then Kind else if name == "data" then Data else Skip
  }

  /** The field a non-empty trimmed line sets; comments, lines without a colon and unknown names
      set none. */
  function FieldOf(line: string): Field
  {
    var colon := Find(line, ':');
    if colon == 0 || colon == |line| then Skip else FieldNamed(line[..colon])
  }

  function ValueOf(line: string): string
    requires Find(line, ':') < |line|
  {
    var value := line[Find(line, ':') + 1..];
    if value != [] && value[0] == ' ' then value[1..] else value
  }

  function Take(d: Draft, line: string): (r: Draft)
  {
    match FieldOf(line)
    case Id => d.(id := ValueOf(line))
    case Kind => d.(kind := ValueOf(line))
    case Data => d.(lines := d.lines + [ValueOf(line)])
    case Skip => d
  }

  /** The text without its first `n` lines, or without all its complete lines if it has fewer. */
  function WithoutLines(s: string, n: nat): (rest: string)
    ensures |rest| <= |s|
  {
    var lf := Find(s, '\n');
    if n == 0 || lf == |s| then s else WithoutLines(s[lf + 1..], n - 1)
  }

  /** The complete lines of the text. */
  function Lines(s: string): (n: nat)
  {
    var lf := Find(s, '\n');
    if lf == |s| then 0 else 1 + Lines(s[lf + 1..])
  }

  /** What follows the last LF. */
  function Unterminated(s: string): (tail: string)
    ensures |tail| <= |s|
  {
    if s == [] || s[|s| - 1] == '\n' then [] else Unterminated(s[..|s| - 1]) + [s[|s| - 1]]
  }

  // ---------------------------------------------------------------- one read, as a function

  /** Either an event and the text after it, or the end of the text: then `rest` is what follows
      the last complete line. */
  datatype Read = Got(event: Event, rest: string) | End(rest: string)

  function ReadFrom(s: string, d: Draft): (r: Read)
    ensures |r.rest| <= |s|
    ensures r.Got? ==> |r.rest| < |s|
    decreases |s|
  {
    var lf := Find(s, '\n');
    if lf == |s| then End(s)
    else
      var line, rest := TrimRight(s[..lf + 1]), s[lf + 1..];
      if line != [] then ReadFrom(rest, Take(d, line))
      else if d.Complete() then Got(d.Finished(), rest)
      else ReadFrom(rest, d)
  }

  /** Reading again and again until the text ends. */
  function ReadAll(s: string): (events: seq<Event>)
    decreases |s|
  {
    match ReadFrom(s, BLANK)
    case Got(event, rest) => [event] + ReadAll(rest)
    case End(_) => []
  }

  // ---------------------------------------------------------------- the client

  class Client {
    var connected: bool
    var rest: string
    var bytesReceived: int
    var eventsReceived: int
    var errors: int
    /** How the connection ends after `rest`: with end of file or with another read error. */
    const endsBroken: bool

    constructor (text: string, endsBroken: bool)
      ensures connected && rest == text && bytesReceived == 0 && eventsReceived == 0 && errors == 0
      ensures this.endsBroken == endsBroken
    {
      connected, rest, bytesReceived, eventsReceived, errors := true, text, 0, 0, 0;
      this.endsBroken := endsBroken;
    }

    /** One line with its LF, or nothing when the text ends first; what follows the last LF is lost. */
    method ReadLine() returns (line: Option<string>)
      modifies this`rest, this`bytesReceived, this`errors
      ensures var lf := Find(old(rest), '\n');
              if lf == |old(rest)| then
                line.None? && rest == [] && bytesReceived == old(bytesReceived) && errors == old(errors) + 1
              else
                && line == Some(old(rest)[..lf + 1]) && rest == old(rest)[lf + 1..]
                && bytesReceived == old(bytesReceived) + lf + 1 && errors == old(errors)
    {
      var lf := Find(rest, '\n');
      if lf == |rest| {
        rest, errors := [], errors + 1;
        return None;
      }
      line := Some(rest[..lf + 1]);
      rest := rest[lf + 1..];
      bytesReceived := bytesReceived + |line.value|;
    }

    /** A non-empty trimmed line: skip it or set the field it names. */
    static method ParseLine(event: Event, dataLines: seq<string>, line: string)
      returns (event': Event, dataLines': seq<string>)
      requires line != []
      ensures Draft(event'.id, event'.kind, dataLines') == Take(Draft(event.id, event.kind, dataLines), line)
    {
      event', dataLines' := event, dataLines;
      if line[0] == ':' {
        return;
      }
      var colon := Find(line, ':');
      if colon == |line| {
        return;
      }
      var field := line[..colon];
      var value := line[colon + 1..];
      if |value| > 0 && value[0] == ' ' {
        value := value[1..];
      }
      match FieldNamed(field)
      case Id => event' := event.(id := value);
      case Kind => event' := event.(kind := value);
      case Data => dataLines' := dataLines + [value];
      case Skip =>
    }

    /** `cancelAfter` is how many lines are read before the context is seen cancelled, if ever. */
    method ReadEvent(cancelAfter: Option<nat>) returns (r: Outcome)
      modifies this
      ensures connected == old(connected)
      ensures eventsReceived == old(eventsReceived) + (if r.Received? then 1 else 0)
      ensures errors == old(errors) + (if r.Closed? || r.Broken? then 1 else 0)
      ensures (r.Broken? ==> endsBroken) && (r.Closed? ==> !endsBroken)
      ensures if !connected then r.NotConnected? && rest == old(rest) && bytesReceived == old(bytesReceived)
              else Explains(r, cancelAfter, old(rest), rest, bytesReceived - old(bytesReceived))
    {
      if !connected {
        return NotConnected;
      }
      r := ReadLines(cancelAfter);
      if r.Received? {
        eventsReceived := eventsReceived + 1;
      }
    }

    /** The read loop of a connected client. */
    method ReadLines(cancelAfter: Option<nat>) returns (r: Outcome)
      modifies this`rest, this`bytesReceived, this`errors
      ensures errors == old(errors) + (if r.Closed? || r.Broken? then 1 else 0)
      ensures (r.Broken? ==> endsBroken) && (r.Closed? ==> !endsBroken)
      ensures Explains(r, cancelAfter, old(rest), rest, bytesReceived - old(bytesReceived))
    {
      var event := Event([], [], []);
      var dataLines: seq<string> := [];
      var linesRead := 0;
      while true
        invariant errors == old(errors) && bytesReceived + |rest| == old(bytesReceived + |rest|)
        invariant OnTrack(old(rest), cancelAfter, rest, Draft(event.id, event.kind, dataLines), linesRead)
        decreases |rest|
      {
        if cancelAfter.Some? && linesRead >= cancelAfter.value {
          StoppedOnTrack(old(rest), cancelAfter, rest, Draft(event.id, event.kind, dataLines), linesRead);
          return Cancelled;
        }
        var end;
        end, event, dataLines := TakeLine(event, dataLines, old(rest), cancelAfter, linesRead);
        if end.Some? {
          return end.value;
        }
        linesRead := linesRead + 1;
      }
    }

    /** One turn of the loop: the line ends the read, or adds to the event. */
    method TakeLine(
      event: Event, dataLines: seq<string>, ghost whole: string, ghost limit: Option<nat>, ghost n: nat)
      returns (end: Option<Outcome>, event': Event, dataLines': seq<string>)
      requires OnTrack(whole, limit, rest, Draft(event.id, event.kind, dataLines), n)
      requires limit.Some? ==> n < limit.value
      modifies this`rest, this`bytesReceived, this`errors
      ensures errors == old(errors) + (if end.Some? && (end.value.Closed? || end.value.Broken?) then 1 else 0)
      ensures end.Some? ==> (end.value.Broken? ==> endsBroken) && (end.value.Closed? ==> !endsBroken)
      ensures end.Some? ==>
                Explains(end.value, limit, whole, rest, |whole| - |old(rest)| + bytesReceived - old(bytesReceived))
      ensures end.None? ==>
                && OnTrack(whole, limit, rest, Draft(event'.id, event'.kind, dataLines'), n + 1)
                && |rest| < |old(rest)| && bytesReceived + |rest| == old(bytesReceived + |rest|)
    {
      end, event', dataLines' := None, event, dataLines;
      ghost var before, draft := rest, Draft(event.id, event.kind, dataLines);
      var read := ReadLine();
      if read.None? {
        EndedOnTrack(whole, limit, before, draft, n);
        end := Some(if endsBroken then Broken else Closed);
        return;
      }
      var line := TrimRight(read.value);
      OneLineOn(whole, limit, before, draft, n, line, rest);
      if line == [] {
        if |dataLines| > 0 || event.kind != [] || event.id != [] {
          end := Some(Received(event.(data := Join(dataLines))));
        }
      } else {
        event', dataLines' := ParseLine(event, dataLines, line);
      }
    }
  }

  /** The requester's bounded loop: read until `max` events or the first failure. The events are the
      text's events in order, and the counters say how many were returned and how much was read. */
  method ReadUpTo(c: Client, max: nat) returns (events: seq<Event>)
    requires c.connected
    modifies c
    ensures c.connected && |events| <= max
    ensures events <= ReadAll(old(c.rest))
    ensures |events| == max || events == ReadAll(old(c.rest))
    ensures c.eventsReceived == old(c.eventsReceived) + |events|
    ensures c.errors == old(c.errors) + (if |events| < max then 1 else 0)
    ensures |events| == max ==>
              && ReadAll(old(c.rest)) == events + ReadAll(c.rest)
              && c.bytesReceived - old(c.bytesReceived) == |old(c.rest)| - |c.rest|
    ensures |events| < max ==>
              && c.rest == []
              && c.bytesReceived - old(c.bytesReceived) == |old(c.rest)| - |Unterminated(old(c.rest))|
  {
    events := [];
    while |events| < max
      invariant c.connected && |events| <= max
      invariant ReadSoFar(old(c.rest), events, c.rest)
      invariant c.eventsReceived == old(c.eventsReceived) + |events| && c.errors == old(c.errors)
      invariant c.bytesReceived + |c.rest| == old(c.bytesReceived + |c.rest|)
    {
      ghost var before := c.rest;
      var r := c.ReadEvent(None);
      if !r.Received? {
        NoMoreEvents(old(c.rest), events, before);
        return;
      }
      OneEventOn(old(c.rest), events, before, r.event, c.rest);
      events := events + [r.event];
    }
  }

  /** Reading on after one complete line. */
  function Next(d: Draft, line: string, rest: string): Read
  {
    if line != [] then ReadFrom(rest, Take(d, line))
    else if d.Complete() then Got(d.Finished(), rest)
    else ReadFrom(rest, d)
  }

  lemma AfterLine(s: string, d: Draft, lf: nat)
    requires lf == Find(s, '\n') < |s|
    ensures ReadFrom(s, d) == Next(d, TrimRight(s[..lf + 1]), s[lf + 1..])
  {
    var line, rest := TrimRight(s[..lf + 1]), s[lf + 1..];
    if line != [] {
      assert ReadFrom(s, d) == ReadFrom(rest, Take(d, line));
    } else if d.Complete() {
      assert ReadFrom(s, d) == Got(d.Finished(), rest);
    } else {
      assert ReadFrom(s, d) == ReadFrom(rest, d);
    }
  }

  /** After `n` lines: the rest, with the event collected so far, reads as the whole did, and the lines
      up to the limit end at the same place. */
  predicate OnTrack(before: string, limit: Option<nat>, rest: string, d: Draft, n: nat)
  {
    ReadFrom(before, BLANK) == ReadFrom(rest, d) && InStep(before, limit, rest, n)
  }

  predicate InStep(before: string, limit: Option<nat>, rest: string, n: nat)
  {
    && Lines(before) == n + Lines(rest)
    && (limit.Some? ==> n <= limit.value && WithoutLines(rest, limit.value - n) == WithoutLines(before, limit.value))
  }

  lemma OneLineLess(before: string, limit: Option<nat>, rest: string, n: nat)
    requires InStep(before, limit, rest, n) && Find(rest, '\n') < |rest| && (limit.Some? ==> n < limit.value)
    ensures InStep(before, limit, rest[Find(rest, '\n') + 1..], n + 1)
  {
  }

  lemma OneLineOn(
    before: string, limit: Option<nat>, rest: string, d: Draft, n: nat, line: string, after: string)
    requires OnTrack(before, limit, rest, d, n) && (limit.Some? ==> n < limit.value)
    requires var lf := Find(rest, '\n'); lf < |rest| && line == TrimRight(rest[..lf + 1]) && after == rest[lf + 1..]
    ensures if line != [] then
              OnTrack(before, limit, after, Take(d, line), n + 1)
            else if d.Complete() then
              Explains(Received(d.Finished()), limit, before, after, |before| - |after|)
            else
              OnTrack(before, limit, after, d, n + 1)
  {
    AfterLine(rest, d, Find(rest, '\n'));
    OneLineLess(before, limit, rest, n);
  }

  lemma StoppedOnTrack(before: string, limit: Option<nat>, rest: string, d: Draft, n: nat)
    requires OnTrack(before, limit, rest, d, n) && limit.Some? && n >= limit.value
    ensures Explains(Cancelled, limit, before, rest, |before| - |rest|)
  {
  }

  lemma EndedOnTrack(before: string, limit: Option<nat>, rest: string, d: Draft, n: nat)
    requires OnTrack(before, limit, rest, d, n) && Find(rest, '\n') == |rest| && (limit.Some? ==> n < limit.value)
    ensures Explains(Closed, limit, before, [], |before| - |rest|)
    ensures Explains(Broken, limit, before, [], |before| - |rest|)
  {
  }

  /** These events were read, and this is left: together they are the whole. */
  predicate ReadSoFar(before: string, events: seq<Event>, rest: string)
  {
    ReadAll(before) == events + ReadAll(rest) && Unterminated(rest) == Unterminated(before)
  }

  lemma OneEventOn(before: string, events: seq<Event>, rest: string, event: Event, after: string)
    requires ReadSoFar(before, events, rest) && ReadFrom(rest, BLANK) == Got(event, after)
    ensures ReadSoFar(before, events + [event], after)
  {
    ReadKeepsTheTail(rest, BLANK);
    FirstOfAll(rest, event, after);
    OneMoreEvent(ReadAll(before), events, event, ReadAll(after));
  }

  lemma OneMoreEvent(all: seq<Event>, events: seq<Event>, event: Event, more: seq<Event>)
    requires all == events + ([event] + more)
    ensures all == events + [event] + more
  {
  }

  lemma FirstOfAll(s: string, event: Event, after: string)
    requires ReadFrom(s, BLANK) == Got(event, after)
    ensures ReadAll(s) == [event] + ReadAll(after)
  {
  }

  lemma NoMoreEvents(before: string, events: seq<Event>, rest: string)
    requires ReadSoFar(before, events, rest) && ReadFrom(rest, BLANK).End?
    ensures ReadAll(before) == events && ReadFrom(rest, BLANK).rest == Unterminated(before)
  {
    ReadKeepsTheTail(rest, BLANK);
    assert events + [] == events;
  }

  /** A read that ends with the text has read all its complete lines; one that finds an event has left
      the unterminated tail where it was. */
  lemma {:induction false} ReadKeepsTheTail(s: string, d: Draft)
    ensures var r := ReadFrom(s, d);
            if r.End? then r.rest == Unterminated(s) else Unterminated(r.rest) == Unterminated(s)
    decreases |s|
  {
    var lf := Find(s, '\n');
    if lf < |s| {
      var line, rest := TrimRight(s[..lf + 1]), s[lf + 1..];
      AfterLine(s, d, lf);
      TailAfterLine(s, lf);
      if line != [] {
        ReadKeepsTheTail(rest, Take(d, line));
      } else if !d.Complete() {
        ReadKeepsTheTail(rest, d);
      }
    } else {
      NoLineAtAll(s);
    }
  }

  lemma {:induction false} TailAfterLine(s: string, lf: nat)
    requires lf < |s| && s[lf] == '\n'
    ensures Unterminated(s) == Unterminated(s[lf + 1..])
  {
    var n := |s| - 1;
    if lf < n {
      TailAfterLine(s[..n], lf);
      assert s[lf + 1..][..n - lf - 1] == s[..n][lf + 1..];
    }
  }

  lemma {:induction false} NoLineAtAll(s: string)
    requires forall k :: 0 <= k < |s| ==> s[k] != '\n'
    ensures Unterminated(s) == s
  {
    if s != [] { NoLineAtAll(s[..|s| - 1]); }
  }

  /** What one read does to the text, by outcome: `bytes` is what it adds to the byte counter. A cancelled
      read has taken just the lines it had time for, and no event is lost that was complete in them; any other
      took no more, and one that met the end of the text had time for another line. */
  ghost predicate Explains(r: Outcome, cancelAfter: Option<nat>, before: string, after: string, bytes: int)
  {
    match r
    case Received(event) =>
      && ReadFrom(before, BLANK) == Got(event, after) && bytes == |before| - |after|
      && (cancelAfter.Some? ==> Lines(before) - Lines(after) <= cancelAfter.value)
    case NotConnected => false
    case Cancelled =>
      && cancelAfter.Some? && after == WithoutLines(before, cancelAfter.value) && bytes == |before| - |after|
      && Lines(before) - Lines(after) == cancelAfter.value
      && exists d: Draft :: ReadFrom(before, BLANK) == ReadFrom(after, d)
    case _ =>
      && after == [] && ReadFrom(before, BLANK).End? && bytes == |before| - |ReadFrom(before, BLANK).rest|
      && (cancelAfter.Some? ==> Lines(before) < cancelAfter.value)
  }
}
