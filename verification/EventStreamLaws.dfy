/** What the event reader promises: writing events and reading them back, and which lines change
    nothing. */
module EventStreamLaws {
  import opened EventStream

  // ---------------------------------------------------------------- text as lines

  function Text(lines: seq<string>): (s: string)
  {
    if lines == [] then [] else lines[0] + ['\n'] + Text(lines[1..])
  }

  predicate OneLiners(lines: seq<string>) { forall i :: 0 <= i < |lines| ==> '\n' !in lines[i] }

  /** The events still to come when `d` has been collected so far. */
  function ReadOn(s: string, d: Draft): (events: seq<Event>)
  {
    match ReadFrom(s, d)
    case Got(event, rest) => [event] + ReadAll(rest)
    case End(_) => []
  }

  /** The same, line by line. */
  function OnLines(lines: seq<string>, d: Draft): (events: seq<Event>)
  {
    if lines == [] then []
    else
      var line := TrimRight(lines[0]);
      if line != [] then OnLines(lines[1..], Take(d, line))
      else if d.Complete() then [d.Finished()] + OnLines(lines[1..], BLANK)
      else OnLines(lines[1..], d)
  }

  lemma {:induction false} FindIn(a: string, c: char, b: string)
    requires c !in a
    ensures Find(a + [c] + b, c) == |a|
  {
    if a != [] {
      assert (a + [c] + b)[1..] == a[1..] + [c] + b;
      FindIn(a[1..], c, b);
    }
  }

  lemma {:induction false} FindNone(a: string, c: char)
    requires c !in a
    ensures Find(a, c) == |a|
  {
    if a != [] { FindNone(a[1..], c); }
  }

  lemma ReadLine(line: string, tail: string, d: Draft)
    requires '\n' !in line
    ensures ReadFrom(line + ['\n'] + tail, d) == Next(d, TrimRight(line), tail)
  {
    var s := line + ['\n'] + tail;
    FindIn(line, '\n', tail);
    AfterLine(s, d, |line|);
    assert s[..|line| + 1] == line + ['\n'] && s[|line| + 1..] == tail;
    assert (line + ['\n'])[..|line|] == line;
  }

  lemma {:induction false} TextIsReadByLine(lines: seq<string>, d: Draft)
    requires OneLiners(lines)
    ensures ReadOn(Text(lines), d) == OnLines(lines, d)
  {
    if lines != [] {
      var line, rest := TrimRight(lines[0]), lines[1..];
      ReadLine(lines[0], Text(rest), d);
      if line != [] {
        TextIsReadByLine(rest, Take(d, line));
      } else if d.Complete() {
        TextIsReadByLine(rest, BLANK);
      } else {
        TextIsReadByLine(rest, d);
      }
    }
  }

  // ---------------------------------------------------------------- writing

  function Split(s: string): (lines: seq<string>)
    ensures lines != []
    decreases |s|
  {
    var lf := Find(s, '\n');
    if lf == |s| then [s] else [s[..lf]] + Split(s[lf + 1..])
  }

  /** A field written with the customary space after the colon, or tight, without it. */
  function Line(name: string, value: string, tight: bool): string
  {
    if tight then name + [':'] + value else name + [':', ' '] + value
  }

  function Optional(name: string, value: string, tight: bool): (lines: seq<string>)
  {
    if value == [] then [] else [Line(name, value, tight)]
  }

  function DataLines(pieces: seq<string>, tight: bool): (lines: seq<string>)
  {
    if pieces == [] then [] else [Line("data", pieces[0], tight)] + DataLines(pieces[1..], tight)
  }

  /** An id line and a type line if there are any, the data split over `data:` lines, a blank line. */
  function EventLines(e: Event, tight: bool): (lines: seq<string>)
  {
    Optional("id", e.id, tight) + (Optional("event", e.kind, tight) + (DataLines(Split(e.data), tight) + [[]]))
  }

  function AllLines(events: seq<Event>, tight: bool): (lines: seq<string>)
  {
    if events == [] then [] else EventLines(events[0], tight) + AllLines(events[1..], tight)
  }

  function Written(events: seq<Event>): string { Text(AllLines(events, false)) }

  function WrittenTight(events: seq<Event>): string { Text(AllLines(events, true)) }

  /** Written tight, a value's own first space is taken for the one after the colon. */
  function Seen(value: string, tight: bool): string
  {
    if tight && [' '] <= value then value[1..] else value
  }

  function SeenPieces(pieces: seq<string>, tight: bool): (seen: seq<string>)
    ensures |seen| == |pieces| && forall i :: 0 <= i < |pieces| ==> seen[i] == Seen(pieces[i], tight)
  {
    seq(|pieces|, i requires 0 <= i < |pieces| => Seen(pieces[i], tight))
  }

  function SeenEvent(e: Event, tight: bool): Event
  {
    Event(Seen(e.id, tight), Seen(e.kind, tight), Join(SeenPieces(Split(e.data), tight)))
  }

  function SeenEvents(events: seq<Event>, tight: bool): (seen: seq<Event>)
    ensures |seen| == |events| && forall i :: 0 <= i < |events| ==> seen[i] == SeenEvent(events[i], tight)
  {
    seq(|events|, i requires 0 <= i < |events| => SeenEvent(events[i], tight))
  }

  /** No LF, and no CR at the end. */
  predicate Clean(s: string) { '\n' !in s && (s != [] ==> s[|s| - 1] != '\r') }

  predicate AllClean(lines: seq<string>) { forall i :: 0 <= i < |lines| ==> Clean(lines[i]) }

  predicate WellFormed(e: Event) { Clean(e.id) && Clean(e.kind) && AllClean(Split(e.data)) }

  predicate AllWellFormed(events: seq<Event>) { forall i :: 0 <= i < |events| ==> WellFormed(events[i]) }

  // ---------------------------------------------------------------- reading what was written

  lemma LineColon(name: string, value: string, tight: bool)
    requires ':' !in name
    ensures Find(Line(name, value, tight), ':') == |name|
  {
    var after := if tight then value else [' '] + value;
    assert Line(name, value, tight) == name + [':'] + after;
    FindIn(name, ':', after);
  }

  lemma LineEnd(name: string, value: string, tight: bool)
    requires '\n' !in name && Clean(value)
    ensures '\n' !in Line(name, value, tight) && TrimRight(Line(name, value, tight)) == Line(name, value, tight)
  {
    var line := Line(name, value, tight);
    assert line[|line| - 1] == if value != [] then value[|value| - 1] else if tight then ':' else ' ';
  }

  /** A line `name: value` or `name:value` with a clean value is that field with that value; of a tight value
      the first space, if it begins with one, is lost. */
  lemma FieldLine(name: string, value: string, tight: bool)
    requires name != [] && '\n' !in name && ':' !in name && Clean(value)
    ensures var line := Line(name, value, tight);
            && line != [] && '\n' !in line && TrimRight(line) == line
            && Find(line, ':') == |name| < |line|
            && FieldOf(line) == FieldNamed(name) && ValueOf(line) == Seen(value, tight)
  {
    LineColon(name, value, tight);
    LineEnd(name, value, tight);
    LineParts(name, value, tight);
  }

  lemma LineParts(name: string, value: string, tight: bool)
    ensures var line := Line(name, value, tight);
            |name| < |line| && line[..|name|] == name && line[|name| + 1..] == if tight then value else [' '] + value
  {
  }

  lemma IdLine(id: string, tight: bool, rest: seq<string>, d: Draft)
    requires Clean(id)
    ensures OnLines(Optional("id", id, tight) + rest, d) ==
            OnLines(rest, if id == [] then d else d.(id := Seen(id, tight)))
  {
    if id == [] {
      assert [] + rest == rest;
    } else {
      FieldLine("id", id, tight);
      assert ([Line("id", id, tight)] + rest)[1..] == rest;
    }
  }

  lemma KindLine(kind: string, tight: bool, rest: seq<string>, d: Draft)
    requires Clean(kind)
    ensures OnLines(Optional("event", kind, tight) + rest, d) ==
            OnLines(rest, if kind == [] then d else d.(kind := Seen(kind, tight)))
  {
    if kind == [] {
      assert [] + rest == rest;
    } else {
      FieldLine("event", kind, tight);
      assert ([Line("event", kind, tight)] + rest)[1..] == rest;
    }
  }

  lemma DataLine(piece: string, tight: bool, rest: seq<string>, d: Draft)
    requires Clean(piece)
    ensures OnLines([Line("data", piece, tight)] + rest, d)
         == OnLines(rest, d.(lines := d.lines + [Seen(piece, tight)]))
  {
    FieldLine("data", piece, tight);
    assert ([Line("data", piece, tight)] + rest)[1..] == rest;
  }

  lemma FirstData(pieces: seq<string>, tight: bool, rest: seq<string>, d: Draft)
    requires pieces != [] && Clean(pieces[0])
    ensures OnLines(DataLines(pieces, tight) + rest, d)
         == OnLines(DataLines(pieces[1..], tight) + rest, d.(lines := d.lines + [Seen(pieces[0], tight)]))
  {
    var more := DataLines(pieces[1..], tight) + rest;
    assert DataLines(pieces, tight) + rest == [Line("data", pieces[0], tight)] + more;
    DataLine(pieces[0], tight, more, d);
  }

  lemma {:induction false} ReadData(pieces: seq<string>, tight: bool, rest: seq<string>, d: Draft)
    requires AllClean(pieces)
    ensures OnLines(DataLines(pieces, tight) + rest, d)
         == OnLines(rest, d.(lines := d.lines + SeenPieces(pieces, tight)))
  {
    if pieces == [] {
      assert d.lines + [] == d.lines && DataLines([], tight) + rest == rest;
    } else {
      FirstData(pieces, tight, rest, d);
      ReadData(pieces[1..], tight, rest, d.(lines := d.lines + [Seen(pieces[0], tight)]));
      SeenFirst(d.lines, pieces, tight);
    }
  }

  lemma SeenFirst(lines: seq<string>, pieces: seq<string>, tight: bool)
    requires pieces != []
    ensures lines + [Seen(pieces[0], tight)] + SeenPieces(pieces[1..], tight) == lines + SeenPieces(pieces, tight)
  {
  }

  lemma JoinCons(line: string, lines: seq<string>)
    requires lines != []
    ensures Join([line] + lines) == line + ['\n'] + Join(lines)
  {
    assert ([line] + lines)[1..] == lines;
  }

  lemma SplitAtFirst(s: string, lf: nat)
    requires lf == Find(s, '\n') < |s|
    ensures Split(s) == [s[..lf]] + Split(s[lf + 1..])
  {
  }

  lemma {:induction false} JoinSplit(s: string)
    ensures Join(Split(s)) == s
    decreases |s|
  {
    var lf := Find(s, '\n');
    if lf < |s| {
      SplitAtFirst(s, lf);
      JoinCons(s[..lf], Split(s[lf + 1..]));
      JoinSplit(s[lf + 1..]);
      AtFirst(s, lf);
    }
  }

  lemma AtFirst(s: string, lf: nat)
    requires lf < |s|
    ensures s[..lf] + [s[lf]] + s[lf + 1..] == s
  {
  }

  /** A written event is read back whole, whatever follows it; written tight, without the first spaces of its
      values. */
  lemma EventThenRest(e: Event, tight: bool, rest: seq<string>)
    requires WellFormed(e)
    ensures OnLines(EventLines(e, tight) + rest, BLANK) == [SeenEvent(e, tight)] + OnLines(rest, BLANK)
  {
    var pieces := Split(e.data);
    var blank := [[]] + rest;
    var data := DataLines(pieces, tight) + blank;
    var kind := Optional("event", e.kind, tight) + data;
    var id, name, seen := Seen(e.id, tight), Seen(e.kind, tight), SeenPieces(pieces, tight);
    calc {
      OnLines(EventLines(e, tight) + rest, BLANK);
      { assert EventLines(e, tight) + rest == Optional("id", e.id, tight) + kind; }
      OnLines(Optional("id", e.id, tight) + kind, BLANK);
      { IdLine(e.id, tight, kind, BLANK); }
      OnLines(kind, Draft(id, [], []));
      { KindLine(e.kind, tight, data, Draft(id, [], [])); }
      OnLines(data, Draft(id, name, []));
      { ReadData(pieces, tight, blank, Draft(id, name, [])); assert [] + seen == seen; }
      OnLines(blank, Draft(id, name, seen));
      { assert blank[1..] == rest; }
      [SeenEvent(e, tight)] + OnLines(rest, BLANK);
    }
  }

  lemma {:induction false} WrittenAreRead(events: seq<Event>, tight: bool)
    requires AllWellFormed(events)
    ensures OnLines(AllLines(events, tight), BLANK) == SeenEvents(events, tight)
  {
    if events != [] {
      EventThenRest(events[0], tight, AllLines(events[1..], tight));
      WrittenAreRead(events[1..], tight);
    }
  }

  lemma LooselyAllIsSeen(events: seq<Event>)
    ensures SeenEvents(events, false) == events
  {
    forall i | 0 <= i < |events| ensures SeenEvent(events[i], false) == events[i] {
      JoinSplit(events[i].data);
      assert SeenPieces(Split(events[i].data), false) == Split(events[i].data);
    }
  }

  lemma {:induction false} SplitOneLiners(s: string)
    ensures OneLiners(Split(s))
    decreases |s|
  {
    if Find(s, '\n') < |s| { SplitOneLiners(s[Find(s, '\n') + 1..]); }
  }

  lemma {:induction false} DataOneLiners(pieces: seq<string>, tight: bool)
    requires OneLiners(pieces)
    ensures OneLiners(DataLines(pieces, tight))
  {
    if pieces != [] { DataOneLiners(pieces[1..], tight); }
  }

  lemma {:induction false} WrittenOneLiners(events: seq<Event>, tight: bool)
    requires AllWellFormed(events)
    ensures OneLiners(AllLines(events, tight))
  {
    if events != [] {
      WrittenOneLiners(events[1..], tight);
      EventOneLiners(events[0], tight);
    }
  }

  lemma ReadBack(events: seq<Event>, tight: bool)
    requires AllWellFormed(events)
    ensures ReadAll(Text(AllLines(events, tight))) == SeenEvents(events, tight)
  {
    WrittenOneLiners(events, tight);
    TextIsReadByLine(AllLines(events, tight), BLANK);
    WrittenAreRead(events, tight);
  }

  // ---------------------------------------------------------------- only well-formed events are read

  predicate CleanDraft(d: Draft) { Clean(d.id) && Clean(d.kind) && AllClean(d.lines) }

  lemma ValueIsClean(line: string)
    requires Clean(line) && Find(line, ':') < |line|
    ensures Clean(ValueOf(line))
  {
    var colon := Find(line, ':');
    CleanTail(line, colon + 1);
    if line[colon + 1..] != [] {
      CleanTail(line[colon + 1..], 1);
    }
  }

  lemma CleanTail(s: string, n: nat)
    requires Clean(s) && n <= |s|
    ensures Clean(s[n..])
  {
    assert s[n..] != [] ==> s[n..][|s| - n - 1] == s[|s| - 1];
    assert forall c <- s[n..] :: c in s;
  }

  lemma TakeKeepsClean(d: Draft, raw: string)
    requires CleanDraft(d) && '\n' !in raw
    ensures CleanDraft(Take(d, TrimRight(raw)))
  {
    var line := TrimRight(raw);
    if FieldOf(line) != Skip { ValueIsClean(line); }
  }

  lemma {:induction false} SplitJoin(lines: seq<string>)
    requires lines != [] && AllClean(lines)
    ensures Split(Join(lines)) == lines
  {
    if |lines| == 1 {
      FindNone(lines[0], '\n');
    } else {
      FindIn(lines[0], '\n', Join(lines[1..]));
      SplitJoin(lines[1..]);
      var s := Join(lines);
      assert s[..|lines[0]|] == lines[0] && s[|lines[0]| + 1..] == Join(lines[1..]);
    }
  }

  lemma TrimLine(s: string, lf: nat)
    requires lf < |s| && s[lf] == '\n'
    ensures TrimRight(s[..lf + 1]) == TrimRight(s[..lf])
  {
    assert s[..lf + 1][..lf] == s[..lf];
  }

  lemma {:induction false} OnlyWellFormedIsRead(s: string, d: Draft)
    requires CleanDraft(d) && ReadFrom(s, d).Got?
    ensures WellFormed(ReadFrom(s, d).event)
    decreases |s|
  {
    var lf := Find(s, '\n');
    var line := TrimRight(s[..lf]);
    AfterLine(s, d, lf);
    TrimLine(s, lf);
    if line != [] {
      TakeKeepsClean(d, s[..lf]);
      OnlyWellFormedIsRead(s[lf + 1..], Take(d, line));
    } else if d.Complete() {
      if d.lines != [] { SplitJoin(d.lines); }
    } else {
      OnlyWellFormedIsRead(s[lf + 1..], d);
    }
  }

  lemma {:induction false} AllReadAreWellFormed(s: string)
    ensures AllWellFormed(ReadAll(s))
    decreases |s|
  {
    var r := ReadFrom(s, BLANK);
    if r.Got? {
      OnlyWellFormedIsRead(s, BLANK);
      AllReadAreWellFormed(r.rest);
    }
  }

  /** Writing any events and reading them all gives the same events exactly when no id or type
      holds an LF or ends in CR and no data line ends in CR. */
  lemma RoundTrip(events: seq<Event>)
    ensures ReadAll(Written(events)) == events <==> AllWellFormed(events)
  {
    if AllWellFormed(events) {
      ReadBack(events, false);
      LooselyAllIsSeen(events);
    }
    AllReadAreWellFormed(Written(events));
  }

  /** No value begins with a space: not the id, not the type, no line of the data. */
  predicate NoLeadingSpace(e: Event)
  {
    !([' '] <= e.id) && !([' '] <= e.kind) && forall i :: 0 <= i < |Split(e.data)| ==> !([' '] <= Split(e.data)[i])
  }

  lemma SeenWholeExactly(e: Event)
    requires WellFormed(e)
    ensures SeenEvent(e, true) == e <==> NoLeadingSpace(e)
  {
    var pieces := Split(e.data);
    var seen := SeenPieces(pieces, true);
    forall i | 0 <= i < |pieces|
      ensures Clean(seen[i]) && (seen[i] == pieces[i] <==> !([' '] <= pieces[i]))
    {
      if [' '] <= pieces[i] { CleanTail(pieces[i], 1); }
    }
    assert seen == pieces <==> forall i :: 0 <= i < |pieces| ==> !([' '] <= pieces[i]);
    SplitJoin(seen);
    JoinSplit(e.data);
    assert Join(seen) == e.data <==> seen == pieces;
    SeenShorter(e.id);
    SeenShorter(e.kind);
  }

  lemma SeenShorter(value: string)
    ensures Seen(value, true) == value <==> !([' '] <= value)
  {
  }

  /** The space after the colon may be left out: exactly when besides no value begins with a space. What such
      a value loses otherwise is that one space (`ReadBack`). */
  lemma TightRoundTrip(events: seq<Event>)
    ensures ReadAll(WrittenTight(events)) == events
            <==> AllWellFormed(events) && forall i :: 0 <= i < |events| ==> NoLeadingSpace(events[i])
  {
    AllReadAreWellFormed(WrittenTight(events));
    if AllWellFormed(events) {
      ReadBack(events, true);
      forall i | 0 <= i < |events| ensures SeenEvent(events[i], true) == events[i] <==> NoLeadingSpace(events[i]) {
        SeenWholeExactly(events[i]);
      }
    }
  }

  /** Id and type alone, without data, make an event; without either there is none. */
  lemma EventWithoutData(id: string, kind: string)
    requires Clean(id) && Clean(kind)
    ensures ReadAll(Text(Optional("id", id, false) + (Optional("event", kind, false) + [[]])))
         == if id == [] && kind == [] then [] else [Event(id, kind, [])]
  {
    var last := Optional("event", kind, false) + [[]];
    OptionalOneLiner("id", id);
    OptionalOneLiner("event", kind);
    TextIsReadByLine(Optional("id", id, false) + last, BLANK);
    IdLine(id, false, last, BLANK);
    KindLine(kind, false, [[]], Draft(id, [], []));
    BlankEnds(Draft(id, kind, []));
  }

  lemma OptionalOneLiner(name: string, value: string)
    requires name != [] && '\n' !in name && ':' !in name && Clean(value)
    ensures OneLiners(Optional(name, value, false))
  {
    if value != [] { FieldLine(name, value, false); }
  }

  lemma BlankEnds(d: Draft)
    ensures OnLines([[]], d) == if d.lines != [] || d.kind != [] || d.id != [] then [d.Finished()] else []
  {
  }

  /** Whatever a stream delivers can be written and read back. */
  lemma ReadingIsStable(s: string)
    ensures ReadAll(Written(ReadAll(s))) == ReadAll(s)
  {
    AllReadAreWellFormed(s);
    RoundTrip(ReadAll(s));
  }

  /** For instance a CR at the end of an id is lost. */
  lemma TrailingReturnIsLost()
    ensures var e := Event("a\r", [], []); !WellFormed(e) && ReadAll(Written([e])) != [e]
  {
    RoundTrip([Event("a\r", [], [])]);
    assert !WellFormed([Event("a\r", [], [])][0]);
  }

  // ---------------------------------------------------------------- lines that change nothing

  /** Comments, lines without a colon and unknown fields: whatever does not begin with a known name and a
      colon. */
  predicate Noise(line: string)
  {
    var text := TrimRight(line);
    text != [] && !("id:" <= text) && !("event:" <= text) && !("data:" <= text)
  }

  lemma NoiseSetsNothing(text: string)
    ensures FieldOf(text) == Skip <==> !("id:" <= text) && !("event:" <= text) && !("data:" <= text)
  {
    var colon := Find(text, ':');
    if colon < |text| { assert text[..colon] + [':'] == text[..colon + 1]; }
    if "id:" <= text { NameBefore("id", text); }
    if "event:" <= text { NameBefore("event", text); }
    if "data:" <= text { NameBefore("data", text); }
  }

  lemma NameBefore(name: string, text: string)
    requires ':' !in name && name + [':'] <= text
    ensures Find(text, ':') == |name| && text[..|name|] == name
  {
    assert text == name + [':'] + text[|name| + 1..];
    FindIn(name, ':', text[|name| + 1..]);
  }

  predicate Blank(line: string) { TrimRight(line) == [] }

  function WithoutNoise(lines: seq<string>): (r: seq<string>)
  {
    if lines == [] then []
    else if Noise(lines[0]) then WithoutNoise(lines[1..])
    else [lines[0]] + WithoutNoise(lines[1..])
  }

  lemma {:induction false} NoiseIsSkipped(lines: seq<string>, d: Draft)
    ensures OnLines(lines, d) == OnLines(WithoutNoise(lines), d)
    ensures OneLiners(lines) ==> OneLiners(WithoutNoise(lines))
  {
    if lines != [] {
      var line := TrimRight(lines[0]);
      NoiseSetsNothing(line);
      if line != [] {
        NoiseIsSkipped(lines[1..], Take(d, line));
      } else if d.Complete() {
        NoiseIsSkipped(lines[1..], BLANK);
      } else {
        NoiseIsSkipped(lines[1..], d);
      }
    }
  }

  /** Comments, lines without a colon and unknown fields can be inserted or removed anywhere, in
      the middle of events too. */
  lemma NoiseIsInvisible(lines: seq<string>)
    requires OneLiners(lines)
    ensures ReadAll(Text(lines)) == ReadAll(Text(WithoutNoise(lines)))
  {
    NoiseIsSkipped(lines, BLANK);
    TextIsReadByLine(lines, BLANK);
    TextIsReadByLine(WithoutNoise(lines), BLANK);
  }

  predicate Gap(lines: seq<string>)
  {
    forall i :: 0 <= i < |lines| ==> '\n' !in lines[i] && (Noise(lines[i]) || Blank(lines[i]))
  }

  /** Each event preceded by a gap, and a gap at the end. */
  function Spaced(events: seq<Event>, gaps: seq<seq<string>>): (lines: seq<string>)
    requires |gaps| == |events| + 1
  {
    gaps[0] + if events == [] then [] else EventLines(events[0], false) + Spaced(events[1..], gaps[1..])
  }

  lemma {:induction false} GapIsSkipped(gap: seq<string>, rest: seq<string>)
    requires Gap(gap)
    ensures OnLines(gap + rest, BLANK) == OnLines(rest, BLANK)
  {
    if gap == [] {
      assert gap + rest == rest;
    } else {
      assert (gap + rest)[1..] == gap[1..] + rest;
      NoiseSetsNothing(TrimRight(gap[0]));
      GapIsSkipped(gap[1..], rest);
    }
  }

  lemma {:induction false} GapsAreSkipped(events: seq<Event>, gaps: seq<seq<string>>)
    requires |gaps| == |events| + 1 && AllWellFormed(events)
    requires forall i :: 0 <= i < |gaps| ==> Gap(gaps[i])
    ensures OnLines(Spaced(events, gaps), BLANK) == events
  {
    if events == [] {
      GapIsSkipped(gaps[0], []);
    } else {
      var rest := Spaced(events[1..], gaps[1..]);
      GapIsSkipped(gaps[0], EventLines(events[0], false) + rest);
      SpacedEvent(events[0], rest);
      GapsAreSkipped(events[1..], gaps[1..]);
      assert [events[0]] + events[1..] == events;
    }
  }

  lemma SpacedEvent(e: Event, rest: seq<string>)
    requires WellFormed(e)
    ensures OnLines(EventLines(e, false) + rest, BLANK) == [e] + OnLines(rest, BLANK)
  {
    EventThenRest(e, false, rest);
    LooselyAllIsSeen([e]);
    assert SeenEvents([e], false)[0] == e;
  }

  lemma EventOneLiners(e: Event, tight: bool)
    requires WellFormed(e)
    ensures OneLiners(EventLines(e, tight))
  {
    SplitOneLiners(e.data);
    DataOneLiners(Split(e.data), tight);
  }

  lemma {:induction false} SpacedOneLiners(events: seq<Event>, gaps: seq<seq<string>>)
    requires |gaps| == |events| + 1 && AllWellFormed(events)
    requires forall i :: 0 <= i < |gaps| ==> Gap(gaps[i])
    ensures OneLiners(Spaced(events, gaps))
  {
    if events != [] {
      SpacedOneLiners(events[1..], gaps[1..]);
      EventOneLiners(events[0], false);
    }
  }

  /** Blank lines, comments and unknown fields between events, any number of them, leave the events
      as they are. */
  lemma GapsChangeNothing(events: seq<Event>, gaps: seq<seq<string>>)
    requires |gaps| == |events| + 1 && AllWellFormed(events)
    requires forall i :: 0 <= i < |gaps| ==> Gap(gaps[i])
    ensures ReadAll(Text(Spaced(events, gaps))) == events
  {
    GapsAreSkipped(events, gaps);
    SpacedOneLiners(events, gaps);
    TextIsReadByLine(Spaced(events, gaps), BLANK);
  }

  function WithReturns(lines: seq<string>): (r: seq<string>)
    ensures |r| == |lines| && forall i :: 0 <= i < |lines| ==> r[i] == lines[i] + ['\r']
  {
    if lines == [] then [] else [lines[0] + ['\r']] + WithReturns(lines[1..])
  }

  lemma TrimReturn(line: string)
    ensures TrimRight(line + ['\r']) == TrimRight(line)
  {
    assert (line + ['\r'])[..|line|] == line;
  }

  lemma {:induction false} ReturnsAreTrimmed(lines: seq<string>, d: Draft)
    ensures OnLines(WithReturns(lines), d) == OnLines(lines, d)
  {
    if lines != [] {
      var line := TrimRight(lines[0]);
      TrimReturn(lines[0]);
      if line != [] {
        ReturnsAreTrimmed(lines[1..], Take(d, line));
      } else if d.Complete() {
        ReturnsAreTrimmed(lines[1..], BLANK);
      } else {
        ReturnsAreTrimmed(lines[1..], d);
      }
    }
  }

  /** CR LF line ends read as LF line ends. */
  lemma LineEndsDoNotMatter(lines: seq<string>)
    requires OneLiners(lines)
    ensures ReadAll(Text(WithReturns(lines))) == ReadAll(Text(lines))
  {
    ReturnsAreTrimmed(lines, BLANK);
    TextIsReadByLine(lines, BLANK);
    TextIsReadByLine(WithReturns(lines), BLANK);
  }
}
