/** Placeholder substitution (internal/placeholders/placeholders.go): a single pass of a pattern when
    there is a variable store, repeated replacement in an arbitrary key order when there is none. */
module Placeholders {
  import opened Options
  import opened Orders

  type Record = map<string, string>

  // ---------------------------------------------------------------- the single pass

  /** Characters that end a key (`inKey`) or a default. */
  predicate Stops(c: char, inKey: bool) { c == '}' || (inKey && c == '|') }

  /** The longest front without a stop, and what follows it. */
  function Until(s: string, inKey: bool): (cut: (string, string))
    ensures |cut.0| + |cut.1| == |s|
  {
    if s == "" || Stops(s[0], inKey) then
      ("", s)
    else
      var cut := Until(s[1..], inKey);
      ([s[0]] + cut.0, cut.1)
  }

  lemma {:induction false} UntilCuts(s: string, inKey: bool)
    ensures var cut := Until(s, inKey);
            && cut.0 + cut.1 == s
            && Free(cut.0, inKey) && (cut.1 != "" ==> Stops(cut.1[0], inKey))
  {
    if s != "" && !Stops(s[0], inKey) {
      var cut := Until(s[1..], inKey);
      UntilCuts(s[1..], inKey);
      OneLonger(s, cut.0, cut.1, inKey);
    }
  }

  lemma OneLonger(s: string, front: string, tail: string, inKey: bool)
    requires s != "" && s[1..] == front + tail && Free(front, inKey) && !Stops(s[0], inKey)
    ensures [s[0]] + front + tail == s && Free([s[0]] + front, inKey)
  {
    assert [s[0]] + front + tail == [s[0]] + (front + tail);
  }

  predicate Free(s: string, inKey: bool)
  {
    forall i :: 0 <= i < |s| ==> s[i] != '}' && (inKey ==> s[i] != '|')
  }

  predicate Opens(s: string) { |s| >= 2 && s[0] == '{' && s[1] == '{' }

  predicate Closes(s: string) { |s| >= 2 && s[0] == '}' && s[1] == '}' }

  /** The key, the default if one is written, and what comes after the match. */
  datatype Hit = Hit(key: string, fallback: Option<string>, rest: string)

  /** The pattern {{key}} or {{key|default}} at the front of `s`. */
  function MatchHere(s: string): (hit: Option<Hit>)
    ensures hit.Some? ==> |hit.value.rest| < |s|
  {
    if Opens(s) then
      var cut := Until(s[2..], true);
      AfterKey(cut.0, cut.1)
    else
      None
  }

  function AfterKey(key: string, tail: string): (hit: Option<Hit>)
    ensures hit.Some? ==> |hit.value.rest| < |tail|
  {
    if key == "" || tail == "" then
      None
    else if tail[0] == '|' then
      var cut := Until(tail[1..], false);
      if Closes(cut.1) then Some(Hit(key, Some(cut.0), cut.1[2..])) else None
    else if Closes(tail) then
      Some(Hit(key, None, tail[2..]))
    else
      None
  }

  /** Store first, then the feeder record, then the default, which is empty if none is written. */
  function Lookup(key: string, fallback: Option<string>, store: Record, record: Record): string
  {
    if key in store then store[key]
    else if key in record then record[key]
    else if fallback.Some? then fallback.value
    else ""
  }

  /** Every match replaced, from left to right; what is put in is not looked at again. */
  function ReplaceMatches(s: string, store: Record, record: Record): string
    decreases |s|
  {
    if s == "" then
      ""
    else
      match MatchHere(s)
      case Some(hit) => Lookup(hit.key, hit.fallback, store, record) + ReplaceMatches(hit.rest, store, record)
      case None => [s[0]] + ReplaceMatches(s[1..], store, record)
  }

  // ---------------------------------------------------------------- repeated replacement

  function Braced(name: string): string { "{{" + name + "}}" }

  function ReplaceAll(s: string, old_: string, new_: string): string
    requires old_ != ""
  {
    if s == "" then
      ""
    else if old_ <= s then
      new_ + ReplaceAll(s[|old_|..], old_, new_)
    else
      [s[0]] + ReplaceAll(s[1..], old_, new_)
  }

  /** The keys replaced one after the other, first to last. */
  function InOrder(template: string, order: seq<string>, record: Record): string
    requires forall key <- order :: key in record
  {
    if order == [] then
      template
    else
      var last := order[|order| - 1];
      ReplaceAll(InOrder(template, order[..|order| - 1], record), Braced(last), record[last])
  }

  /** What the store-less path may return: the outcome for some order of the keys. */
  ghost predicate Replaced(template: string, record: Record, result: string)
  {
    exists order: seq<string> :: Ordering(order, record.Keys) && result == InOrder(template, order, record)
  }

  /** The loop over the record, which visits the keys in an arbitrary order. */
  method ReplaceKeys(template: string, record: Record) returns (result: string)
    ensures Replaced(template, record, result)
  {
    result := template;
    var keys := record.Keys;
    ghost var order: seq<string> := [];
    while keys != {}
      invariant keys <= record.Keys && Ordering(order, record.Keys - keys)
      invariant result == InOrder(template, order, record)
      decreases |keys|
    {
      var key :| key in keys;
      order := OneMore(template, order, key, record, record.Keys - keys);
      result := ReplaceAll(result, Braced(key), record[key]);
      keys := keys - {key};
      assert record.Keys - keys == (record.Keys - (keys + {key})) + {key};
    }
    assert record.Keys - keys == record.Keys;
  }

  lemma OneMore(template: string, order: seq<string>, key: string, record: Record, seen: set<string>)
    returns (longer: seq<string>)
    requires Ordering(order, seen) && key !in seen && seen <= record.Keys && key in record
    ensures Ordering(longer, seen + {key})
    ensures InOrder(template, longer, record)
         == ReplaceAll(InOrder(template, order, record), Braced(key), record[key])
  {
    longer := order + [key];
    OrderingSnoc(order, seen, key);
    InOrderSnoc(template, order, key, record);
  }

  lemma InOrderSnoc(template: string, order: seq<string>, key: string, record: Record)
    requires key in record && forall other <- order :: other in record
    ensures InOrder(template, order + [key], record)
         == ReplaceAll(InOrder(template, order, record), Braced(key), record[key])
  {
    assert (order + [key])[..|order|] == order;
  }

  type Stores = seq<Option<Record>>

  /** What Apply may return; only a first store that is there counts. */
  ghost predicate Outcome(template: string, record: Record, stores: Stores, result: string)
  {
    if record == map[] && stores == [] then
      result == template
    else if stores != [] && stores[0].Some? then
      result == ReplaceMatches(template, stores[0].value, record)
    else
      Replaced(template, record, result)
  }

  method Apply(template: string, record: Record, stores: Stores) returns (result: string)
    ensures Outcome(template, record, stores, result)
  {
    if |record| == 0 && |stores| == 0 {
      return template;
    }
    if |stores| > 0 && stores[0].Some? {
      return ReplaceMatches(template, stores[0].value, record);
    }
    result := ReplaceKeys(template, record);
  }

  method ApplyToMap(values: Record, record: Record, stores: Stores) returns (out: Option<Record>)
    ensures out.None? <==> values == map[]
    ensures out.Some? ==> out.value.Keys == values.Keys
    ensures out.Some? ==> forall key <- values :: Outcome(values[key], record, stores, out.value[key])
  {
    if |values| == 0 {
      return None;
    }
    var filled: Record := map[];
    var keys := values.Keys;
    while keys != {}
      invariant keys <= values.Keys && filled.Keys == values.Keys - keys
      invariant forall key <- filled :: Outcome(values[key], record, stores, filled[key])
      decreases |keys|
    {
      var key :| key in keys;
      var value := Apply(values[key], record, stores);
      filled := filled[key := value];
      keys := keys - {key};
    }
    out := Some(filled);
  }

  // ---------------------------------------------------------------- templates and their meaning

  /** A template is written as literal text and names in double braces. */
  datatype Part = Literal(text: string) | Hole(name: string)

  predicate BraceFree(s: string)
  {
    forall i :: 0 <= i < |s| ==> s[i] != '{' && s[i] != '}'
  }

  predicate WellFormed(parts: seq<Part>)
  {
    forall part <- parts :: BraceFree(if part.Literal? then part.text else part.name)
  }

  function PartText(part: Part): string
  {
    if part.Literal? then part.text else Braced(part.name)
  }

  function Text(parts: seq<Part>): string
  {
    if parts == [] then "" else PartText(parts[0]) + Text(parts[1..])
  }

  /** The simultaneous substitution: a name the record does not have stays as written. */
  function Substituted(parts: seq<Part>, record: Record): string
  {
    if parts == [] then "" else Value(parts[0], record) + Substituted(parts[1..], record)
  }

  function Value(part: Part, record: Record): string
  {
    if part.Hole? && part.name in record then record[part.name] else PartText(part)
  }

  /** What the single pass makes of a name: up to the first bar it is the key, after it the default.
      Without a key there is no placeholder, and the text stays. */
  function Resolved(name: string, store: Record, record: Record): string
  {
    var cut := Until(name, true);
    if cut.0 == "" then Braced(name) else Lookup(cut.0, Fallback(cut.1), store, record)
  }

  function Fallback(tail: string): Option<string>
  {
    if tail == "" then None else Some(tail[1..])
  }

  function Filled(parts: seq<Part>, store: Record, record: Record): string
  {
    if parts == [] then
      ""
    else
      (if parts[0].Literal? then parts[0].text else Resolved(parts[0].name, store, record))
      + Filled(parts[1..], store, record)
  }

  // ---------------------------------------------------------------- the store path

  /** With a store the result is one simultaneous substitution, store before record before default,
      whatever the values contain. */
  lemma {:induction false} StorePathFillsEveryHole(parts: seq<Part>, store: Record, record: Record)
    requires WellFormed(parts)
    ensures ReplaceMatches(Text(parts), store, record) == Filled(parts, store, record)
  {
    if parts != [] {
      var rest := Text(parts[1..]);
      StorePathFillsEveryHole(parts[1..], store, record);
      if parts[0].Literal? {
        PlainTextStays(parts[0].text, rest, store, record);
      } else {
        HoleIsResolved(parts[0].name, rest, store, record);
      }
    }
  }

  lemma NoMatchStep(c: char, rest: string, store: Record, record: Record)
    requires MatchHere([c] + rest).None?
    ensures ReplaceMatches([c] + rest, store, record) == [c] + ReplaceMatches(rest, store, record)
  {
    assert ([c] + rest)[1..] == rest;
  }

  lemma {:induction false} PlainTextStays(text: string, rest: string, store: Record, record: Record)
    requires forall i :: 0 <= i < |text| ==> text[i] != '{'
    ensures ReplaceMatches(text + rest, store, record) == text + ReplaceMatches(rest, store, record)
  {
    if text == "" {
      assert text + rest == rest;
    } else {
      var c, tail := text[0], text[1..] + rest;
      assert text + rest == [c] + tail;
      assert !Opens([c] + tail);
      NoMatchStep(c, tail, store, record);
      PlainTextStays(text[1..], rest, store, record);
      assert [c] + (text[1..] + ReplaceMatches(rest, store, record)) == text + ReplaceMatches(rest, store, record);
    }
  }

  lemma HoleIsResolved(name: string, rest: string, store: Record, record: Record)
    requires BraceFree(name)
    ensures ReplaceMatches(Braced(name) + rest, store, record)
         == Resolved(name, store, record) + ReplaceMatches(rest, store, record)
  {
    HoleMatch(name, rest);
    if Until(name, true).0 == "" {
      HoleStays(name, rest, store, record);
    }
  }

  lemma HoleStays(name: string, rest: string, store: Record, record: Record)
    requires BraceFree(name) && MatchHere(Braced(name) + rest).None?
    ensures ReplaceMatches(Braced(name) + rest, store, record)
         == Braced(name) + ReplaceMatches(rest, store, record)
  {
    var body := (name + "}}") + rest;
    assert Braced(name) + rest == ['{'] + (['{'] + body);
    OpeningStays(body, store, record);
    PlainTextStays(name + "}}", rest, store, record);
    var after := ReplaceMatches(rest, store, record);
    assert ['{'] + (['{'] + ((name + "}}") + after)) == Braced(name) + after;
  }

  lemma OpeningStays(body: string, store: Record, record: Record)
    requires body != "" && body[0] != '{' && MatchHere(['{'] + (['{'] + body)).None?
    ensures ReplaceMatches(['{'] + (['{'] + body), store, record)
         == ['{'] + (['{'] + ReplaceMatches(body, store, record))
  {
    NoMatchStep('{', ['{'] + body, store, record);
    assert !Opens(['{'] + body);
    NoMatchStep('{', body, store, record);
  }

  /** A key, with or without a default, the way the pattern wants it. */
  function Written(key: string, fallback: Option<string>): string
  {
    "{{" + (key + Closing(fallback))
  }

  function Closing(fallback: Option<string>): string
  {
    if fallback.Some? then "|" + (fallback.value + "}}") else "}}"
  }

  predicate Writable(key: string, fallback: Option<string>)
  {
    key != "" && Free(key, true) && (fallback.Some? ==> Free(fallback.value, false))
  }

  /** The pattern finds exactly what is written that way, with these groups. */
  lemma MatchIsWritten(s: string, hit: Hit)
    ensures MatchHere(s) == Some(hit) <==>
              Writable(hit.key, hit.fallback) && s == Written(hit.key, hit.fallback) + hit.rest
  {
    if Writable(hit.key, hit.fallback) && s == Written(hit.key, hit.fallback) + hit.rest {
      WrittenIsMatched(hit.key, hit.fallback, hit.rest);
    }
    if MatchHere(s) == Some(hit) {
      MatchedIsWritten(s);
    }
  }

  lemma WrittenIsMatched(key: string, fallback: Option<string>, rest: string)
    requires Writable(key, fallback)
    ensures MatchHere(Written(key, fallback) + rest) == Some(Hit(key, fallback, rest))
  {
    var tail := Closing(fallback) + rest;
    var s := Written(key, fallback) + rest;
    assert s == "{{" + (key + tail);
    assert s[2..] == key + tail;
    UntilIs(key, tail, true);
    ClosingIsMatched(key, fallback, rest);
  }

  lemma ClosingIsMatched(key: string, fallback: Option<string>, rest: string)
    requires Writable(key, fallback)
    ensures AfterKey(key, Closing(fallback) + rest) == Some(Hit(key, fallback, rest))
  {
    var tail := Closing(fallback) + rest;
    if fallback.Some? {
      assert tail[1..] == fallback.value + ("}}" + rest);
      UntilIs(fallback.value, "}}" + rest, false);
      assert ("}}" + rest)[2..] == rest;
    } else {
      assert tail[2..] == rest;
    }
  }

  lemma MatchedIsWritten(s: string)
    requires MatchHere(s).Some?
    ensures var hit := MatchHere(s).value;
            Writable(hit.key, hit.fallback) && s == Written(hit.key, hit.fallback) + hit.rest
  {
    var cut := Until(s[2..], true);
    UntilCuts(s[2..], true);
    assert s == "{{" + (cut.0 + cut.1);
    MatchedClosing(cut.0, cut.1);
    var hit := MatchHere(s).value;
    assert "{{" + (cut.0 + (Closing(hit.fallback) + hit.rest)) == Written(hit.key, hit.fallback) + hit.rest;
  }

  lemma MatchedClosing(key: string, tail: string)
    requires AfterKey(key, tail).Some? && Stops(tail[0], true)
    ensures var hit := AfterKey(key, tail).value;
            && hit.key == key && (hit.fallback.Some? ==> Free(hit.fallback.value, false))
            && tail == Closing(hit.fallback) + hit.rest
  {
    if tail[0] == '|' {
      var cut := Until(tail[1..], false);
      UntilCuts(tail[1..], false);
      ClosedBy(cut.1);
      Bracket("|", cut.0, "}}", cut.1[2..]);
      assert tail == "|" + tail[1..];
    } else {
      ClosedBy(tail);
    }
  }

  lemma ClosedBy(s: string)
    requires Closes(s)
    ensures s == "}}" + s[2..]
  {
  }

  lemma Bracket(a: string, b: string, c: string, d: string)
    ensures a + (b + (c + d)) == a + (b + c) + d
  {
    assert b + (c + d) == (b + c) + d;
  }

  lemma {:induction false} UntilIs(front: string, tail: string, inKey: bool)
    requires Free(front, inKey) && (tail != "" ==> Stops(tail[0], inKey))
    ensures Until(front + tail, inKey) == (front, tail)
  {
    if front == "" {
      assert front + tail == tail;
    } else {
      assert (front + tail)[1..] == front[1..] + tail;
      UntilIs(front[1..], tail, inKey);
      assert [front[0]] + front[1..] == front;
    }
  }

  lemma NameIsWritten(name: string)
    requires BraceFree(name) && Until(name, true).0 != ""
    ensures var cut := Until(name, true);
            Writable(cut.0, Fallback(cut.1)) && Braced(name) == Written(cut.0, Fallback(cut.1))
  {
    var cut := Until(name, true);
    UntilCuts(name, true);
    var fallback := Fallback(cut.1);
    if cut.1 != "" {
      assert cut.1[0] == name[|cut.0|];
      forall i | 0 <= i < |fallback.value| ensures fallback.value[i] != '}' {
        assert fallback.value[i] == name[|cut.0| + 1 + i];
      }
      assert Closing(fallback) == cut.1 + "}}";
    }
    assert "{{" + (cut.0 + (cut.1 + "}}")) == Braced(cut.0 + cut.1);
  }

  /** The pattern finds the whole of a name in braces, or nothing when there is no key. */
  lemma HoleMatch(name: string, rest: string)
    requires BraceFree(name)
    ensures var cut := Until(name, true);
            MatchHere(Braced(name) + rest)
            == if cut.0 == "" then None else Some(Hit(cut.0, Fallback(cut.1), rest))
  {
    var cut := Until(name, true);
    UntilCuts(name, true);
    var tail := cut.1 + ("}}" + rest);
    if cut.0 == "" {
      assert (Braced(name) + rest)[2..] == "" + tail;
      UntilIs("", tail, true);
    } else {
      NameIsWritten(name);
      WrittenIsMatched(cut.0, Fallback(cut.1), rest);
    }
  }

  /** The callback matches the pattern against the matched text alone: it finds the same groups. */
  lemma MatchingTheMatchAgain(s: string)
    requires MatchHere(s).Some?
    ensures var hit := MatchHere(s).value;
            MatchHere(s[..|s| - |hit.rest|]) == Some(hit.(rest := ""))
  {
    var hit := MatchHere(s).value;
    MatchedIsWritten(s);
    var written := Written(hit.key, hit.fallback);
    assert s[..|s| - |hit.rest|] == written == written + "";
    WrittenIsMatched(hit.key, hit.fallback, "");
  }

  /** What the variable store itself offers (internal/variables/store.go): the record with the variables
      written over it. */
  method Merge(variables: Record, record: Record) returns (result: Record)
    ensures result == record + variables
  {
    result := CopyInto(map[], record);
    result := CopyInto(result, variables);
  }

  method CopyInto(target: Record, source: Record) returns (result: Record)
    ensures result == target + source
  {
    result := target;
    var keys := source.Keys;
    while keys != {}
      invariant keys <= source.Keys && result.Keys == target.Keys + (source.Keys - keys)
      invariant forall k <- result :: result[k] == if k in source && k !in keys then source[k] else target[k]
      decreases |keys|
    {
      var key :| key in keys;
      result := result[key := source[key]];
      keys := keys - {key};
    }
  }

  /** Filling from a store and a record is filling from the two merged, for every template. */
  lemma {:induction false} MergedStoreFillsTheSame(s: string, store: Record, record: Record)
    ensures ReplaceMatches(s, store, record) == ReplaceMatches(s, record + store, map[])
    decreases |s|
  {
    if s != "" {
      match MatchHere(s)
      case Some(hit) => MergedStoreFillsTheSame(hit.rest, store, record);
      case None => MergedStoreFillsTheSame(s[1..], store, record);
    }
  }

  // ---------------------------------------------------------------- the store-less path

  /** The text is itself a template: its braces only enclose names. */
  ghost predicate IsTemplate(text: string)
  {
    exists parts: seq<Part> :: WellFormed(parts) && Text(parts) == text
  }

  /** Every bound name in the template has a value that no other key of the record changes. */
  ghost predicate HarmlessHoles(parts: seq<Part>, record: Record)
  {
    forall name <- record :: Hole(name) in parts ==>
      IsTemplate(record[name]) && forall key <- record :: key != name ==> Harmless(record, name, key)
  }

  /** Then the loop over the record gives the simultaneous substitution, whatever the order of the keys,
      even if the values are templates themselves. */
  lemma HarmlessHolesAreFilledAtOnce(parts: seq<Part>, record: Record, result: string)
    requires WellFormed(parts) && (forall key <- record :: BraceFree(key)) && HarmlessHoles(parts, record)
    requires Replaced(Text(parts), record, result)
    ensures result == Substituted(parts, record)
  {
    var order :| Ordering(order, record.Keys) && result == InOrder(Text(parts), order, record);
    FilledInOrder(parts, order, record.Keys, record);
    assert record - (record.Keys - record.Keys) == record;
  }

  /** In particular when keys and values have no braces. */
  lemma StorelessPathIsSimultaneous(parts: seq<Part>, record: Record, result: string)
    requires WellFormed(parts) && (forall key <- record :: BraceFree(key) && BraceFree(record[key]))
    requires Replaced(Text(parts), record, result)
    ensures result == Substituted(parts, record)
  {
    forall name | name in record
      ensures IsTemplate(record[name]) && forall key <- record :: key != name ==> Harmless(record, name, key)
    {
      PlainTextIsTemplate(record[name]);
      forall key | key in record ensures !Mentions(record[name], key) { NothingMentioned(record[name], key); }
    }
    HarmlessHolesAreFilledAtOnce(parts, record, result);
  }

  lemma PlainTextIsTemplate(text: string)
    requires BraceFree(text)
    ensures IsTemplate(text)
  {
    var parts := [Literal(text)];
    assert Text(parts[1..]) == "";
    assert text + "" == text;
    assert WellFormed(parts) && Text(parts) == text;
  }

  lemma {:induction false} NothingMentioned(text: string, key: string)
    requires BraceFree(text)
    ensures !Mentions(text, key)
  {
    if text != "" {
      assert Braced(key)[0] == '{' && text[0] != '{';
      NothingMentioned(text[1..], key);
    }
  }

  lemma {:induction false} FilledInOrder(parts: seq<Part>, order: seq<string>, done: set<string>, record: Record)
    requires WellFormed(parts) && (forall key <- record :: BraceFree(key)) && HarmlessHoles(parts, record)
    requires done <= record.Keys && Ordering(order, done)
    ensures InOrder(Text(parts), order, record) == Substituted(parts, record - (record.Keys - done))
  {
    if order == [] {
      NothingSubstituted(parts, record - (record.Keys - done));
    } else {
      var n := |order| - 1;
      var key, before := order[n], done - {order[n]};
      WithoutLast(order, done);
      FilledInOrder(parts, order[..n], before, record);
      var partial := record - (record.Keys - before);
      forall name | name in partial && Hole(name) in parts ensures Settled(partial[name], key, record[key]) {
        assert Harmless(record, name, key);
      }
      OneMoreKey(parts, partial, key, record[key]);
      assert partial[key := record[key]] == record - (record.Keys - done);
    }
  }

  lemma {:induction false} NothingSubstituted(parts: seq<Part>, nothing: Record)
    requires nothing == map[]
    ensures Substituted(parts, nothing) == Text(parts)
  {
    if parts != [] { NothingSubstituted(parts[1..], nothing); }
  }

  /** Replacing `key` by `value` leaves this text alone, and the text has no loose braces. */
  ghost predicate Settled(text: string, key: string, value: string)
  {
    IsTemplate(text) && (!Mentions(text, key) || value == Braced(key))
  }

  /** One more key is filled in, and what was filled in before stays. */
  lemma {:induction false} OneMoreKey(parts: seq<Part>, partial: Record, key: string, value: string)
    requires WellFormed(parts) && BraceFree(key) && key !in partial
    requires forall name <- partial :: Hole(name) in parts ==> Settled(partial[name], key, value)
    ensures ReplaceAll(Substituted(parts, partial), Braced(key), value) == Substituted(parts, partial[key := value])
  {
    if parts != [] {
      var rest := Substituted(parts[1..], partial);
      OneMoreKey(parts[1..], partial, key, value);
      PartFilled(parts[0], rest, partial, key, value);
    }
  }

  lemma PartFilled(part: Part, rest: string, partial: Record, key: string, value: string)
    requires BraceFree(if part.Literal? then part.text else part.name) && BraceFree(key) && key !in partial
    requires part.Hole? && part.name in partial ==> Settled(partial[part.name], key, value)
    ensures ReplaceAll(Value(part, partial) + rest, Braced(key), value)
         == Value(part, partial[key := value]) + ReplaceAll(rest, Braced(key), value)
  {
    if part.Hole? && part.name in partial {
      SettledStays(partial[part.name], rest, key, value);
    } else {
      PartReplaced(part, rest, key, value);
    }
  }

  /** What becomes of one part does not depend on what follows it. */
  lemma PartReplaced(part: Part, rest: string, key: string, value: string)
    requires BraceFree(if part.Literal? then part.text else part.name) && BraceFree(key)
    ensures ReplaceAll(PartText(part) + rest, Braced(key), value)
         == (if part == Hole(key) then value else PartText(part)) + ReplaceAll(rest, Braced(key), value)
  {
    if part.Literal? {
      PlainTextUntouched(part.text, rest, key, value);
    } else if part.name == key {
      OwnHoleFilled(key, rest, value);
    } else {
      OtherHoleUntouched(part.name, rest, key, value);
    }
  }

  lemma OwnHoleFilled(key: string, rest: string, value: string)
    ensures ReplaceAll(Braced(key) + rest, Braced(key), value) == value + ReplaceAll(rest, Braced(key), value)
  {
    assert Braced(key) <= Braced(key) + rest;
    assert (Braced(key) + rest)[|Braced(key)|..] == rest;
  }

  lemma SettledStays(text: string, rest: string, key: string, value: string)
    requires Settled(text, key, value) && BraceFree(key)
    ensures ReplaceAll(text + rest, Braced(key), value) == text + ReplaceAll(rest, Braced(key), value)
  {
    var parts: seq<Part> :| WellFormed(parts) && Text(parts) == text;
    ReplaceAcross(parts, rest, key, value);
    ReplacingChangesNothing(text, Braced(key), value);
  }

  /** No key in braces straddles the end of a template. */
  lemma {:induction false} ReplaceAcross(parts: seq<Part>, rest: string, key: string, value: string)
    requires WellFormed(parts) && BraceFree(key)
    ensures ReplaceAll(Text(parts) + rest, Braced(key), value)
         == ReplaceAll(Text(parts), Braced(key), value) + ReplaceAll(rest, Braced(key), value)
  {
    if parts == [] {
      assert "" + rest == rest && "" + ReplaceAll(rest, Braced(key), value) == ReplaceAll(rest, Braced(key), value);
    } else {
      var front, tail := PartText(parts[0]), Text(parts[1..]);
      var after := ReplaceAll(rest, Braced(key), value);
      var filled := if parts[0] == Hole(key) then value else front;
      PartReplaced(parts[0], tail + rest, key, value);
      PartReplaced(parts[0], tail, key, value);
      ReplaceAcross(parts[1..], rest, key, value);
      Regroup(front, tail, rest);
      Regroup(filled, ReplaceAll(tail, Braced(key), value), after);
    }
  }

  lemma Regroup(a: string, b: string, c: string)
    ensures a + b + c == a + (b + c)
  {
  }

  function Bind(parts: seq<Part>, key: string, value: string): (bound: seq<Part>)
    ensures |bound| == |parts|
    ensures forall i :: 0 <= i < |parts| ==>
              bound[i] == if parts[i] == Hole(key) then Literal(value) else parts[i]
  {
    seq(|parts|, i requires 0 <= i < |parts| => if parts[i] == Hole(key) then Literal(value) else parts[i])
  }

  /** Replacing one key fills its holes and touches nothing else, whatever the value contains. */
  lemma {:induction false} BindingReplaces(parts: seq<Part>, key: string, value: string)
    requires WellFormed(parts) && BraceFree(key)
    ensures ReplaceAll(Text(parts), Braced(key), value) == Text(Bind(parts, key, value))
  {
    if parts != [] {
      BindingReplaces(parts[1..], key, value);
      assert Bind(parts, key, value)[1..] == Bind(parts[1..], key, value);
      PartReplaced(parts[0], Text(parts[1..]), key, value);
    }
  }

  lemma NoReplaceStep(c: char, rest: string, key: string, value: string)
    requires !(Braced(key) <= [c] + rest)
    ensures ReplaceAll([c] + rest, Braced(key), value) == [c] + ReplaceAll(rest, Braced(key), value)
  {
    assert ([c] + rest)[1..] == rest;
  }

  lemma {:induction false} PlainTextUntouched(text: string, rest: string, key: string, value: string)
    requires forall i :: 0 <= i < |text| ==> text[i] != '{'
    ensures ReplaceAll(text + rest, Braced(key), value) == text + ReplaceAll(rest, Braced(key), value)
  {
    if text == "" {
      assert text + rest == rest;
    } else {
      var c, tail := text[0], text[1..] + rest;
      assert text + rest == [c] + tail;
      assert Braced(key)[0] == '{';
      NoReplaceStep(c, tail, key, value);
      PlainTextUntouched(text[1..], rest, key, value);
      assert [c] + (text[1..] + ReplaceAll(rest, Braced(key), value)) == text + ReplaceAll(rest, Braced(key), value);
    }
  }

  lemma OtherHoleUntouched(name: string, rest: string, key: string, value: string)
    requires BraceFree(name) && BraceFree(key) && name != key
    ensures ReplaceAll(Braced(name) + rest, Braced(key), value)
         == Braced(name) + ReplaceAll(rest, Braced(key), value)
  {
    var old_, after := Braced(key), ReplaceAll(rest, Braced(key), value);
    var body := (name + "}}") + rest;
    calc {
      ReplaceAll(Braced(name) + rest, old_, value);
    ==  { OtherNameDiffers(name, rest, key);
          assert Braced(name) + rest == ['{'] + (['{'] + body); NoReplaceStep('{', ['{'] + body, key, value); }
      ['{'] + ReplaceAll(['{'] + body, old_, value);
    ==  { assert old_[1] == '{' && (['{'] + body)[1] != '{'; NoReplaceStep('{', body, key, value); }
      ['{'] + (['{'] + ReplaceAll(body, old_, value));
    ==  { PlainTextUntouched(name + "}}", rest, key, value); }
      ['{'] + (['{'] + ((name + "}}") + after));
    ==
      Braced(name) + after;
    }
  }

  lemma OtherNameDiffers(name: string, rest: string, key: string)
    requires BraceFree(name) && BraceFree(key) && name != key
    ensures !(Braced(key) <= Braced(name) + rest)
  {
    var old_, s := Braced(key), Braced(name) + rest;
    if |name| < |key| {
      assert s[2 + |name|] == '}' && old_[2 + |name|] == key[|name|];
    } else if |key| < |name| {
      assert old_[2 + |key|] == '}' && s[2 + |key|] == name[|key|];
    } else {
      var i :| 0 <= i < |key| && key[i] != name[i];
      assert old_[2 + i] == key[i] && s[2 + i] == name[i];
    }
  }

  // ---------------------------------------------------------------- what comes for a placeholder

  /** What the pattern takes is replaced by the store's value; without one by the record's; without either by
      the default, and by nothing if none is written. */
  lemma PlaceholderIsFilled(key: string, fallback: Option<string>, rest: string, store: Record, record: Record)
    requires Writable(key, fallback)
    ensures var s, after := Written(key, fallback) + rest, ReplaceMatches(rest, store, record);
            && (key in store ==> ReplaceMatches(s, store, record) == store[key] + after)
            && (key !in store && key in record ==> ReplaceMatches(s, store, record) == record[key] + after)
            && (key !in store && key !in record && fallback.Some? ==>
                  ReplaceMatches(s, store, record) == fallback.value + after)
            && (key !in store && key !in record && fallback.None? ==> ReplaceMatches(s, store, record) == after)
  {
    WrittenIsMatched(key, fallback, rest);
    assert "" + ReplaceMatches(rest, store, record) == ReplaceMatches(rest, store, record);
  }

  /** An empty record replaces nothing, so Apply's shortcut shows nowhere: a first store that is there takes
      one pass, and everything else is the loop over the record. */
  lemma ShortcutDoesNotShow(template: string, record: Record, stores: Stores, result: string)
    ensures Outcome(template, record, stores, result) <==>
              if |stores| > 0 && stores[0] != None then result == ReplaceMatches(template, stores[0].value, record)
              else Replaced(template, record, result)
  {
    if record == map[] {
      forall order: seq<string> | Ordering(order, {}) ensures order == [] {
        if order != [] {
          WithoutLast(order, {});
          assert false;
        }
      }
      assert Ordering([], {}) && record.Keys == {};
      assert InOrder(template, [], record) == template;
    }
  }

  // ---------------------------------------------------------------- unbound placeholders

  /** Neither the store nor the record has the key. */
  predicate Unbound(key: string, store: Record, record: Record) { key !in store && key !in record }

  /** With a store, a name that nothing binds and that has no default leaves nothing behind. */
  lemma UnboundNameVanishes(name: string, rest: string, store: Record, record: Record)
    requires BraceFree(name) && name != "" && '|' !in name && Unbound(name, store, record)
    ensures ReplaceMatches(Braced(name) + rest, store, record) == ReplaceMatches(rest, store, record)
  {
    HoleIsResolved(name, rest, store, record);
    PlainName(name);
    assert "" + ReplaceMatches(rest, store, record) == ReplaceMatches(rest, store, record);
  }

  lemma PlainName(name: string)
    requires BraceFree(name) && '|' !in name
    ensures Until(name, true) == (name, "")
  {
    assert name + "" == name;
    UntilIs(name, "", true);
  }

  /** Whatever the pattern takes, keys and defaults with opening braces included, stays as written exactly
      when its key is bound to just this text; a default never makes it stay. */
  lemma MatchStaysExactly(key: string, fallback: Option<string>, rest: string, store: Record, record: Record)
    requires Writable(key, fallback)
    ensures var written := Written(key, fallback);
            ReplaceMatches(written + rest, store, record) == written + ReplaceMatches(rest, store, record)
            <==> (key in store && store[key] == written)
                 || (key !in store && key in record && record[key] == written)
  {
    var written, value := Written(key, fallback), Lookup(key, fallback, store, record);
    WrittenIsMatched(key, fallback, rest);
    SameFront(value, written, ReplaceMatches(rest, store, record));
    assert fallback.Some? ==> |fallback.value| < |written|;
    assert "" != written;
  }

  /** A hole stays as written exactly when its name has no key, or the key is bound to just this text.
      So of the unbound ones only those without a key stay, and a default never makes one stay. */
  lemma HoleStaysExactly(name: string, rest: string, store: Record, record: Record)
    requires BraceFree(name)
    ensures var key := Until(name, true).0;
            ReplaceMatches(Braced(name) + rest, store, record) == Braced(name) + ReplaceMatches(rest, store, record)
            <==> key == "" || (key in store && store[key] == Braced(name))
                 || (key !in store && key in record && record[key] == Braced(name))
  {
    var cut := Until(name, true);
    var after := ReplaceMatches(rest, store, record);
    HoleIsResolved(name, rest, store, record);
    SameFront(Resolved(name, store, record), Braced(name), after);
    FallbackIsBraceFree(name);
    assert Braced(name)[0] == '{';
    assert Braced(name) != "";
  }

  lemma SameFront(a: string, b: string, tail: string)
    ensures a + tail == b + tail <==> a == b
  {
    if a + tail == b + tail {
      assert |a| == |b|;
      assert (a + tail)[..|a|] == (b + tail)[..|b|];
      assert (a + tail)[..|a|] == a && (b + tail)[..|b|] == b;
    }
  }

  /** The path of the documentation's example, with nothing extracted. */
  lemma UnboundExample()
    ensures ReplaceMatches("/users/" + Braced("user_id"), map[], map[]) == "/users/"
  {
    UnboundAtTheEnd("/users/", "user_id");
  }

  lemma UnboundAtTheEnd(text: string, name: string)
    requires forall i :: 0 <= i < |text| ==> text[i] != '{'
    requires BraceFree(name) && name != "" && '|' !in name
    ensures ReplaceMatches(text + Braced(name), map[], map[]) == text
  {
    assert Braced(name) + "" == Braced(name);
    UnboundNameVanishes(name, "", map[], map[]);
    PlainTextStays(text, Braced(name), map[], map[]);
    assert text + "" == text;
  }

  // ---------------------------------------------------------------- where the order matters

  /** Every order of the keys gives the same outcome. */
  ghost predicate OneOutcome(template: string, record: Record)
  {
    forall a, b | Replaced(template, record, a) && Replaced(template, record, b) :: a == b
  }

  /** No value is changed by replacing another key. */
  predicate AllHarmless(record: Record)
  {
    forall first, key | first in record && key in record && key != first :: Harmless(record, first, key)
  }

  /** For a record of brace-free keys whose values are templates, the order of the keys shows in no
      template exactly when no value mentions another key (but for keys whose value is the key itself in
      braces). */
  lemma OrderNeverShowsExactly(record: Record)
    requires forall key <- record :: BraceFree(key) && IsTemplate(record[key])
    ensures (forall parts | WellFormed(parts) :: OneOutcome(Text(parts), record)) <==> AllHarmless(record)
  {
    if AllHarmless(record) {
      forall parts | WellFormed(parts) ensures OneOutcome(Text(parts), record) {
        forall a | Replaced(Text(parts), record, a) ensures a == Substituted(parts, record) {
          HarmlessHolesAreFilledAtOnce(parts, record, a);
        }
      }
    } else {
      var first, key :| first in record && key in record && key != first && !Harmless(record, first, key);
      OrderMattersWhenAValueNamesAKey(record, first);
      HoleText(first);
    }
  }

  lemma HoleText(name: string)
    requires BraceFree(name)
    ensures WellFormed([Hole(name)]) && Text([Hole(name)]) == Braced(name)
  {
    var parts := [Hole(name)];
    assert Text(parts[1..]) == "";
    assert Braced(name) + "" == Braced(name);
  }

  /** On the template that is just the first key, whatever the values are, the order shows exactly when the
      first value mentions another key whose own value is not that key in braces. */
  lemma OrderMattersWhenAValueNamesAKey(record: Record, first: string)
    requires first in record && forall key <- record :: BraceFree(key)
    ensures OneOutcome(Braced(first), record) <==> forall key <- record :: key != first ==> Harmless(record, first, key)
  {
    if forall key <- record :: key != first ==> Harmless(record, first, key) {
      forall a | Replaced(Braced(first), record, a) ensures a == record[first] {
        var order :| Ordering(order, record.Keys) && a == InOrder(Braced(first), order, record);
        HarmlessOrder(record, first, order, record.Keys);
      }
    } else {
      var key :| key in record && key != first && !Harmless(record, first, key);
      TwoOutcomes(record, first, key);
      ReplacingChangesNothing(record[first], Braced(key), record[key]);
    }
  }

  /** Replacing `key` leaves the value of `first` as it is. */
  predicate Harmless(record: Record, first: string, key: string)
    requires first in record && key in record
  {
    !Mentions(record[first], key) || record[key] == Braced(key)
  }

  /** The key in braces occurs in the text. */
  predicate Mentions(text: string, key: string) { Occurs(text, Braced(key)) }

  predicate Occurs(s: string, old_: string)
    requires old_ != ""
  {
    s != "" && (old_ <= s || Occurs(s[1..], old_))
  }

  /** The hole of `first` waits for its turn, and its value stays. */
  lemma {:induction false} HarmlessOrder(record: Record, first: string, order: seq<string>, done: set<string>)
    requires first in record && (forall key <- record :: BraceFree(key))
    requires done <= record.Keys && Ordering(order, done)
    requires forall key <- done :: key != first ==> Harmless(record, first, key)
    ensures InOrder(Braced(first), order, record) == if first in done then record[first] else Braced(first)
  {
    if order != [] {
      var n := |order| - 1;
      WithoutLast(order, done);
      HarmlessOrder(record, first, order[..n], done - {order[n]});
      if order[n] == first {
        KeyAlone(first, record[first]);
      } else {
        HoleAlone(first, order[n], record[order[n]]);
        ReplacingChangesNothing(record[first], Braced(order[n]), record[order[n]]);
      }
    }
  }

  /** All other keys first, then these two in either order: the value with the key replaced, or as it is. */
  lemma TwoOutcomes(record: Record, first: string, key: string)
    requires first in record && key in record && first != key && forall other <- record :: BraceFree(other)
    ensures Replaced(Braced(first), record, ReplaceAll(record[first], Braced(key), record[key]))
    ensures Replaced(Braced(first), record, record[first])
  {
    var others := record.Keys - {first, key};
    var rest := SomeOrdering(others);
    StillWaiting(record, first, rest);
    KeyAlone(first, record[first]);
    HoleAlone(first, key, record[key]);
    OrderOfTwo(record, Braced(first), rest, others, first, key);
    OrderOfTwo(record, Braced(first), rest, others, key, first);
  }

  lemma OrderOfTwo(record: Record, template: string, rest: seq<string>, others: set<string>, a: string, b: string)
    requires a in record && b in record && a != b && others == record.Keys - {a, b} && Ordering(rest, others)
    ensures var before := InOrder(template, rest, record);
            Replaced(template, record, ReplaceAll(ReplaceAll(before, Braced(a), record[a]), Braced(b), record[b]))
  {
    OrderingSnoc(rest, others, a);
    OrderingSnoc(rest + [a], others + {a}, b);
    assert others + {a} + {b} == record.Keys;
    InOrderSnoc(template, rest, a, record);
    InOrderSnoc(template, rest + [a], b, record);
  }

  lemma {:induction false} StillWaiting(record: Record, first: string, order: seq<string>)
    requires first !in order && BraceFree(first) && forall key <- order :: key in record && BraceFree(key)
    ensures InOrder(Braced(first), order, record) == Braced(first)
  {
    if order != [] {
      var n := |order| - 1;
      StillWaiting(record, first, order[..n]);
      HoleAlone(first, order[n], record[order[n]]);
    }
  }

  lemma HoleAlone(name: string, key: string, value: string)
    requires BraceFree(name) && BraceFree(key) && name != key
    ensures ReplaceAll(Braced(name), Braced(key), value) == Braced(name)
  {
    OtherHoleUntouched(name, "", key, value);
    assert Braced(name) + "" == Braced(name);
  }

  /** One such record, with a third key that plays no part. */
  lemma OrderMattersExample()
    ensures var record := map["a" := "{{b}}", "b" := "x", "c" := "y"];
            Replaced("{{a}}", record, "x") && Replaced("{{a}}", record, "{{b}}")
  {
    var record := map["a" := "{{b}}", "b" := "x", "c" := "y"];
    assert Braced("a") == "{{a}}" && Braced("b") == "{{b}}";
    TwoOutcomes(record, "a", "b");
    KeyAlone("b", "x");
  }

  /** A name in four braces: not a template, for its braces do not just enclose the name. */
  function Nested(name: string): string { "{{" + (Braced(name) + "}}") }

  /** Neither keys nor values have braces, but what is filled in makes a new placeholder with the braces
      around it, and the other key comes after that or before. */
  lemma NestedBracesExample()
    ensures var record := map["a" := "b", "b" := "x"];
            Replaced(Nested("a"), record, "x") && Replaced(Nested("a"), record, Braced("b"))
  {
    var record := map["a" := "b", "b" := "x"];
    NestedReplaced("a", "b");
    NestedUntouched("a", "b", "x");
    KeyAlone("b", "x");
    OrderOfJustTwo(record, Nested("a"), "a", "b");
    OrderOfJustTwo(record, Nested("a"), "b", "a");
    assert "{{" + "b" + "}}" == Braced("b");
  }

  lemma OrderOfJustTwo(record: Record, template: string, a: string, b: string)
    requires record.Keys == {a, b} && a != b
    ensures Replaced(template, record, ReplaceAll(ReplaceAll(template, Braced(a), record[a]), Braced(b), record[b]))
  {
    OrderOfTwo(record, template, [], {}, a, b);
  }

  lemma NestedReplaced(name: string, value: string)
    requires BraceFree(name) && name != ""
    ensures ReplaceAll(Nested(name), Braced(name), value) == "{{" + value + "}}"
  {
    OuterBraces(name, name, value);
    OwnHoleFilled(name, "}}", value);
    assert "}}" + "" == "}}";
    PlainTextUntouched("}}", "", name, value);
    assert "{{" + (value + "}}") == "{{" + value + "}}";
  }

  lemma NestedUntouched(name: string, key: string, value: string)
    requires BraceFree(name) && BraceFree(key) && name != key && key != ""
    ensures ReplaceAll(Nested(name), Braced(key), value) == Nested(name)
  {
    OuterBraces(name, key, value);
    OtherHoleUntouched(name, "}}", key, value);
    assert "}}" + "" == "}}";
    PlainTextUntouched("}}", "", key, value);
  }

  lemma OuterBraces(name: string, key: string, value: string)
    requires BraceFree(key) && key != ""
    ensures ReplaceAll(Nested(name), Braced(key), value)
         == "{{" + ReplaceAll(Braced(name) + "}}", Braced(key), value)
  {
    var inner := Braced(name) + "}}";
    assert Braced(key)[2] == key[0] != '{';
    assert Nested(name) == ['{'] + (['{'] + inner);
    assert (['{'] + (['{'] + inner))[2] == '{' && (['{'] + inner)[2] == '{';
    NoReplaceStep('{', ['{'] + inner, key, value);
    NoReplaceStep('{', inner, key, value);
  }

  /** No value mentions another key, but two values have loose braces and make a placeholder together. */
  lemma LooseBracesExample()
    ensures var record := map["a" := "{{b", "c" := "}}", "b" := "x"];
            var template := Braced("a") + Braced("c");
            && AllHarmless(record)
            && Replaced(template, record, "x") && Replaced(template, record, Braced("b"))
  {
    var record := map["a" := "{{b", "c" := "}}", "b" := "x"];
    var template := Braced("a") + Braced("c");
    LooseValues(record);
    BothHoles("b", "x");
    FirstHole();
    SecondHole();
    KeyAlone("b", "x");
    OrderOfThree(record, template, "a", "c", "b");
    OrderOfThree(record, template, "b", "a", "c");
  }

  lemma LooseValues(record: Record)
    requires record == map["a" := "{{b", "c" := "}}", "b" := "x"]
    ensures AllHarmless(record)
  {
    forall key ensures !Mentions("{{b", key) && !Mentions("}}", key) && !Mentions("x", key) {
      TooShort("{{b", key);
      TooShort("}}", key);
      TooShort("x", key);
    }
  }

  lemma {:induction false} TooShort(text: string, key: string)
    requires |text| < 4
    ensures !Mentions(text, key)
  {
    if text != "" { TooShort(text[1..], key); }
  }

  lemma BothHoles(key: string, value: string)
    requires BraceFree(key) && key != "a" && key != "c"
    ensures ReplaceAll(Braced("a") + Braced("c"), Braced(key), value) == Braced("a") + Braced("c")
  {
    OtherHoleUntouched("a", Braced("c"), key, value);
    HoleAlone("c", key, value);
  }

  lemma FirstHole()
    ensures ReplaceAll(Braced("a") + Braced("c"), Braced("a"), "{{b") == "{{b" + Braced("c")
  {
    OwnHoleFilled("a", Braced("c"), "{{b");
    HoleAlone("c", "a", "{{b");
  }

  lemma SecondHole()
    ensures ReplaceAll("{{b" + Braced("c"), Braced("c"), "}}") == Braced("b")
  {
    var hole := Braced("c");
    var s := ['b'] + hole;
    assert Braced("c")[0] == Braced("c")[1] == '{' && Braced("c")[2] == 'c';
    assert "{{b" + hole == ['{'] + (['{'] + s);
    assert (['{'] + (['{'] + s))[2] == 'b' && (['{'] + s)[1] == 'b';
    NoReplaceStep('{', ['{'] + s, "c", "}}");
    NoReplaceStep('{', s, "c", "}}");
    NoReplaceStep('b', hole, "c", "}}");
    KeyAlone("c", "}}");
    assert ['{'] + (['{'] + (['b'] + "}}")) == Braced("b");
  }

  lemma OrderOfThree(record: Record, template: string, a: string, b: string, c: string)
    requires record.Keys == {a, b, c} && a != b && b != c && a != c
    ensures var first := ReplaceAll(template, Braced(a), record[a]);
            Replaced(template, record, ReplaceAll(ReplaceAll(first, Braced(b), record[b]), Braced(c), record[c]))
  {
    InOrderSnoc(template, [], a, record);
    assert [] + [a] == [a];
    OrderOfTwo(record, template, [a], {a}, b, c);
  }

  lemma KeyAlone(key: string, value: string)
    ensures ReplaceAll(Braced(key), Braced(key), value) == value
  {
    assert Braced(key)[|Braced(key)|..] == "";
    assert value + "" == value;
  }

  /** Replacing is without effect exactly when there is nothing to replace or nothing to change. */
  lemma ReplacingChangesNothing(s: string, old_: string, new_: string)
    requires old_ != ""
    ensures ReplaceAll(s, old_, new_) == s <==> !Occurs(s, old_) || old_ == new_
  {
    ReplacedLength(s, old_, new_);
    if old_ == new_ {
      ReplacingBySame(s, old_);
    } else if Occurs(s, old_) && |old_| == |new_| {
      ReplacingSameLength(s, old_, new_);
    }
  }

  lemma {:induction false} ReplacedLength(s: string, old_: string, new_: string)
    requires old_ != ""
    ensures !Occurs(s, old_) ==> ReplaceAll(s, old_, new_) == s
    ensures Occurs(s, old_) && |new_| > |old_| ==> |ReplaceAll(s, old_, new_)| > |s|
    ensures Occurs(s, old_) && |new_| < |old_| ==> |ReplaceAll(s, old_, new_)| < |s|
  {
    if s != "" {
      ReplacedLength(if old_ <= s then s[|old_|..] else s[1..], old_, new_);
    }
  }

  lemma {:induction false} ReplacingBySame(s: string, old_: string)
    requires old_ != ""
    ensures ReplaceAll(s, old_, old_) == s
  {
    if s != "" {
      if old_ <= s { ReplacingBySame(s[|old_|..], old_); } else { ReplacingBySame(s[1..], old_); }
    }
  }

  lemma {:induction false} ReplacingSameLength(s: string, old_: string, new_: string)
    requires old_ != "" && |old_| == |new_| && old_ != new_ && Occurs(s, old_)
    ensures ReplaceAll(s, old_, new_) != s
  {
    if old_ <= s {
      assert s[..|old_|] == old_;
      assert ReplaceAll(s, old_, new_)[..|old_|] == new_;
    } else {
      ReplacingSameLength(s[1..], old_, new_);
      assert ReplaceAll(s, old_, new_)[1..] == ReplaceAll(s[1..], old_, new_);
    }
  }

  // ---------------------------------------------------------------- the two paths compared

  /** The name has a key, the record has the whole name, and (with a bar in the name) its value
      happens to be the key's value or the default; or there is no key and the record does not have
      the name. */
  predicate Agreeable(name: string, record: Record)
  {
    var cut := Until(name, true);
    if cut.0 == "" then
      name !in record
    else
      name in record && (cut.1 == "" || record[name] == Lookup(cut.0, Fallback(cut.1), map[], record))
  }

  /** Exactly then the two paths make the same of a name; in particular of every bound plain name,
      and never of a name the record does not have. */
  lemma HolesAgreeExactly(name: string, record: Record)
    requires BraceFree(name) && (forall key <- record :: BraceFree(record[key]))
    ensures Resolved(name, map[], record) == Value(Hole(name), record) <==> Agreeable(name, record)
  {
    var cut := Until(name, true);
    UntilCuts(name, true);
    assert Braced(name)[0] == '{';
    assert cut.1 == "" ==> cut.0 == name;
    assert name in record && record[name] != "" ==> record[name][0] != '{';
    FallbackIsBraceFree(name);
    var found := Lookup(cut.0, Fallback(cut.1), map[], record);
    assert BraceFree(found);
    assert found != Braced(name);
  }

  lemma FallbackIsBraceFree(name: string)
    requires BraceFree(name)
    ensures var cut := Until(name, true); Fallback(cut.1).Some? ==> BraceFree(Fallback(cut.1).value)
  {
    var cut := Until(name, true);
    UntilCuts(name, true);
    if cut.1 != "" {
      forall i | 0 <= i < |cut.1| - 1 ensures cut.1[1..][i] != '{' && cut.1[1..][i] != '}' {
        assert cut.1[1..][i] == name[|cut.0| + 1 + i];
      }
    }
  }

  /** So with an empty store the two paths return the same text when every name in it is bound. */
  lemma {:induction false} PathsAgree(parts: seq<Part>, record: Record, result: string)
    requires WellFormed(parts) && (forall key <- record :: BraceFree(key) && BraceFree(record[key]))
    requires forall part <- parts :: part.Hole? ==> Agreeable(part.name, record)
    requires Replaced(Text(parts), record, result)
    ensures result == ReplaceMatches(Text(parts), map[], record)
  {
    StorelessPathIsSimultaneous(parts, record, result);
    StorePathFillsEveryHole(parts, map[], record);
    forall part | part in parts && part.Hole? ensures Resolved(part.name, map[], record) == Value(part, record) {
      HolesAgreeExactly(part.name, record);
    }
    SamePartsSameText(parts, record);
  }

  lemma {:induction false} SamePartsSameText(parts: seq<Part>, record: Record)
    requires forall part <- parts :: part.Hole? ==> Resolved(part.name, map[], record) == Value(part, record)
    ensures Filled(parts, map[], record) == Substituted(parts, record)
  {
    if parts != [] {
      SamePartsSameText(parts[1..], record);
      assert parts[0] in parts;
    }
  }
}
