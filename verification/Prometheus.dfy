/** Labels, sample lines and aggregates of packages/observability/src/operational.ts. */
module Prometheus {
  import opened Common

  // ---- Escaping ----

  /** `text.replaceAll(c, with)`. */
  function ReplaceAll(text: string, c: char, with: string): string {
    if text == "" then "" else (if text[0] == c then with else [text[0]]) + ReplaceAll(text[1..], c, with)
  }

  const BACKSLASH := '\\'
  const NEWLINE := '\n'
  const QUOTE := '\"'

  /** Three passes over the whole string. */
  function EscapeLabel(value: string): string {
    ReplaceAll(ReplaceAll(ReplaceAll(value, BACKSLASH, [BACKSLASH, BACKSLASH]), NEWLINE, [BACKSLASH, 'n']), QUOTE, [BACKSLASH, QUOTE])
  }

  function EscapeChar(c: char): string {
    if c == BACKSLASH then [BACKSLASH, BACKSLASH]
    else if c == NEWLINE then [BACKSLASH, 'n']
    else if c == QUOTE then [BACKSLASH, QUOTE]
    else [c]
  }

  /** One pass, character by character. */
  function Escaped(value: string): string {
    if value == "" then "" else EscapeChar(value[0]) + Escaped(value[1..])
  }

  lemma {:induction false} ReplaceAllOfConcat(a: string, b: string, c: char, with: string)
    ensures ReplaceAll(a + b, c, with) == ReplaceAll(a, c, with) + ReplaceAll(b, c, with)
    decreases |a|
  {
    if a == "" {
      assert a + b == b;
    } else {
      assert (a + b)[1..] == a[1..] + b;
      ReplaceAllOfConcat(a[1..], b, c, with);
    }
  }

  lemma EscapeOfConcat(a: string, b: string)
    ensures EscapeLabel(a + b) == EscapeLabel(a) + EscapeLabel(b)
  {
    var slashed := (s: string) => ReplaceAll(s, BACKSLASH, [BACKSLASH, BACKSLASH]);
    var lined := (s: string) => ReplaceAll(slashed(s), NEWLINE, [BACKSLASH, 'n']);
    ReplaceAllOfConcat(a, b, BACKSLASH, [BACKSLASH, BACKSLASH]);
    ReplaceAllOfConcat(slashed(a), slashed(b), NEWLINE, [BACKSLASH, 'n']);
    ReplaceAllOfConcat(lined(a), lined(b), QUOTE, [BACKSLASH, QUOTE]);
  }

  lemma {:induction false} ReplaceAllOfChars(one: char, two: char, c: char, with: string)
    ensures ReplaceAll([one], c, with) == if one == c then with else [one]
    ensures one != c && two != c ==> ReplaceAll([one, two], c, with) == [one, two]
  {
    assert [one][1..] == "" && [one, two][1..] == [two] && [two][1..] == "";
    assert with + "" == with;
  }

  lemma EscapeOfChar(c: char)
    ensures EscapeLabel([c]) == EscapeChar(c)
  {
    hide ReplaceAll;
    ReplaceAllOfChars(c, c, BACKSLASH, [BACKSLASH, BACKSLASH]);
    ReplaceAllOfChars(c, c, NEWLINE, [BACKSLASH, 'n']);
    ReplaceAllOfChars(BACKSLASH, BACKSLASH, NEWLINE, [BACKSLASH, 'n']);
    ReplaceAllOfChars(c, c, QUOTE, [BACKSLASH, QUOTE]);
    ReplaceAllOfChars(BACKSLASH, BACKSLASH, QUOTE, [BACKSLASH, QUOTE]);
    ReplaceAllOfChars(BACKSLASH, 'n', QUOTE, [BACKSLASH, QUOTE]);
  }

  /** The three passes do not disturb each other: they are one single-pass escape. */
  lemma {:induction false} ThreePassesAreOne(value: string)
    ensures EscapeLabel(value) == Escaped(value)
    decreases |value|
  {
    hide EscapeLabel, EscapeChar;
    if value == "" {
      EscapeOfNothing();
    } else {
      EscapeOfConcat([value[0]], value[1..]);
      assert [value[0]] + value[1..] == value;
      EscapeOfChar(value[0]);
      ThreePassesAreOne(value[1..]);
    }
  }

  lemma EscapeOfNothing()
    ensures EscapeLabel("") == ""
  {
  }

  lemma {:induction false} EscapedHasNoNewline(value: string)
    ensures NEWLINE !in Escaped(value)
    decreases |value|
  {
    if value != "" {
      EscapedHasNoNewline(value[1..]);
    }
  }

  // ---- A reader of the exposition format ----

  datatype Read<T> = Read(value: T, rest: string) | Malformed

  /** The content of a quoted value, up to its closing quote. */
  function ReadQuoted(s: string): (r: Read<string>)
    ensures r.Read? ==> |r.rest| < |s|
    decreases |s|
  {
    if s == "" then Malformed
    else if s[0] == QUOTE then Read("", s[1..])
    else if s[0] == BACKSLASH then
      if |s| == 1 then Malformed else Consed(if s[1] == 'n' then NEWLINE else s[1], ReadQuoted(s[2..]))
    else Consed(s[0], ReadQuoted(s[1..]))
  }

  function Consed(c: char, r: Read<string>): Read<string> {
    if r.Read? then Read([c] + r.value, r.rest) else Malformed
  }

  /** Reading undoes escaping, up to the first quote that is not escaped: so none is inside. */
  lemma {:induction false} QuotedIsRead(value: string, rest: string)
    ensures ReadQuoted(EscapeLabel(value) + [QUOTE] + rest) == Read(value, rest)
    ensures NEWLINE !in EscapeLabel(value)
    decreases |value|
  {
    ThreePassesAreOne(value);
    EscapedHasNoNewline(value);
    var tail := [QUOTE] + rest;
    assert EscapeLabel(value) + [QUOTE] + rest == Escaped(value) + tail;
    EscapedIsRead(value, rest);
  }

  lemma {:induction false} EscapedCharIsRead(c: char, more: string)
    ensures ReadQuoted(EscapeChar(c) + more) == Consed(c, ReadQuoted(more))
  {
    var s := EscapeChar(c) + more;
    assert |EscapeChar(c)| == 2 ==> s[2..] == more;
    assert |EscapeChar(c)| == 1 ==> s[1..] == more;
  }

  lemma {:induction false} EscapedIsRead(value: string, rest: string)
    ensures ReadQuoted(Escaped(value) + ([QUOTE] + rest)) == Read(value, rest)
    decreases |value|
  {
    var tail := [QUOTE] + rest;
    if value == "" {
      assert Escaped(value) + tail == tail;
      assert tail[1..] == rest;
    } else {
      hide ReadQuoted, EscapeChar;
      EscapedIsRead(value[1..], rest);
      EscapedCharIsRead(value[0], Escaped(value[1..]) + tail);
      assert Escaped(value) + tail == EscapeChar(value[0]) + (Escaped(value[1..]) + tail);
      assert value == [value[0]] + value[1..];
    }
  }

  predicate IsNameChar(c: char) {
    'a' <= c <= 'z' || 'A' <= c <= 'Z' || '0' <= c <= '9' || c == '_'
  }

  predicate IsName(s: string) {
    forall i :: 0 <= i < |s| ==> IsNameChar(s[i])
  }

  function ReadName(s: string): (r: Read<string>)
    ensures r.Read? && |r.rest| <= |s|
  {
    if s == "" || !IsNameChar(s[0]) then Read("", s)
    else
      var r := ReadName(s[1..]);
      Read([s[0]] + r.value, r.rest)
  }

  lemma {:induction false} NameIsRead(name: string, rest: string)
    requires IsName(name) && (rest == "" || !IsNameChar(rest[0]))
    ensures ReadName(name + rest) == Read(name, rest)
    decreases |name|
  {
    if name == "" {
      assert name + rest == rest;
    } else {
      assert (name + rest)[1..] == name[1..] + rest;
      NameIsRead(name[1..], rest);
      assert name == [name[0]] + name[1..];
    }
  }

  // ---- Labels ----

  /** The names agree up to position `i`, where the first ends or has the smaller character. */
  ghost predicate FirstDifference(a: string, b: string, i: nat) {
    i <= |a| && i < |b| && a[..i] == b[..i] && (i == |a| || a[i] < b[i])
  }

  datatype Label = Label(name: string, value: string)

  /** The entries of a label record, in the order of its creation. */
  type Labels = seq<Label>

  ghost predicate WellNamed(labels: Labels) {
    && (forall i :: 0 <= i < |labels| ==> IsName(labels[i].name))
    && (forall i, j :: 0 <= i < j < |labels| ==> labels[i].name != labels[j].name)
  }

  /** The order of label names. */
  predicate Less(a: string, b: string) {
    b != "" && (a == "" || a[0] < b[0] || (a[0] == b[0] && Less(a[1..], b[1..])))
  }

  function Insert(entry: Label, sorted: Labels): Labels {
    if sorted == [] || Less(entry.name, sorted[0].name) then [entry] + sorted
    else [sorted[0]] + Insert(entry, sorted[1..])
  }

  /** `Object.entries(labels).sort(...)` by name. */
  function Sorted(labels: Labels): Labels {
    if labels == [] then [] else Insert(labels[|labels| - 1], Sorted(labels[..|labels| - 1]))
  }

  function RenderedEntry(entry: Label): string {
    entry.name + "=" + [QUOTE] + EscapeLabel(entry.value) + [QUOTE]
  }

  function RenderedEntries(labels: Labels): string
  {
    if labels == [] then ""
    else if |labels| == 1 then RenderedEntry(labels[0])
    else RenderedEntry(labels[0]) + "," + RenderedEntries(labels[1..])
  }

  function RenderedLabels(labels: Labels): string {
    var entries := Sorted(labels);
    if entries == [] then "" else "{" + RenderedEntries(entries) + "}"
  }

  function ReadEntry(s: string): (r: Read<Label>)
    ensures r.Read? ==> |r.rest| < |s|
  {
    var name := ReadName(s);
    if !("=" + [QUOTE] <= name.rest) then Malformed
    else match ReadQuoted(name.rest[2..])
      case Malformed => Malformed
      case Read(value, rest) => Read(Label(name.value, value), rest)
  }

  function ReadEntries(s: string): Read<Labels>
    decreases |s|
  {
    match ReadEntry(s)
    case Malformed => Malformed
    case Read(entry, rest) =>
      if "}" <= rest then Read([entry], rest[1..])
      else if "," <= rest then
        match ReadEntries(rest[1..])
        case Malformed => Malformed
        case Read(more, after) => Read([entry] + more, after)
      else Malformed
  }

  function ReadLabels(s: string): Read<Labels> {
    if "{" <= s then ReadEntries(s[1..]) else Read([], s)
  }

  lemma EntryIsRead(entry: Label, rest: string)
    requires IsName(entry.name)
    ensures ReadEntry(RenderedEntry(entry) + rest) == Read(entry, rest)
  {
    hide EscapeLabel, ReadQuoted, ReadName;
    var quoted := EscapeLabel(entry.value) + [QUOTE] + rest;
    var after := "=" + [QUOTE] + quoted;
    assert RenderedEntry(entry) + rest == entry.name + after;
    NameIsRead(entry.name, after);
    assert after[2..] == quoted;
    QuotedIsRead(entry.value, rest);
  }

  lemma {:induction false} EntriesAreRead(labels: Labels, rest: string)
    requires labels != [] && forall i :: 0 <= i < |labels| ==> IsName(labels[i].name)
    ensures ReadEntries(RenderedEntries(labels) + "}" + rest) == Read(labels, rest)
    decreases |labels|
  {
    hide RenderedEntry, ReadEntry;
    var text := RenderedEntries(labels) + "}" + rest;
    if |labels| == 1 {
      EntryIsRead(labels[0], "}" + rest);
      assert text == RenderedEntry(labels[0]) + ("}" + rest);
      assert ("}" + rest)[1..] == rest;
      assert labels == [labels[0]];
    } else {
      var more := RenderedEntries(labels[1..]) + "}" + rest;
      EntriesAreRead(labels[1..], rest);
      EntryIsRead(labels[0], "," + more);
      assert text == RenderedEntry(labels[0]) + ("," + more);
      assert ("," + more)[1..] == more;
      assert ("," + more)[0] == ',' != '}';
      assert labels == [labels[0]] + labels[1..];
    }
  }

  // ---- Sorting ----

  lemma {:induction false} LessIsTotal(a: string, b: string)
    ensures Less(a, b) || Less(b, a) || a == b
    ensures !(Less(a, b) && Less(b, a)) && (a == b ==> !Less(a, b))
    decreases |a|
  {
    if a != "" && b != "" {
      LessIsTotal(a[1..], b[1..]);
      if a[0] == b[0] && a[1..] == b[1..] {
        assert a == [a[0]] + a[1..] == b;
      }
    }
  }

  /** The order is that of the characters at the first difference; a prefix comes first. */
  lemma {:induction false} LessIff(a: string, b: string)
    ensures Less(a, b) <==> exists i :: FirstDifference(a, b, i)
    decreases |a|
  {
    if a != "" && b != "" && a[0] == b[0] {
      LessIff(a[1..], b[1..]);
      if i: nat :| FirstDifference(a[1..], b[1..], i) {
        assert a[..i + 1] == [a[0]] + a[1..][..i] && b[..i + 1] == [b[0]] + b[1..][..i];
        assert FirstDifference(a, b, i + 1);
      }
      if i: nat :| FirstDifference(a, b, i) {
        assert i > 0;
        assert a[1..][..i - 1] == a[..i][1..] && b[1..][..i - 1] == b[..i][1..];
        assert FirstDifference(a[1..], b[1..], i - 1);
      }
    } else {
      assert Less(a, b) ==> FirstDifference(a, b, 0);
      forall i: nat | FirstDifference(a, b, i)
        ensures Less(a, b)
      {
        assert i > 0 ==> a[..i][0] == b[..i][0];
      }
    }
  }

  lemma {:induction false} LessIsTransitive(a: string, b: string, c: string)
    requires Less(a, b) && Less(b, c)
    ensures Less(a, c)
    decreases |a|
  {
    if a != "" && a[0] == b[0] == c[0] {
      LessIsTransitive(a[1..], b[1..], c[1..]);
    }
  }

  ghost predicate Ascending(labels: Labels) {
    forall i, j :: 0 <= i < j < |labels| ==> Less(labels[i].name, labels[j].name)
  }

  lemma {:induction false} InsertKeepsAll(entry: Label, sorted: Labels)
    ensures multiset(Insert(entry, sorted)) == multiset(sorted) + multiset{entry}
    decreases |sorted|
  {
    if sorted == [] || Less(entry.name, sorted[0].name) {
      assert Insert(entry, sorted) == [entry] + sorted;
    } else {
      assert sorted == [sorted[0]] + sorted[1..];
      InsertKeepsAll(entry, sorted[1..]);
    }
  }

  lemma {:induction false} InsertedIsNewOrOld(entry: Label, sorted: Labels, i: nat)
    requires i < |Insert(entry, sorted)|
    ensures Insert(entry, sorted)[i] == entry || Insert(entry, sorted)[i] in sorted
  {
    InsertKeepsAll(entry, sorted);
    assert Insert(entry, sorted)[i] in multiset(Insert(entry, sorted));
  }

  lemma {:induction false} InsertKeepsAscending(entry: Label, sorted: Labels)
    requires Ascending(sorted) && forall i :: 0 <= i < |sorted| ==> sorted[i].name != entry.name
    ensures Ascending(Insert(entry, sorted))
    decreases |sorted|
  {
    if sorted != [] {
      LessIsTotal(entry.name, sorted[0].name);
      if Less(entry.name, sorted[0].name) {
        forall j | 0 < j < |sorted|
          ensures Less(entry.name, sorted[j].name)
        {
          LessIsTransitive(entry.name, sorted[0].name, sorted[j].name);
        }
      } else {
        InsertKeepsAscending(entry, sorted[1..]);
        forall i: nat | i < |Insert(entry, sorted[1..])|
          ensures Less(sorted[0].name, Insert(entry, sorted[1..])[i].name)
        {
          InsertedIsNewOrOld(entry, sorted[1..], i);
        }
      }
    }
  }

  /** The sorted entries ascend by name and are those of the record. */
  lemma {:induction false} SortedSorts(labels: Labels)
    requires WellNamed(labels)
    ensures Ascending(Sorted(labels)) && multiset(Sorted(labels)) == multiset(labels)
    decreases |labels|
  {
    if labels != [] {
      var front, last := labels[..|labels| - 1], labels[|labels| - 1];
      SortedSorts(front);
      forall i | 0 <= i < |Sorted(front)|
        ensures Sorted(front)[i].name != last.name
      {
        assert Sorted(front)[i] in multiset(front);
      }
      InsertKeepsAscending(last, Sorted(front));
      InsertKeepsAll(last, Sorted(front));
      assert labels == front + [last];
    }
  }

  lemma {:induction false} AscendingIsUnique(a: Labels, b: Labels)
    requires Ascending(a) && Ascending(b) && multiset(a) == multiset(b)
    ensures a == b
    decreases |a|
  {
    if a == [] {
      assert |multiset(b)| == 0;
    } else {
      assert a[0] in multiset(b) && b[0] in multiset(a);
      assert a[0] == b[0] by {
        LessIsTotal(a[0].name, b[0].name);
      }
      assert a == [a[0]] + a[1..] && b == [b[0]] + b[1..];
      assert multiset(a[1..]) == multiset(a) - multiset{a[0]};
      assert multiset(b[1..]) == multiset(b) - multiset{b[0]};
      AscendingIsUnique(a[1..], b[1..]);
    }
  }

  /** Two label records are aggregated together exactly when they have the same entries, in
      whatever order these were created. */
  lemma {:induction false} SameKeyIff(a: Labels, b: Labels)
    requires WellNamed(a) && WellNamed(b)
    ensures Sorted(a) == Sorted(b) <==> multiset(a) == multiset(b)
  {
    SortedSorts(a);
    SortedSorts(b);
    if multiset(a) == multiset(b) {
      AscendingIsUnique(Sorted(a), Sorted(b));
    }
  }

  lemma {:induction false} SortedIsNamed(labels: Labels)
    requires WellNamed(labels)
    ensures forall i :: 0 <= i < |Sorted(labels)| ==> IsName(Sorted(labels)[i].name)
  {
    SortedSorts(labels);
    forall i | 0 <= i < |Sorted(labels)|
      ensures IsName(Sorted(labels)[i].name)
    {
      assert Sorted(labels)[i] in multiset(labels);
    }
  }

  /** A rendered label block parses back to the sorted labels. */
  lemma {:induction false} RenderedLabelsAreRead(labels: Labels, rest: string)
    requires WellNamed(labels) && (rest == "" || rest[0] != '{')
    ensures ReadLabels(RenderedLabels(labels) + rest) == Read(Sorted(labels), rest)
  {
    hide Sorted, ReadEntries, RenderedEntries, WellNamed;
    SortedIsNamed(labels);
    if Sorted(labels) == [] {
      assert RenderedLabels(labels) + rest == rest;
    } else {
      EntriesAreRead(Sorted(labels), rest);
      assert (RenderedLabels(labels) + rest)[1..] == RenderedEntries(Sorted(labels)) + "}" + rest;
    }
  }

  // ---- Sample lines ----

  function Sample(metric: string, labels: Labels, value: string): string {
    metric + RenderedLabels(labels) + " " + value
  }

  datatype ParsedSample = ParsedSample(metric: string, labels: Labels, value: string)

  function ReadSample(line: string): Option<ParsedSample> {
    var metric := ReadName(line);
    match ReadLabels(metric.rest)
    case Malformed => None
    case Read(labels, rest) => if " " <= rest then Some(ParsedSample(metric.value, labels, rest[1..])) else None
  }

  /** A sample line is read back as its metric, its sorted labels and its value. */
  lemma {:induction false} SampleIsRead(metric: string, labels: Labels, value: string)
    requires IsName(metric) && WellNamed(labels)
    ensures ReadSample(Sample(metric, labels, value)) == Some(ParsedSample(metric, Sorted(labels), value))
  {
    hide IsName, ReadName, ReadLabels, Sorted, WellNamed, RenderedEntries;
    var after := RenderedLabels(labels) + (" " + value);
    assert Sample(metric, labels, value) == metric + after;
    assert !IsNameChar(after[0]);
    NameIsRead(metric, after);
    RenderedLabelsAreRead(labels, " " + value);
    assert (" " + value)[1..] == value;
  }

  /** Samples of different metrics or different label sets never print the same line, whatever
      their values. */
  lemma SampleLinesDiffer(metric: string, labels: Labels, value: string, metric': string, labels': Labels, value': string)
    requires IsName(metric) && IsName(metric') && WellNamed(labels) && WellNamed(labels')
    requires Sample(metric, labels, value) == Sample(metric', labels', value')
    ensures metric == metric' && multiset(labels) == multiset(labels') && value == value'
  {
    SampleIsRead(metric, labels, value);
    SampleIsRead(metric', labels', value');
    SameKeyIff(labels, labels');
  }

  // ---- Aggregates ----

  datatype Duration = Finite(milliseconds: real) | NotFinite

  datatype Recording = Recording(labels: Labels, duration: Duration)

  datatype Aggregate = Aggregate(labels: Labels, count: nat, durationSum: real)

  /** Aggregates by their sorted labels. */
  type Aggregates = map<Labels, Aggregate>

  predicate ValidDuration(d: Duration) {
    d.Finite? && d.milliseconds >= 0.0
  }

  /** `addAggregate`. An existing aggregate is an object in the map: it is counted up before the
      duration is validated. */
  function Added(target: Aggregates, r: Recording): Aggregates {
    var identity := Sorted(r.labels);
    if identity in target then
      var counted := target[identity].(count := target[identity].count + 1);
      target[identity := if ValidDuration(r.duration) then counted.(durationSum := counted.durationSum + r.duration.milliseconds) else counted]
    else if ValidDuration(r.duration) then target[identity := Aggregate(r.labels, 1, r.duration.milliseconds)]
    else target
  }

  function Listed(target: Aggregates, identities: seq<Labels>): seq<Aggregate>
    requires forall i :: 0 <= i < |identities| ==> identities[i] in target
  {
    seq(|identities|, i requires 0 <= i < |identities| => target[identities[i]])
  }

  class MetricFamily {
    const name: string
    var target: Aggregates

    constructor (name: string)
      ensures this.name == name && target == map[]
    {
      this.name := name;
      target := map[];
    }

    method AddAggregate(labels: Labels, duration: Duration) returns (recorded: bool)
      modifies this
      ensures target == Added(old(target), Recording(labels, duration))
      ensures recorded <==> ValidDuration(duration)
    {
      var identity := Sorted(labels);
      var existing := identity in target;
      var aggregate := if existing then target[identity] else Aggregate(labels, 0, 0.0);
      aggregate := aggregate.(count := aggregate.count + 1);
      if existing {
        target := target[identity := aggregate];
      }
      if duration.NotFinite? || duration.milliseconds < 0.0 {
        return false;
      }
      aggregate := aggregate.(durationSum := aggregate.durationSum + duration.milliseconds);
      target := target[identity := aggregate];
      return true;
    }

    /** The sample lines of the family, for aggregates in the order that they are listed in. */
    method RenderSamples(listed: seq<Labels>, count: Aggregate -> string, sum: Aggregate -> string) returns (lines: seq<string>)
      requires forall i :: 0 <= i < |listed| ==> listed[i] in target
      ensures SamplesOf(lines, name, Listed(target, listed), count, sum)
    {
      ghost var aggregates := Listed(target, listed);
      lines := [];
      for i := 0 to |listed|
        invariant SamplesOf(lines, name, aggregates[..i], count, sum)
      {
        hide Sample, SamplesOf;
        var aggregate := target[listed[i]];
        SamplesGrow(lines, name, aggregates[..i], aggregate, count, sum);
        lines := lines + [Sample(name + "_total", aggregate.labels, count(aggregate)),
                          Sample(name + "_duration_milliseconds_sum", aggregate.labels, sum(aggregate))];
        assert aggregates[..i + 1] == aggregates[..i] + [aggregate];
      }
      assert aggregates[..|listed|] == aggregates;
    }
  }

  /** Two lines for each aggregate, with its count and with its sum as they print. */
  ghost predicate SamplesOf(lines: seq<string>, name: string, aggregates: seq<Aggregate>, count: Aggregate -> string, sum: Aggregate -> string) {
    && |lines| == 2 * |aggregates|
    && forall k :: 0 <= k < |lines| ==> lines[k] == SampleAt(name, aggregates[k / 2], k % 2 == 0, count, sum)
  }

  function MetricAt(name: string, ofCount: bool): string {
    if ofCount then name + "_total" else name + "_duration_milliseconds_sum"
  }

  function SampleAt(name: string, a: Aggregate, ofCount: bool, count: Aggregate -> string, sum: Aggregate -> string): string {
    Sample(MetricAt(name, ofCount), a.labels, if ofCount then count(a) else sum(a))
  }

  lemma SamplesGrow(lines: seq<string>, name: string, aggregates: seq<Aggregate>, a: Aggregate,
                    count: Aggregate -> string, sum: Aggregate -> string)
    requires SamplesOf(lines, name, aggregates, count, sum)
    ensures SamplesOf(lines + [SampleAt(name, a, true, count, sum), SampleAt(name, a, false, count, sum)], name, aggregates + [a], count, sum)
  {
    hide SampleAt;
  }

  /** Every aggregate is printed twice: its count under the name with `_total`, and its sum under the one
      with `_duration_milliseconds_sum`, both with its own labels. */
  lemma RenderedSamplesAreRead(lines: seq<string>, name: string, aggregates: seq<Aggregate>, count: Aggregate -> string, sum: Aggregate -> string, i: nat)
    requires SamplesOf(lines, name, aggregates, count, sum) && IsName(name) && i < |aggregates| && WellNamed(aggregates[i].labels)
    ensures |lines| == 2 * |aggregates|
    ensures ReadSample(lines[2 * i]) == Some(ParsedSample(name + "_total", Sorted(aggregates[i].labels), count(aggregates[i])))
    ensures ReadSample(lines[2 * i + 1]) ==
            Some(ParsedSample(name + "_duration_milliseconds_sum", Sorted(aggregates[i].labels), sum(aggregates[i])))
  {
    SuffixesDiffer(name);
    var a := aggregates[i];
    SampleIsRead(name + "_total", a.labels, count(a));
    SampleIsRead(name + "_duration_milliseconds_sum", a.labels, sum(a));
    assert 2 * i / 2 == i && (2 * i + 1) / 2 == i;
    assert lines[2 * i] == SampleAt(name, a, true, count, sum);
    assert lines[2 * i + 1] == SampleAt(name, a, false, count, sum);
    hide Sample, ReadSample, Sorted, WellNamed;
  }

  lemma SuffixesDiffer(name: string)
    requires IsName(name)
    ensures IsName(name + "_total") && IsName(name + "_duration_milliseconds_sum")
    ensures name + "_total" != name + "_duration_milliseconds_sum"
  {
    assert |name + "_total"| != |name + "_duration_milliseconds_sum"|;
  }

  /** The sample lines of a family are pairwise different if its aggregates have different labels. */
  lemma SampleLinesAreDistinct(lines: seq<string>, name: string, aggregates: seq<Aggregate>, count: Aggregate -> string, sum: Aggregate -> string)
    requires SamplesOf(lines, name, aggregates, count, sum) && IsName(name)
    requires forall i :: 0 <= i < |aggregates| ==> WellNamed(aggregates[i].labels)
    requires forall i, j :: 0 <= i < j < |aggregates| ==> multiset(aggregates[i].labels) != multiset(aggregates[j].labels)
    ensures Distinct(lines)
  {
    SuffixesDiffer(name);
    hide Sample, WellNamed, IsName;
    forall k, m | 0 <= k < m < |lines|
      ensures lines[k] != lines[m]
    {
      var a, b := aggregates[k / 2], aggregates[m / 2];
      assert k / 2 < m / 2 || k % 2 != m % 2;
      if lines[k] == lines[m] {
        SampleLinesDiffer(MetricAt(name, k % 2 == 0), a.labels, if k % 2 == 0 then count(a) else sum(a),
                          MetricAt(name, m % 2 == 0), b.labels, if m % 2 == 0 then count(b) else sum(b));
      }
    }
  }

  function AfterRecordings(rs: seq<Recording>): Aggregates {
    if rs == [] then map[] else Added(AfterRecordings(rs[..|rs| - 1]), rs[|rs| - 1])
  }

  predicate IsOf(r: Recording, identity: Labels) {
    Sorted(r.labels) == identity
  }

  /** What a recording needs to be accepted. */
  predicate NotNegative(d: Duration) {
    match d case Finite(milliseconds) => 0.0 <= milliseconds case NotFinite => false
  }

  /** The valid recordings with these labels. */
  function Valid(rs: seq<Recording>, identity: Labels): nat {
    if rs == [] then 0
    else
      var last := rs[|rs| - 1];
      Valid(rs[..|rs| - 1], identity) + if IsOf(last, identity) && NotNegative(last.duration) then 1 else 0
  }

  /** The refused recordings with these labels that came after a valid one. */
  function LateRefused(rs: seq<Recording>, identity: Labels): nat {
    if rs == [] then 0
    else
      var last, front := rs[|rs| - 1], rs[..|rs| - 1];
      LateRefused(front, identity) + if IsOf(last, identity) && !NotNegative(last.duration) && Valid(front, identity) > 0 then 1 else 0
  }

  function TotalDuration(rs: seq<Recording>, identity: Labels): real {
    if rs == [] then 0.0
    else
      var last := rs[|rs| - 1];
      TotalDuration(rs[..|rs| - 1], identity)
      + if IsOf(last, identity) && NotNegative(last.duration) then last.duration.milliseconds else 0.0
  }

  /** Conservation: the duration sum is that of the valid recordings, and the count is theirs plus the
      refused ones after the first; so it is exact iff no refused recording came late. */
  lemma {:induction false} AggregateIsConserved(rs: seq<Recording>, identity: Labels)
    ensures identity in AfterRecordings(rs) <==> Valid(rs, identity) > 0
    ensures identity in AfterRecordings(rs) ==>
              var a := AfterRecordings(rs)[identity];
              && Sorted(a.labels) == identity && a.durationSum == TotalDuration(rs, identity)
              && a.count == Valid(rs, identity) + LateRefused(rs, identity)
              && (a.count == Valid(rs, identity) <==> LateRefused(rs, identity) == 0)
    ensures Valid(rs, identity) == 0 ==> TotalDuration(rs, identity) == 0.0 && LateRefused(rs, identity) == 0
    decreases |rs|
  {
    hide Sorted;
    if rs != [] {
      AggregateIsConserved(rs[..|rs| - 1], identity);
    }
  }

  /** So after every run of recordings the sample lines of a family are pairwise different, for any
      listing of its aggregates without repetition. */
  lemma {:induction false} RecordedSamplesAreDistinct(rs: seq<Recording>, identities: seq<Labels>, name: string, lines: seq<string>,
                                                    count: Aggregate -> string, sum: Aggregate -> string)
    requires IsName(name) && forall i :: 0 <= i < |rs| ==> WellNamed(rs[i].labels)
    requires Distinct(identities) && forall i :: 0 <= i < |identities| ==> identities[i] in AfterRecordings(rs)
    requires SamplesOf(lines, name, Listed(AfterRecordings(rs), identities), count, sum)
    ensures Distinct(lines)
  {
    var aggregates := Listed(AfterRecordings(rs), identities);
    hide WellNamed, Sorted, SamplesOf, IsName;
    forall i | 0 <= i < |aggregates|
      ensures WellNamed(aggregates[i].labels) && Sorted(aggregates[i].labels) == identities[i]
    {
      RecordedLabels(rs, identities[i]);
      AggregateIsConserved(rs, identities[i]);
    }
    forall i, j | 0 <= i < j < |aggregates|
      ensures multiset(aggregates[i].labels) != multiset(aggregates[j].labels)
    {
      SameKeyIff(aggregates[i].labels, aggregates[j].labels);
    }
    SampleLinesAreDistinct(lines, name, aggregates, count, sum);
  }

  lemma {:induction false} RecordedLabels(rs: seq<Recording>, identity: Labels)
    requires forall i :: 0 <= i < |rs| ==> WellNamed(rs[i].labels)
    requires identity in AfterRecordings(rs)
    ensures WellNamed(AfterRecordings(rs)[identity].labels)
    decreases |rs|
  {
    hide Sorted, WellNamed;
    if rs != [] && identity in AfterRecordings(rs[..|rs| - 1]) {
      RecordedLabels(rs[..|rs| - 1], identity);
    }
  }
}
