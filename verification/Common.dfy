/** Small shared vocabulary: optional values, results that may carry an error, and the text
    helpers (`trim`, `join`, and when joining loses nothing) that several of the modelled files use. */
module Common {
  datatype Option<+T> = None | Some(value: T)

  datatype Result<+T, +E> = Ok(value: T) | Err(error: E)

  /** JavaScript white space, restricted to the Basic Latin and Latin-1 characters plus the
      byte order mark. NUL is not white space. */
  predicate IsSpace(c: char) {
    c == ' ' || c == '\t' || c == '\n' || c == '\r' || c == '\U{0B}' || c == '\U{0C}' || c == '\U{A0}' || c == '\U{FEFF}'
  }

  /** The separator of joined identities. */
  const NUL: string := ['\0']

  function TrimStart(s: string): string {
    if s != [] && IsSpace(s[0]) then TrimStart(s[1..]) else s
  }

  function TrimEnd(s: string): string {
    if s != [] && IsSpace(s[|s| - 1]) then TrimEnd(s[..|s| - 1]) else s
  }

  function Trim(s: string): string {
    TrimEnd(TrimStart(s))
  }

  function Join(parts: seq<string>, separator: string): string {
    if parts == [] then ""
    else if |parts| == 1 then parts[0]
    else parts[0] + separator + Join(parts[1..], separator)
  }

  ghost predicate Distinct<T(!new)>(s: seq<T>) {
    forall i, j :: 0 <= i < j < |s| ==> s[i] != s[j]
  }

  // ---- Trimmed texts ----

  predicate AllSpace(s: string) {
    forall i :: 0 <= i < |s| ==> IsSpace(s[i])
  }

  predicate NoOuterSpace(s: string) {
    s != "" ==> !IsSpace(s[0]) && !IsSpace(s[|s| - 1])
  }

  lemma {:induction false} TrimStartOff(before: string, rest: string)
    requires AllSpace(before) && (rest != "" ==> !IsSpace(rest[0]))
    ensures TrimStart(before + rest) == rest
  {
    if before == "" {
      assert before + rest == rest;
    } else {
      assert (before + rest)[1..] == before[1..] + rest;
      TrimStartOff(before[1..], rest);
    }
  }

  lemma {:induction false} TrimEndOff(rest: string, after: string)
    requires AllSpace(after) && (rest != "" ==> !IsSpace(rest[|rest| - 1]))
    ensures TrimEnd(rest + after) == rest
    decreases |after|
  {
    if after == "" {
      assert rest + after == rest;
    } else {
      var s := rest + after;
      assert s[..|s| - 1] == rest + after[..|after| - 1];
      TrimEndOff(rest, after[..|after| - 1]);
    }
  }

  /** Trimming takes white space off both ends, all of it, and nothing else. */
  lemma {:induction false} TrimIs(before: string, text: string, after: string)
    requires AllSpace(before) && AllSpace(after) && NoOuterSpace(text)
    ensures Trim(before + text + after) == text
  {
    if text == "" {
      TrimStartOff(before + text + after, "");
      assert before + text + after + "" == before + text + after;
    } else {
      assert before + text + after == before + (text + after);
      TrimStartOff(before, text + after);
      TrimEndOff(text, after);
    }
  }

  // ---- Joined texts ----

  /** Text before the first `stop`. */
  function UpTo(s: string, stop: char): string {
    if s == "" || s[0] == stop then "" else [s[0]] + UpTo(s[1..], stop)
  }

  lemma {:induction false} UpToOfJoined(part: string, rest: string, stop: char)
    requires stop !in part && (rest == "" || rest[0] == stop)
    ensures UpTo(part + rest, stop) == part
  {
    if part == "" {
      assert part + rest == rest;
    } else {
      assert (part + rest)[1..] == part[1..] + rest;
      UpToOfJoined(part[1..], rest, stop);
    }
  }

  /** No part contains the first character of the separator. */
  ghost predicate FreeOf(parts: seq<string>, stop: char) {
    forall i :: 0 <= i < |parts| ==> stop !in parts[i]
  }

  /** What follows the first part in a joined text. */
  function RestOf(parts: seq<string>, separator: string): string
    requires parts != []
  {
    if |parts| == 1 then "" else separator + Join(parts[1..], separator)
  }

  lemma {:induction false} SplitFirst(parts: seq<string>, separator: string)
    requires parts != [] && separator != "" && FreeOf(parts, separator[0])
    ensures UpTo(Join(parts, separator), separator[0]) == parts[0]
    ensures Join(parts, separator)[|parts[0]|..] == RestOf(parts, separator)
    ensures |parts| > 1 ==> RestOf(parts, separator)[|separator|..] == Join(parts[1..], separator)
  {
    assert Join(parts, separator) == parts[0] + RestOf(parts, separator);
    UpToOfJoined(parts[0], RestOf(parts, separator), separator[0]);
  }

  lemma {:induction false} JoinIsInjective(parts: seq<string>, other: seq<string>, separator: string)
    requires separator != "" && FreeOf(parts, separator[0]) && FreeOf(other, separator[0])
    requires parts != [] && other != [] && Join(parts, separator) == Join(other, separator)
    ensures parts == other
    decreases |parts|
  {
    hide Join, UpTo;
    SplitFirst(parts, separator);
    SplitFirst(other, separator);
    assert RestOf(parts, separator) == RestOf(other, separator);
    if |parts| > 1 {
      JoinIsInjective(parts[1..], other[1..], separator);
      assert parts == [parts[0]] + parts[1..];
      assert other == [other[0]] + other[1..];
    }
  }
}
