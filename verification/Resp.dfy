/** The Redis framing of tools/spikes/p1.9-real-infrastructure.ts. Text is its UTF-8 bytes. */
module Resp {
  import opened Common

  type byte = b: int | 0 <= b < 256
  type Bytes = seq<byte>

  const CR: byte := 13
  const LF: byte := 10
  const CRLF: Bytes := [CR, LF]
  const PLUS: byte := 43
  const MINUS: byte := 45
  const COLON: byte := 58
  const DOLLAR: byte := 36
  const STAR: byte := 42
  const ZERO: byte := 48

  // ---- Lines and numbers ----

  /** Where the first line end is. */
  function LineEnd(b: Bytes): (end: Option<nat>)
    ensures end.Some? ==> end.value + 2 <= |b|
  {
    if |b| < 2 then None
    else if b[0] == CR && b[1] == LF then Some(0)
    else match LineEnd(b[1..])
      case None => None
      case Some(end) => Some(end + 1)
  }

  predicate IsDigit(b: byte) { ZERO <= b < ZERO + 10 }

  predicate IsNumeral(b: Bytes) {
    b != [] && forall i :: 0 <= i < |b| ==> IsDigit(b[i])
  }

  function NumeralValue(b: Bytes): (n: int)
    requires forall i :: 0 <= i < |b| ==> IsDigit(b[i])
    ensures n >= 0
  {
    if b == [] then 0 else assert IsDigit(b[|b| - 1]); NumeralValue(b[..|b| - 1]) * 10 + (b[|b| - 1] - ZERO)
  }

  function Numeral(n: nat): (b: Bytes)
    ensures IsNumeral(b)
  {
    if n < 10 then [ZERO + n] else Numeral(n / 10) + [ZERO + n % 10]
  }

  function Decimal(n: int): Bytes {
    if n < 0 then [MINUS] + Numeral(-n) else Numeral(n)
  }

  predicate IsBlank(b: byte) { b == 32 || 9 <= b <= 13 }

  function TrimBytes(b: Bytes): Bytes {
    if b != [] && IsBlank(b[0]) then TrimBytes(b[1..])
    else if b != [] && IsBlank(b[|b| - 1]) then TrimBytes(b[..|b| - 1])
    else b
  }

  datatype JsNumber = Int(value: int) | NaN

  /** `Number(line)`, for decimal integers; blank text is zero. */
  function Number(line: Bytes): JsNumber {
    var text := TrimBytes(line);
    if text == [] then Int(0)
    else if text[0] == MINUS then if IsNumeral(text[1..]) then Int(-NumeralValue(text[1..])) else NaN
    else if text[0] == PLUS then if IsNumeral(text[1..]) then Int(NumeralValue(text[1..])) else NaN
    else if IsNumeral(text) then Int(NumeralValue(text)) else NaN
  }

  lemma {:induction false} NumeralIsRead(n: nat)
    ensures NumeralValue(Numeral(n)) == n
  {
    if n < 10 {
      assert Numeral(n)[..0] == [];
    } else {
      NumeralIsRead(n / 10);
      assert Numeral(n)[..|Numeral(n)| - 1] == Numeral(n / 10);
    }
  }

  lemma DecimalIsRead(n: int)
    ensures Number(Decimal(n)) == Int(n)
    ensures forall i :: 0 <= i < |Decimal(n)| ==> Decimal(n)[i] != CR
  {
    NumeralIsRead(if n < 0 then -n else n);
    var d := Decimal(n);
    assert TrimBytes(d) == d;
    if n < 0 {
      assert d[1..] == Numeral(-n);
    }
  }

  predicate AllBlank(b: Bytes) {
    forall i :: 0 <= i < |b| ==> IsBlank(b[i])
  }

  predicate NoOuterBlank(b: Bytes) {
    b != [] ==> !IsBlank(b[0]) && !IsBlank(b[|b| - 1])
  }

  /** Trimming takes off blanks at both ends, and all of them. */
  lemma {:induction false} TrimBytesIs(b: Bytes) returns (before: Bytes, after: Bytes)
    ensures b == before + TrimBytes(b) + after && AllBlank(before) && AllBlank(after) && NoOuterBlank(TrimBytes(b))
    decreases |b|
  {
    before, after := [], [];
    if b != [] && IsBlank(b[0]) {
      var inner;
      inner, after := TrimBytesIs(b[1..]);
      before := [b[0]] + inner;
    } else if b != [] && IsBlank(b[|b| - 1]) {
      var inner;
      before, inner := TrimBytesIs(b[..|b| - 1]);
      after := inner + [b[|b| - 1]];
    }
  }

  /** What blanks surround goes through trimming unchanged, whatever blanks they are. */
  lemma {:induction false} BlanksAreTrimmed(before: Bytes, text: Bytes, after: Bytes)
    requires AllBlank(before) && AllBlank(after) && NoOuterBlank(text)
    ensures TrimBytes(before + text + after) == text
    decreases |before| + |after|
  {
    var b := before + text + after;
    if before != [] {
      assert b[1..] == before[1..] + text + after;
      BlanksAreTrimmed(before[1..], text, after);
    } else if after != [] {
      if text == [] {
        assert b[1..] == before + text + after[1..];
        BlanksAreTrimmed(before, text, after[1..]);
      } else {
        assert b[..|b| - 1] == before + text + after[..|after| - 1];
        BlanksAreTrimmed(before, text, after[..|after| - 1]);
      }
    } else {
      assert b == text;
    }
  }

  /** A text that denotes `n`: nothing, or digits with at most one sign before them. */
  predicate Denotes(text: Bytes, n: int) {
    || (text == [] && n == 0)
    || (IsNumeral(text) && NumeralValue(text) == n)
    || (text != [] && text[0] in {43, 45} && IsNumeral(text[1..]) && NumeralValue(text[1..]) == if text[0] == 45 then -n else n)
  }

  /** A line is the number `n` exactly if, up to blanks around it, it denotes `n`. */
  lemma NumberIff(before: Bytes, text: Bytes, after: Bytes, n: int)
    requires AllBlank(before) && AllBlank(after) && NoOuterBlank(text)
    ensures Number(before + text + after) == Int(n) <==> Denotes(text, n)
  {
    BlanksAreTrimmed(before, text, after);
    hide TrimBytes, NumeralValue;
  }

  // ---- Replies ----

  /** `Buffer.subarray`: a negative end counts from the end of the buffer. */
  function Subarray(b: Bytes, start: nat, end: int): Bytes
    requires start <= |b|
  {
    var to := if end < 0 then |b| + end else end;
    if to <= start then [] else b[start..if to > |b| then |b| else to]
  }

  datatype Value = Text(bytes: Bytes) | Num(number: JsNumber) | Null

  datatype Parsed = Incomplete | Complete(value: Value) | ErrorReply(text: Bytes) | Unsupported

  function ParseBulk(b: Bytes, start: nat, length: JsNumber): Parsed
    requires start <= |b|
  {
    match length
    case NaN => Complete(Text([]))
    case Int(n) =>
      if n == -1 then Complete(Null)
      else if |b| < start + n + 2 then Incomplete
      else Complete(Text(Subarray(b, start, start + n)))
  }

  function ParseResponse(b: Bytes): Parsed {
    match LineEnd(b)
    case None => Incomplete
    case Some(end) =>
      var line := if end == 0 then [] else b[1..end];
      if b[0] == PLUS then Complete(Text(line))
      else if b[0] == MINUS then ErrorReply(line)
      else if b[0] == COLON then Complete(Num(Number(line)))
      else if b[0] == DOLLAR then ParseBulk(b, end + 2, Number(line))
      else Unsupported
  }

  // ---- The answer to a buffer does not change as bytes arrive ----

  lemma {:induction false} LineEndStays(b: Bytes, more: Bytes)
    requires LineEnd(b).Some?
    ensures LineEnd(b + more) == LineEnd(b)
    decreases |b|
  {
    if !(b[0] == CR && b[1] == LF) {
      assert (b + more)[1..] == b[1..] + more;
      LineEndStays(b[1..], more);
    }
  }

  /** A bulk length so far below zero that its end is counted from the end of the buffer. */
  predicate EndsBackwards(b: Bytes) {
    var end := LineEnd(b);
    && end.Some? && end.value > 0 && b[0] == DOLLAR
    && Number(b[1..end.value]).Int? && Number(b[1..end.value]).value != -1 && end.value + 2 + Number(b[1..end.value]).value < 0
  }

  lemma AnswerStays(b: Bytes, more: Bytes)
    requires ParseResponse(b) != Incomplete && !EndsBackwards(b)
    ensures ParseResponse(b + more) == ParseResponse(b)
  {
    LineEndStays(b, more);
    var end := LineEnd(b).value;
    if end > 0 {
      assert (b + more)[1..end] == b[1..end];
      if b[0] == DOLLAR {
        BulkStays(b, more, end + 2, Number(b[1..end]));
      }
    }
  }

  lemma BulkStays(b: Bytes, more: Bytes, start: nat, length: JsNumber)
    requires start <= |b| && ParseBulk(b, start, length) != Incomplete
    requires length.Int? && length.value != -1 ==> start + length.value >= 0
    ensures ParseBulk(b + more, start, length) == ParseBulk(b, start, length)
  {
    if length.Int? && length.value >= 0 {
      assert (b + more)[start..start + length.value] == b[start..start + length.value];
    }
  }

  lemma BackwardsStays(b: Bytes, more: Bytes)
    requires EndsBackwards(b)
    ensures EndsBackwards(b + more)
  {
    LineEndStays(b, more);
    var end := LineEnd(b).value;
    assert (b + more)[1..end] == b[1..end];
  }

  /** With such a length, more bytes make the value longer. */
  lemma {:induction false} BackwardsGrows(b: Bytes, more: Bytes)
    requires EndsBackwards(b)
    ensures EndsBackwards(b + more) && ParseResponse(b).Complete? && ParseResponse(b).value.Text?
    ensures ParseResponse(b + more).Complete? && ParseResponse(b + more).value.Text?
    ensures var end, n := LineEnd(b).value, Number(b[1..LineEnd(b).value]).value;
            && |ParseResponse(b).value.bytes| == (if |b| + n <= 0 then 0 else |b| + n)
            && |ParseResponse(b + more).value.bytes| == (if |b| + |more| + n <= 0 then 0 else |b| + |more| + n)
  {
    BackwardsStays(b, more);
    LineEndStays(b, more);
    BackwardsText(b);
    BackwardsText(b + more);
    var end := LineEnd(b).value;
    assert (b + more)[1..end] == b[1..end];
  }

  lemma {:induction false} BackwardsText(b: Bytes)
    requires EndsBackwards(b)
    ensures ParseResponse(b).Complete? && ParseResponse(b).value.Text?
    ensures var n := Number(b[1..LineEnd(b).value]).value;
            |ParseResponse(b).value.bytes| == (if |b| + n <= 0 then 0 else |b| + n)
  {
  }

  /** An answer is final exactly if it does not come from a bulk length that ends backwards. */
  lemma AnswerStaysIff(b: Bytes)
    requires ParseResponse(b) != Incomplete
    ensures !EndsBackwards(b) <==> forall more :: ParseResponse(b + more) == ParseResponse(b)
  {
    if EndsBackwards(b) {
      var n := Number(b[1..LineEnd(b).value]).value;
      var more: Bytes := seq(|b| - n + 10, _ => 0);
      BackwardsGrows(b, more);
      assert ParseResponse(b + more) != ParseResponse(b);
    } else {
      forall more
        ensures ParseResponse(b + more) == ParseResponse(b)
      {
        AnswerStays(b, more);
      }
    }
  }

  // ---- Chunks ----

  function Concat(chunks: seq<Bytes>): Bytes {
    if chunks == [] then [] else Concat(chunks[..|chunks| - 1]) + chunks[|chunks| - 1]
  }

  /** What a reader answers that stops at the first chunk with which the bytes so far parse. */
  function Read(chunks: seq<Bytes>): Parsed {
    if chunks == [] then Incomplete
    else
      var before := Read(chunks[..|chunks| - 1]);
      if before != Incomplete then before else ParseResponse(Concat(chunks))
  }

  /** The reader of one reply: it collects chunks until they parse, and then ignores the rest. */
  class ReplyReader {
    var buffer: Bytes
    var answer: Parsed

    constructor ()
      ensures buffer == [] && answer == Incomplete
    {
      buffer, answer := [], Incomplete;
    }

    method OnData(chunk: Bytes)
      modifies this
      ensures old(answer) != Incomplete ==> buffer == old(buffer) && answer == old(answer)
      ensures old(answer) == Incomplete ==> buffer == old(buffer) + chunk && answer == ParseResponse(old(buffer) + chunk)
    {
      if answer != Incomplete {
        return;
      }
      buffer := buffer + chunk;
      answer := ParseResponse(buffer);
    }
  }

  /** The answer of `command` to these chunks; it is what the whole stream parses to, unless a bulk
      length ends backwards. */
  method ReadReply(chunks: seq<Bytes>) returns (answer: Parsed)
    ensures answer == Read(chunks)
    ensures !EndsBackwards(Concat(chunks)) ==> answer == ParseResponse(Concat(chunks))
  {
    hide ParseResponse;
    var reader := new ReplyReader();
    var i := 0;
    while i < |chunks|
      invariant i <= |chunks|
      invariant reader.answer == Read(chunks[..i])
      invariant reader.answer == Incomplete ==> reader.buffer == Concat(chunks[..i])
    {
      assert chunks[..i + 1][..i] == chunks[..i];
      reader.OnData(chunks[i]);
      i := i + 1;
    }
    assert chunks[..i] == chunks;
    ReadIsParse(chunks);
    return reader.answer;
  }

  lemma {:induction false} ReadIsParse(chunks: seq<Bytes>)
    ensures !EndsBackwards(Concat(chunks)) ==> Read(chunks) == ParseResponse(Concat(chunks))
    decreases |chunks|
  {
    if chunks == [] {
      assert ParseResponse([]) == Incomplete;
    } else {
      var front, last := chunks[..|chunks| - 1], chunks[|chunks| - 1];
      ReadIsParse(front);
      if EndsBackwards(Concat(front)) {
        BackwardsStays(Concat(front), last);
      } else if ParseResponse(Concat(front)) != Incomplete {
        AnswerStays(Concat(front), last);
      }
      hide ParseResponse, EndsBackwards;
    }
  }

  /** If the whole stream reads as the empty value, so does it in any chunks. */
  lemma {:induction false} EmptyInAnyChunks(chunks: seq<Bytes>)
    requires EndsBackwards(Concat(chunks)) && ParseResponse(Concat(chunks)) == Complete(Text([]))
    ensures Read(chunks) == Complete(Text([]))
    decreases |chunks|
  {
    if chunks != [] {
      var front, last := chunks[..|chunks| - 1], chunks[|chunks| - 1];
      if EndsBackwards(Concat(front)) {
        BackwardsGrows(Concat(front), last);
        EmptyInAnyChunks(front);
      } else {
        ReadIsParse(front);
        if ParseResponse(Concat(front)) != Incomplete {
          AnswerStays(Concat(front), last);
          NotBackwardsStays(Concat(front), last);
        }
      }
      hide ParseResponse, EndsBackwards;
    }
  }

  lemma NotBackwardsStays(b: Bytes, more: Bytes)
    requires ParseResponse(b) != Incomplete && !EndsBackwards(b)
    ensures !EndsBackwards(b + more)
  {
    LineEndStays(b, more);
    var end := LineEnd(b).value;
    if end > 0 {
      assert (b + more)[1..end] == b[1..end];
    }
  }

  ghost predicate ChunksDisagree(stream: Bytes) {
    exists one, other :: Concat(one) == stream && Concat(other) == stream && Read(one) != Read(other)
  }

  /** A stream is read differently in different chunks exactly if its bulk length ends backwards and
      the whole stream gives a value that is not empty. */
  lemma ChunksDisagreeIff(stream: Bytes)
    ensures ChunksDisagree(stream) <==> EndsBackwards(stream) && ParseResponse(stream) != Complete(Text([]))
  {
    if EndsBackwards(stream) && ParseResponse(stream) != Complete(Text([])) {
      var start := LineEnd(stream).value + 2;
      var header, rest := stream[..start], stream[start..];
      assert stream == header + rest;
      HeaderAlone(stream);
      OneChunk(stream);
      OneChunk(header);
      hide ParseResponse, EndsBackwards;
      assert [header, rest][..1] == [header];
      assert Concat([header, rest]) == stream && Read([header, rest]) == ParseResponse(header);
    } else {
      hide ParseResponse;
      forall one, other | Concat(one) == stream && Concat(other) == stream
        ensures Read(one) == Read(other)
      {
        SameInAnyChunks(one);
        SameInAnyChunks(other);
      }
    }
  }

  lemma OneChunk(stream: Bytes)
    ensures Concat([stream]) == stream && Read([stream]) == ParseResponse(stream)
  {
    hide ParseResponse;
    assert |[stream][..0]| == 0;
  }

  lemma {:induction false} SameInAnyChunks(chunks: seq<Bytes>)
    requires !(EndsBackwards(Concat(chunks)) && ParseResponse(Concat(chunks)) != Complete(Text([])))
    ensures Read(chunks) == ParseResponse(Concat(chunks))
  {
    hide ParseResponse;
    ReadIsParse(chunks);
    if EndsBackwards(Concat(chunks)) {
      EmptyInAnyChunks(chunks);
    }
  }

  /** The first line of such a stream alone reads as the empty value. */
  lemma {:induction false} HeaderAlone(stream: Bytes)
    requires EndsBackwards(stream)
    ensures ParseResponse(stream[..LineEnd(stream).value + 2]) == Complete(Text([]))
  {
    var end := LineEnd(stream).value;
    var header := stream[..end + 2];
    LineEndOfHeader(stream);
    assert header[1..end] == stream[1..end];
  }

  lemma {:induction false} LineEndOfHeader(b: Bytes)
    requires LineEnd(b).Some?
    ensures LineEnd(b[..LineEnd(b).value + 2]) == LineEnd(b)
    decreases |b|
  {
    if !(b[0] == CR && b[1] == LF) {
      LineEndOfHeader(b[1..]);
      assert b[..LineEnd(b).value + 2][1..] == b[1..][..LineEnd(b[1..]).value + 2];
    }
  }

  // ---- Frames ----

  datatype Reply = Simple(text: Bytes) | Error(text: Bytes) | Integer(number: int) | Nil | Bulk(bytes: Bytes)

  /** The frame of a reply, as the protocol prints it. */
  function Frame(r: Reply): Bytes {
    match r
    case Simple(text) => [PLUS] + text + CRLF
    case Error(text) => [MINUS] + text + CRLF
    case Integer(n) => [COLON] + Decimal(n) + CRLF
    case Nil => [DOLLAR] + Decimal(-1) + CRLF
    case Bulk(bytes) => [DOLLAR] + Decimal(|bytes|) + CRLF + bytes + CRLF
  }

  function Meaning(r: Reply): Parsed {
    match r
    case Simple(text) => Complete(Text(text))
    case Error(text) => ErrorReply(text)
    case Integer(n) => Complete(Num(Int(n)))
    case Nil => Complete(Null)
    case Bulk(bytes) => Complete(Text(bytes))
  }

  /** One line: it holds no line end. */
  predicate OneLine(text: Bytes) {
    LineEnd(text) == None
  }

  predicate Printable(r: Reply) {
    r.Simple? || r.Error? ==> OneLine(r.text)
  }

  lemma {:induction false} LineEndOf(head: Bytes, rest: Bytes)
    requires OneLine(head)
    ensures LineEnd(head + CRLF + rest) == Some(|head|)
    decreases |head|
  {
    var whole := head + CRLF + rest;
    if head != [] {
      assert whole[1..] == head[1..] + CRLF + rest;
      OneLineTail(head);
      LineEndOf(head[1..], rest);
      assert |head| >= 2 ==> whole[1] == head[1];
    }
  }

  lemma OneLineTail(head: Bytes)
    requires OneLine(head) && head != []
    ensures OneLine(head[1..])
  {
  }

  lemma {:induction false} WithoutCrIsOneLine(text: Bytes)
    requires forall i :: 0 <= i < |text| ==> text[i] != CR
    ensures OneLine(text)
    decreases |text|
  {
    if |text| >= 2 {
      WithoutCrIsOneLine(text[1..]);
    }
  }

  /** A type byte before a line does not end it. */
  lemma PrefixedIsOneLine(first: byte, text: Bytes)
    requires OneLine(text) && first != CR
    ensures OneLine([first] + text)
  {
    assert ([first] + text)[1..] == text;
  }

  lemma HeaderIsRead(first: byte, text: Bytes, rest: Bytes)
    requires OneLine(text) && first != CR
    ensures var b := [first] + text + CRLF + rest;
            LineEnd(b) == Some(|text| + 1) && b[0] == first && b[1..|text| + 1] == text
  {
    PrefixedIsOneLine(first, text);
    LineEndOf([first] + text, rest);
    assert [first] + text + CRLF + rest == ([first] + text) + CRLF + rest;
  }

  /** The bytes of a frame after its first line. */
  function Body(r: Reply): Bytes {
    if r.Bulk? then r.bytes + CRLF else []
  }

  function Header(r: Reply): Bytes {
    match r
    case Simple(text) => text
    case Error(text) => text
    case Integer(n) => Decimal(n)
    case Nil => Decimal(-1)
    case Bulk(bytes) => Decimal(|bytes|)
  }

  function TypeByte(r: Reply): byte {
    match r
    case Simple(_) => PLUS
    case Error(_) => MINUS
    case Integer(_) => COLON
    case _ => DOLLAR
  }

  lemma FrameParts(r: Reply)
    requires Printable(r)
    ensures Frame(r) == [TypeByte(r)] + Header(r) + CRLF + Body(r) && OneLine(Header(r))
    ensures r.Integer? ==> Number(Header(r)) == Int(r.number)
    ensures r.Nil? ==> Number(Header(r)) == Int(-1)
    ensures r.Bulk? ==> Number(Header(r)) == Int(|r.bytes|)
  {
    if !r.Simple? && !r.Error? {
      var n := if r.Integer? then r.number else if r.Nil? then -1 else |r.bytes|;
      DecimalIsRead(n);
      WithoutCrIsOneLine(Decimal(n));
    }
    hide Decimal, OneLine, Number;
  }

  /** A whole frame gives back its value, whatever follows it. */
  lemma WholeFrameIsRead(r: Reply, rest: Bytes)
    requires Printable(r)
    ensures ParseResponse(Frame(r) + rest) == Meaning(r)
  {
    FrameParts(r);
    HeaderIsRead(TypeByte(r), Header(r), Body(r) + rest);
    var b := [TypeByte(r)] + Header(r) + CRLF + (Body(r) + rest);
    assert Frame(r) + rest == b;
    hide Frame, LineEnd, Number, Header;
    if r.Bulk? {
      BulkBodyIsRead(b, |Header(r)| + 3, r.bytes, rest);
    }
  }

  lemma BulkBodyIsRead(b: Bytes, start: nat, bytes: Bytes, rest: Bytes)
    requires start <= |b| && b[start..] == bytes + CRLF + rest
    ensures ParseBulk(b, start, Int(|bytes|)) == Complete(Text(bytes))
  {
    assert |b| == start + |bytes| + 2 + |rest|;
    assert b[start..start + |bytes|] == b[start..][..|bytes|] == bytes;
  }

  lemma {:induction false} NoLineEndYet(head: Bytes, n: nat)
    requires OneLine(head) && n <= |head| + 1
    ensures LineEnd((head + CRLF)[..n]) == None
    decreases |head|
  {
    var prefix := (head + CRLF)[..n];
    if n >= 2 {
      assert prefix[1..] == (head[1..] + CRLF)[..n - 1];
      OneLineTail(head);
      NoLineEndYet(head[1..], n - 1);
      assert prefix[0] == head[0];
      assert |head| >= 2 ==> prefix[1] == head[1];
    }
  }

  /** Each strict prefix of a frame is incomplete. */
  lemma StrictPrefixIsIncomplete(r: Reply, n: nat)
    requires Printable(r) && n < |Frame(r)|
    ensures ParseResponse(Frame(r)[..n]) == Incomplete
  {
    FrameParts(r);
    var head := [TypeByte(r)] + Header(r);
    PrefixedIsOneLine(TypeByte(r), Header(r));
    var prefix := Frame(r)[..n];
    if n <= |head| + 1 {
      assert prefix == (head + CRLF)[..n];
      NoLineEndYet(head, n);
    } else {
      var rest := Body(r)[..n - |head| - 2];
      assert prefix == head + CRLF + rest;
      HeaderIsRead(TypeByte(r), Header(r), rest);
    }
  }

  /** So in whatever chunks the frame of a reply arrives, and whatever follows it, `command` answers
      its value. */
  lemma {:induction false} ReplyIsReadFromChunks(r: Reply, rest: Bytes, chunks: seq<Bytes>)
    requires Printable(r) && Concat(chunks) == Frame(r) + rest
    ensures Read(chunks) == Meaning(r)
  {
    WholeFrameIsRead(r, rest);
    FrameEndsForwards(r, rest);
    hide Frame, EndsBackwards, ParseResponse, Meaning;
    ReadIsParse(chunks);
  }

  lemma FrameEndsForwards(r: Reply, rest: Bytes)
    requires Printable(r)
    ensures !EndsBackwards(Frame(r) + rest)
  {
    hide Frame, LineEnd, Number, Header, ParseResponse, OneLine, Printable, Body;
    FrameParts(r);
    HeaderIsRead(TypeByte(r), Header(r), Body(r) + rest);
    assert Frame(r) + rest == [TypeByte(r)] + Header(r) + CRLF + (Body(r) + rest);
  }

  /** For example: a length of -9 with nine bytes behind its line. */
  lemma BackwardLengthDependsOnChunks(tail: Bytes)
    requires |tail| == 9
    ensures var header := [DOLLAR] + Decimal(-9) + CRLF;
            && EndsBackwards(header) && ParseResponse(header) == Complete(Text([]))
            && ParseResponse(header + tail) == Complete(Text(tail[..5]))
  {
    DecimalIsRead(-9);
    assert Numeral(9) == [57];
    WithoutCrIsOneLine(Decimal(-9));
    HeaderIsRead(DOLLAR, Decimal(-9), []);
    HeaderIsRead(DOLLAR, Decimal(-9), tail);
    var header := [DOLLAR] + Decimal(-9) + CRLF;
    assert header + [] == header;
    assert (header + tail)[5..10] == tail[..5];
    hide Number, LineEnd;
  }

  // ---- Any line ----

  /** What a first line with this type byte, and `rest` behind it, is answered with. A bulk length that is
      neither -1 nor a count is answered at once, with nothing or with what its end leaves. */
  ghost predicate AnsweredAs(first: byte, line: Bytes, rest: Bytes, answer: Parsed) {
    if first == 43 then answer == Complete(Text(line))
    else if first == 45 then answer == ErrorReply(line)
    else if first == 58 then answer == Complete(Num(Number(line)))
    else if first == 36 then
      match Number(line)
      case NaN => answer == Complete(Text([]))
      case Int(n) =>
        if n == -1 then answer == Complete(Null)
        else if n >= 0 then answer == if |rest| < n + 2 then Incomplete else Complete(Text(rest[..n]))
        else answer.Complete? && answer.value.Text? && answer.value.bytes <= rest
             && |answer.value.bytes| == (if |line| + 3 + n >= 0 || |line| + 3 + |rest| + n <= 0 then 0 else |line| + 3 + |rest| + n)
    else answer == Unsupported
  }

  /** Without a line end there is no answer; with one, the first line decides how to go on. */
  lemma EveryLineIsAnswered(first: byte, line: Bytes, rest: Bytes)
    requires OneLine(line) && first != CR
    ensures AnsweredAs(first, line, rest, ParseResponse([first] + line + CRLF + rest))
    ensures ParseResponse([first] + line) == Incomplete
  {
    var b := [first] + line + CRLF + rest;
    HeaderIsRead(first, line, rest);
    PrefixedIsOneLine(first, line);
    assert b[|line| + 3..] == rest;
    hide Number, LineEnd;
    if first == DOLLAR && Number(line).Int? {
      var start, n := |line| + 3, Number(line).value;
      if n >= 0 && |rest| >= n + 2 {
        assert b[start..start + n] == rest[..n];
      }
      if n < -1 && start + n < 0 {
        var to := |b| + start + n;
        assert to > start ==> b[start..to] == rest[..to - start];
      }
    }
  }

  // ---- Commands ----

  function Arguments(arguments: seq<Bytes>): Bytes {
    if arguments == [] then [] else Frame(Bulk(arguments[0])) + Arguments(arguments[1..])
  }

  function EncodeCommand(arguments: seq<Bytes>): Bytes {
    [STAR] + Decimal(|arguments|) + CRLF + Arguments(arguments)
  }

  /** A reader of `count` argument frames, one `ParseResponse` each. */
  function DecodeArguments(b: Bytes, count: nat): Option<seq<Bytes>> {
    if count == 0 then if b == [] then Some([]) else None
    else match ParseResponse(b)
      case Complete(Text(bytes)) =>
        if |Frame(Bulk(bytes))| > |b| then None
        else
          var rest := DecodeArguments(b[|Frame(Bulk(bytes))|..], count - 1);
          if rest == None then None else Some([bytes] + rest.value)
      case _ => None
  }

  function DecodeCommand(b: Bytes): Option<seq<Bytes>> {
    match LineEnd(b)
    case None => None
    case Some(end) =>
      if end == 0 || b[0] != STAR || !Number(b[1..end]).Int? || Number(b[1..end]).value < 0 then None
      else DecodeArguments(b[end + 2..], Number(b[1..end]).value)
  }

  lemma {:induction false} ArgumentsRoundTrip(arguments: seq<Bytes>)
    ensures DecodeArguments(Arguments(arguments), |arguments|) == Some(arguments)
    decreases |arguments|
  {
    hide ParseResponse, Frame;
    if arguments != [] {
      var frame, rest := Frame(Bulk(arguments[0])), Arguments(arguments[1..]);
      WholeFrameIsRead(Bulk(arguments[0]), rest);
      ArgumentsRoundTrip(arguments[1..]);
      assert (frame + rest)[|frame|..] == rest;
      assert arguments == [arguments[0]] + arguments[1..];
    }
  }

  /** Every command is read back as its arguments, even if they contain line ends or look like frames. */
  lemma CommandRoundTrip(arguments: seq<Bytes>)
    ensures DecodeCommand(EncodeCommand(arguments)) == Some(arguments)
  {
    var count := |arguments|;
    DecimalIsRead(count);
    WithoutCrIsOneLine(Decimal(count));
    HeaderIsRead(STAR, Decimal(count), Arguments(arguments));
    ArgumentsRoundTrip(arguments);
    var b := EncodeCommand(arguments);
    assert b[|Decimal(count)| + 3..] == Arguments(arguments);
    hide LineEnd, Number, Decimal, Arguments, DecodeArguments;
  }
}
