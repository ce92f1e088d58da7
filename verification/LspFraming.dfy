/** The base protocol's framing: a header part ending in an empty line, then as many
    bytes of content as the Content-Length header says. */
module LspFraming {
  import opened Basics

  newtype byte = x: int | 0 <= x < 256

  type Bytes = seq<byte>

  const LF: byte := 10
  const CR: byte := 13
  const SPACE: byte := 32

  /** "Content-Length: " */
  const LENGTH_PREFIX: Bytes := [67, 111, 110, 116, 101, 110, 116, 45, 76, 101, 110, 103, 116, 104, 58, 32]

  predicate IsSpace(b: byte) {
    9 <= b <= 13 || b == SPACE
  }

  predicate IsDigit(b: byte) {
    48 <= b <= 57
  }

  function TrimLeft(s: Bytes): Bytes {
    if s != [] && IsSpace(s[0]) then TrimLeft(s[1..]) else s
  }

  function TrimRight(s: Bytes): Bytes {
    if s != [] && IsSpace(s[|s| - 1]) then TrimRight(s[..|s| - 1]) else s
  }

  function Trim(s: Bytes): Bytes {
    TrimRight(TrimLeft(s))
  }

  predicate HasPrefix(s: Bytes, prefix: Bytes) {
    |prefix| <= |s| && s[..|prefix|] == prefix
  }

  // ------------------------------------------------------------------ numbers

  function Decimal(n: nat): (r: Bytes)
    ensures r != [] && forall i :: 0 <= i < |r| ==> IsDigit(r[i])
  {
    (if n < 10 then [] else Decimal(n / 10)) + [(48 + n % 10) as byte]
  }

  /** The leading digits. */
  function DigitRun(s: Bytes): (k: nat)
    ensures k <= |s| && (forall i :: 0 <= i < k ==> IsDigit(s[i])) && (k < |s| ==> !IsDigit(s[k]))
  {
    if s != [] && IsDigit(s[0]) then 1 + DigitRun(s[1..]) else 0
  }

  function DigitValue(b: byte): nat
    requires IsDigit(b)
  {
    b as int - 48
  }

  function Value(digits: Bytes): nat
    requires forall i :: 0 <= i < |digits| ==> IsDigit(digits[i])
  {
    if digits == [] then 0 else 10 * Value(digits[..|digits| - 1]) + DigitValue(digits[|digits| - 1])
  }

  lemma {:induction false} DecimalValue(n: nat)
    ensures Value(Decimal(n)) == n
  {
    var d := Decimal(n);
    if n < 10 {
      assert d == [(48 + n) as byte];
      assert d[..0] == [];
    } else {
      DecimalValue(n / 10);
      assert d[..|d| - 1] == Decimal(n / 10);
    }
  }

  const MAX: int := 0x7fff_ffff_ffff_ffff

  /** The size of the largest buffer that can be made. */
  type Limit = n: int | 0 <= n <= MAX

  /** Scanning a number: spaces, a sign, at least one digit, in the 64-bit range;
      anything may follow. */
  function ScanInt(s: Bytes): Option<int> {
    var t := TrimLeft(s);
    var negative := t != [] && t[0] == 45;
    var u := if t != [] && (t[0] == 45 || t[0] == 43) then t[1..] else t;
    var k := DigitRun(u);
    if k == 0 then None
    else
      var n: int := Value(u[..k]);
      var v := if negative then 0 - n else n;
      if -MAX - 1 <= v <= MAX then Some(v) else None
  }

  // ------------------------------------------------------------------ reading

  datatype Line = Line(text: Bytes, rest: Bytes)

  /** Up to and with the next line feed; none if the input ends first. */
  function NextLine(s: Bytes): (r: Option<Line>)
    ensures r.Some? ==> r.value.text + r.value.rest == s && r.value.text != [] && |r.value.rest| < |s|
  {
    if s == [] then None
    else if s[0] == LF then Some(Line([LF], s[1..]))
    else
      match NextLine(s[1..])
      case None => None
      case Some(l) => Some(Line([s[0]] + l.text, l.rest))
  }

  datatype Headers = Headers(length: int, rest: Bytes) | BadHeaders

  /** The header part, from a length found so far; the last Content-Length counts. */
  function ReadHeaders(s: Bytes, length: int): (r: Headers)
    ensures r.Headers? ==> |r.rest| < |s|
    decreases |s|
  {
    match NextLine(s)
    case None => BadHeaders
    case Some(l) =>
      var line := Trim(l.text);
      if line == [] then Headers(length, l.rest)
      else if HasPrefix(line, LENGTH_PREFIX) then
        match ScanInt(line[|LENGTH_PREFIX| - 1..])
        case None => BadHeaders
        case Some(n) => ReadHeaders(l.rest, n)
      else ReadHeaders(l.rest, length)
  }

  /** The content of a frame, an error, or the panic of a buffer that cannot be made. */
  datatype Framed = Content(content: Bytes, rest: Bytes) | Failed | Panicked

  function ReadFrame(s: Bytes, limit: Limit): (r: Framed)
    ensures r.Content? ==> |r.rest| < |s|
  {
    match ReadHeaders(s, 0)
    case BadHeaders => Failed
    case Headers(length, rest) =>
      if length < 0 || length > limit then Panicked
      else if length > |rest| then Failed
      else Content(rest[..length], rest[length..])
  }

  /** What a caller gets: the error of a content that does not decode leaves the input
      behind that content. */
  datatype Reading = Message(content: Bytes, rest: Bytes) | Undecodable(rest: Bytes) | NoFrame | Crashed

  function Read(s: Bytes, limit: Limit, decodes: Bytes -> bool): Reading {
    match ReadFrame(s, limit)
    case Failed => NoFrame
    case Panicked => Crashed
    case Content(content, rest) => if decodes(content) then Message(content, rest) else Undecodable(rest)
  }

  /** The contents a client dispatches: it reads until the first reading that is not a
      message. */
  function Dispatched(s: Bytes, limit: Limit, decodes: Bytes -> bool): seq<Bytes>
    decreases |s|
  {
    match Read(s, limit, decodes)
    case Message(content, rest) => [content] + Dispatched(rest, limit, decodes)
    case _ => []
  }

  // ------------------------------------------------------------------ writing

  function Header(n: nat): Bytes {
    LENGTH_PREFIX + Decimal(n) + [CR, LF]
  }

  function Frame(data: Bytes): Bytes {
    Header(|data|) + [CR, LF] + data
  }

  /** A header line that readers skip: ASCII, not blank, not another length. */
  predicate Ignorable(line: Bytes) {
    && (forall i :: 0 <= i < |line| ==> line[i] < 128 && line[i] != LF)
    && Trim(line) != [] && !HasPrefix(Trim(line), LENGTH_PREFIX)
  }

  function Lines(lines: seq<Bytes>): Bytes {
    if lines == [] then [] else lines[0] + [CR, LF] + Lines(lines[1..])
  }

  /** A message framed with further headers on either side of its length. */
  function FrameWith(before: seq<Bytes>, data: Bytes, after: seq<Bytes>): Bytes {
    Lines(before) + Header(|data|) + Lines(after) + [CR, LF] + data
  }

  // --------------------------------------------------------------------- laws

  lemma {:induction false} LineThen(text: Bytes, rest: Bytes)
    requires LF !in text
    ensures NextLine(text + [LF] + rest) == Some(Line(text + [LF], rest))
  {
    var s := text + [LF] + rest;
    if text == [] {
      assert s[1..] == rest;
    } else {
      assert s[1..] == text[1..] + [LF] + rest;
      LineThen(text[1..], rest);
      assert [text[0]] + (text[1..] + [LF]) == text + [LF];
    }
  }

  /** White space at the end of a line does not matter. */
  lemma {:induction false} TrimTail(line: Bytes, tail: Bytes)
    requires forall i :: 0 <= i < |tail| ==> IsSpace(tail[i])
    ensures Trim(line + tail) == Trim(line)
  {
    TrimLeftAppends(line, tail);
    TrimRightAppends(TrimLeft(line), tail);
  }

  lemma {:induction false} TrimRightAppends(line: Bytes, tail: Bytes)
    requires forall i :: 0 <= i < |tail| ==> IsSpace(tail[i])
    ensures TrimRight(line + tail) == TrimRight(line)
    decreases |tail|
  {
    if tail == [] {
      assert line + tail == line;
    } else {
      var u := line + tail;
      assert u[..|u| - 1] == line + tail[..|tail| - 1];
      TrimRightAppends(line, tail[..|tail| - 1]);
    }
  }

  /** Trimming on the left stops at the line's own text, if there is any. */
  lemma {:induction false} TrimLeftAppends(line: Bytes, tail: Bytes)
    requires forall i :: 0 <= i < |tail| ==> IsSpace(tail[i])
    ensures TrimLeft(line + tail) == if TrimLeft(line) == [] then [] else TrimLeft(line) + tail
  {
    if line == [] {
      assert line + tail == tail;
      AllSpaceTrims(tail);
    } else if IsSpace(line[0]) {
      assert (line + tail)[1..] == line[1..] + tail;
      TrimLeftAppends(line[1..], tail);
    }
  }

  lemma {:induction false} AllSpaceTrims(s: Bytes)
    requires forall i :: 0 <= i < |s| ==> IsSpace(s[i])
    ensures TrimLeft(s) == []
  {
    if s != [] {
      AllSpaceTrims(s[1..]);
    }
  }

  lemma {:induction false} DigitsRun(digits: Bytes)
    requires forall i :: 0 <= i < |digits| ==> IsDigit(digits[i])
    ensures DigitRun(digits) == |digits|
  {
    if digits != [] {
      DigitsRun(digits[1..]);
    }
  }

  /** The scanner reads back what the header's number printed. */
  lemma ScansBack(n: nat)
    requires n <= MAX
    ensures ScanInt([SPACE] + Decimal(n)) == Some(n as int)
  {
    var d := Decimal(n);
    var s := [SPACE] + d;
    assert s[1..] == d;
    assert TrimLeft(s) == d by {
      assert IsDigit(d[0]);
    }
    DigitsRun(d);
    assert IsDigit(d[0]);
    assert d[..|d|] == d;
    DecimalValue(n);
  }

  /** The bytes of an ASCII text. */
  function Ascii(text: string): (r: Bytes)
    requires forall i :: 0 <= i < |text| ==> text[i] as int < 128
    ensures |r| == |text| && forall i :: 0 <= i < |text| ==> r[i] as int == text[i] as int
  {
    seq(|text|, i requires 0 <= i < |text| => text[i] as int as byte)
  }

  lemma {:induction false} NoLeadingZero(n: nat)
    ensures Decimal(n)[0] == 48 ==> n == 0
  {
    if n >= 10 {
      NoLeadingZero(n / 10);
    }
  }

  lemma PrefixText()
    ensures Ascii("Content-Length: ") == LENGTH_PREFIX
  {
  }

  lemma BlankText()
    ensures Ascii("\r\n\r\n") == [13, 10, 13, 10]
  {
  }

  lemma FrameJoins(prefix: Bytes, number: Bytes, data: Bytes)
    ensures prefix + number + [CR, LF] + [CR, LF] + data == prefix + number + [13, 10, 13, 10] + data
  {
    assert [CR, LF] + [CR, LF] == [13, 10, 13, 10];
    assert prefix + number + [CR, LF] + [CR, LF] == prefix + number + ([CR, LF] + [CR, LF]);
  }

  /** The frame to the letter: the header's name, the length in decimal without leading
      zeros, an empty line, the data. */
  lemma FrameText(data: Bytes)
    ensures Frame(data) == Ascii("Content-Length: ") + Decimal(|data|) + Ascii("\r\n\r\n") + data
    ensures Value(Decimal(|data|)) == |data| && (Decimal(|data|)[0] == 48 ==> |data| == 0)
  {
    DecimalValue(|data|);
    NoLeadingZero(|data|);
    hide Decimal, Value, Ascii;
    PrefixText();
    BlankText();
    FrameJoins(LENGTH_PREFIX, Decimal(|data|), data);
  }

  predicate AllSpaces(s: Bytes) {
    forall i :: 0 <= i < |s| ==> 9 <= s[i] <= 13 || s[i] == 32
  }

  predicate AllDigits(s: Bytes) {
    forall i :: 0 <= i < |s| ==> 48 <= s[i] <= 57
  }

  lemma {:induction false} SpacesGo(spaces: Bytes, rest: Bytes)
    requires AllSpaces(spaces) && (rest == [] || !IsSpace(rest[0]))
    ensures TrimLeft(spaces + rest) == rest
  {
    if spaces == [] {
      assert spaces + rest == rest;
    } else {
      assert (spaces + rest)[1..] == spaces[1..] + rest;
      SpacesGo(spaces[1..], rest);
    }
  }

  lemma {:induction false} RunOf(digits: Bytes, rest: Bytes)
    requires AllDigits(digits) && (rest == [] || !IsDigit(rest[0]))
    ensures DigitRun(digits + rest) == |digits|
  {
    if digits == [] {
      assert digits + rest == rest;
    } else {
      assert (digits + rest)[1..] == digits[1..] + rest;
      RunOf(digits[1..], rest);
    }
  }

  /** What the scanner reads: after white space an optional '+' or '-' and as many digits
      as there are; their number if it is one of 64 bits, whatever follows. */
  lemma ScanReads(spaces: Bytes, sign: Bytes, digits: Bytes, rest: Bytes)
    requires AllSpaces(spaces) && (sign == [] || sign == [43] || sign == [45])
    requires digits != [] && AllDigits(digits) && (rest == [] || !IsDigit(rest[0]))
    ensures
      var n: int := if sign == [45] then 0 - Value(digits) else Value(digits);
      ScanInt(spaces + (sign + (digits + rest))) ==
        if -0x8000_0000_0000_0000 <= n < 0x8000_0000_0000_0000 then Some(n) else None
  {
    hide Value, TrimLeft, DigitRun;
    var t := sign + (digits + rest);
    SpacesGo(spaces, t);
    RunOf(digits, rest);
    var u := if t[0] == 45 || t[0] == 43 then t[1..] else t;
    assert u == digits + rest;
    assert u[..|digits|] == digits;
  }

  /** Without a digit there it reads nothing. */
  lemma ScanRefuses(spaces: Bytes, sign: Bytes, rest: Bytes)
    requires AllSpaces(spaces) && (sign == [] || sign == [43] || sign == [45])
    requires rest == [] || !IsDigit(rest[0])
    requires sign == [] && rest != [] ==> !IsSpace(rest[0]) && rest[0] != 43 && rest[0] != 45
    ensures ScanInt(spaces + (sign + rest)) == None
  {
    hide Value, TrimLeft, DigitRun;
    var t := sign + rest;
    SpacesGo(spaces, t);
    assert [] + rest == rest;
    RunOf([], rest);
    assert sign != [] ==> t[1..] == rest;
    assert sign == [] ==> t == rest;
  }

  /** A length line is itself when trimmed. */
  lemma PrefixedLine(number: Bytes)
    requires number != [] && !IsSpace(number[|number| - 1]) && LF !in number
    ensures
      var text := LENGTH_PREFIX + number;
      && LF !in text && Trim(text) == text && HasPrefix(text, LENGTH_PREFIX)
      && text[|LENGTH_PREFIX| - 1..] == [SPACE] + number
  {
    var text := LENGTH_PREFIX + number;
    assert text[0] == 67;
    assert TrimLeft(text) == text;
    assert text[|text| - 1] == number[|number| - 1];
    assert TrimRight(text) == text;
    assert LF !in LENGTH_PREFIX;
    assert text[|LENGTH_PREFIX| - 1..] == [SPACE] + number;
  }

  lemma DigitsAreText(digits: Bytes)
    requires forall i :: 0 <= i < |digits| ==> IsDigit(digits[i])
    ensures LF !in digits
  {
  }

  /** The trimmed length header is the prefix and the number. */
  lemma HeaderLine(n: nat)
    ensures
      var text := LENGTH_PREFIX + Decimal(n);
      && LF !in text && Header(n) == text + [CR, LF] && Trim(text) == text
      && HasPrefix(text, LENGTH_PREFIX) && text[|LENGTH_PREFIX| - 1..] == [SPACE] + Decimal(n)
  {
    var d := Decimal(n);
    hide Decimal, Trim, HasPrefix;
    assert IsDigit(d[|d| - 1]);
    DigitsAreText(d);
    PrefixedLine(d);
  }

  // ------------------------------------------------------------- header lines

  /** A line that the reader takes for a length. */
  predicate IsLength(line: Bytes) {
    HasPrefix(Trim(line), LENGTH_PREFIX)
  }

  function LengthOf(line: Bytes): Option<int>
    requires IsLength(line)
  {
    ScanInt(Trim(line)[|LENGTH_PREFIX| - 1..])
  }

  /** The length after a line that is not blank, or none if it is a broken length. */
  function After(line: Bytes, length: int): Option<int> {
    if IsLength(line) then LengthOf(line) else Some(length)
  }

  /** One header line, up to its line feed, and what follows it. */
  lemma RawStep(line: Bytes, rest: Bytes, length: int)
    requires LF !in line
    ensures ReadHeaders(line + [LF] + rest, length) ==
      if Trim(line) == [] then Headers(length, rest)
      else if After(line, length).None? then BadHeaders
      else ReadHeaders(rest, After(line, length).value)
  {
    LineThen(line, rest);
    TrimTail(line, [LF]);
    hide Trim, ScanInt, NextLine;
  }

  /** The same with a carriage return before the line feed. */
  lemma LineStep(line: Bytes, rest: Bytes, length: int)
    requires LF !in line && Trim(line) != []
    ensures ReadHeaders(line + [CR, LF] + rest, length) ==
      if After(line, length).None? then BadHeaders else ReadHeaders(rest, After(line, length).value)
  {
    assert line + [CR, LF] + rest == line + [CR] + [LF] + rest;
    TrimTail(line, [CR]);
    hide Trim, ScanInt, ReadHeaders, HasPrefix;
    RawStep(line + [CR], rest, length);
  }

  lemma HeaderStep(n: nat, rest: Bytes, length: int)
    requires n <= MAX
    ensures ReadHeaders(Header(n) + rest, length) == ReadHeaders(rest, n)
  {
    HeaderLine(n);
    ScansBack(n);
    hide Header, ScanInt, Trim, Decimal, ReadHeaders, HasPrefix;
    assert IsLength(LENGTH_PREFIX + Decimal(n));
    LineStep(LENGTH_PREFIX + Decimal(n), rest, length);
  }

  lemma {:induction false} IgnoredSteps(lines: seq<Bytes>, rest: Bytes, length: int)
    requires forall i :: 0 <= i < |lines| ==> Ignorable(lines[i])
    ensures ReadHeaders(Lines(lines) + rest, length) == ReadHeaders(rest, length)
  {
    if lines == [] {
      assert Lines(lines) + rest == rest;
    } else {
      hide Trim, ReadHeaders, HasPrefix;
      assert Ignorable(lines[0]);
      assert Lines(lines) + rest == lines[0] + [CR, LF] + (Lines(lines[1..]) + rest);
      LineStep(lines[0], Lines(lines[1..]) + rest, length);
      IgnoredSteps(lines[1..], rest, length);
    }
  }

  lemma BlankEnds(rest: Bytes, length: int)
    ensures ReadHeaders([CR, LF] + rest, length) == Headers(length, rest)
  {
    assert [CR, LF] + rest == [CR] + [LF] + rest;
    LineThen([CR], rest);
    assert [CR] + [LF] == [CR, LF];
    assert Trim([CR, LF]) == [] by {
      AllSpaceTrims([CR, LF]);
    }
  }

  lemma FrameHeaders(before: seq<Bytes>, data: Bytes, after: seq<Bytes>, rest: Bytes)
    requires |data| <= MAX
    requires forall i :: 0 <= i < |before| ==> Ignorable(before[i])
    requires forall i :: 0 <= i < |after| ==> Ignorable(after[i])
    ensures ReadHeaders(FrameWith(before, data, after) + rest, 0) == Headers(|data|, data + rest)
  {
    hide Header, Lines, ReadHeaders, Ignorable;
    var tail := data + rest;
    var s := FrameWith(before, data, after) + rest;
    assert s == Lines(before) + (Header(|data|) + (Lines(after) + ([CR, LF] + tail)));
    IgnoredSteps(before, Header(|data|) + (Lines(after) + ([CR, LF] + tail)), 0);
    HeaderStep(|data|, Lines(after) + ([CR, LF] + tail), 0);
    IgnoredSteps(after, [CR, LF] + tail, |data|);
    BlankEnds(tail, |data|);
  }

  /** A message with any ignorable headers around its length, whatever its bytes, is
      read back if a buffer can be made for it, and the input goes on behind it. */
  lemma FrameReadsBack(before: seq<Bytes>, data: Bytes, after: seq<Bytes>, rest: Bytes, limit: Limit)
    requires |data| <= MAX
    requires forall i :: 0 <= i < |before| ==> Ignorable(before[i])
    requires forall i :: 0 <= i < |after| ==> Ignorable(after[i])
    ensures ReadFrame(FrameWith(before, data, after) + rest, limit) ==
      if |data| <= limit then Content(data, rest) else Panicked
  {
    FrameHeaders(before, data, after, rest);
    hide FrameWith, ReadHeaders, Ignorable;
    var tail := data + rest;
    assert tail[..|data|] == data && tail[|data|..] == rest;
  }

  lemma FrameIsPlain(data: Bytes)
    ensures Frame(data) == FrameWith([], data, [])
  {
    hide Header;
    assert Lines([]) == [];
  }

  /** A buffer can be made for each message. */
  predicate Sendable(messages: seq<Bytes>, limit: Limit) {
    forall i :: 0 <= i < |messages| ==> |messages[i]| <= limit
  }

  /** Messages written one after the other. */
  function Stream(messages: seq<Bytes>): Bytes {
    if messages == [] then [] else Frame(messages[0]) + Stream(messages[1..])
  }

  /** Reading a number of times. */
  datatype Session = Session(contents: seq<Bytes>, rest: Bytes) | Stopped

  function ReadMany(s: Bytes, k: nat, limit: Limit): Session
    decreases k
  {
    if k == 0 then Session([], s)
    else
      match ReadFrame(s, limit)
      case Content(content, rest) =>
        (match ReadMany(rest, k - 1, limit)
         case Session(contents, end) => Session([content] + contents, end)
         case Stopped => Stopped)
      case _ => Stopped
  }

  lemma FrameThen(data: Bytes, rest: Bytes, limit: Limit)
    requires |data| <= limit
    ensures ReadFrame(Frame(data) + rest, limit) == Content(data, rest)
  {
    hide Frame, ReadFrame, FrameWith;
    FrameIsPlain(data);
    FrameReadsBack([], data, [], rest, limit);
  }

  lemma ReadStep(data: Bytes, rest: Bytes, k: nat, limit: Limit)
    requires |data| <= limit && ReadMany(rest, k, limit).Session?
    ensures
      var more := ReadMany(rest, k, limit);
      ReadMany(Frame(data) + rest, k + 1, limit) == Session([data] + more.contents, more.rest)
  {
    hide Frame, ReadFrame;
    FrameThen(data, rest, limit);
  }

  lemma StreamStep(data: Bytes, more: seq<Bytes>, rest: Bytes)
    ensures Stream([data] + more) + rest == Frame(data) + (Stream(more) + rest)
  {
    hide Frame;
    assert ([data] + more)[1..] == more;
  }

  /** Reading as often as was written gives the payloads in order and uses up every
      byte. */
  lemma {:induction false} StreamReadsBack(messages: seq<Bytes>, rest: Bytes, limit: Limit)
    requires Sendable(messages, limit)
    ensures ReadMany(Stream(messages) + rest, |messages|, limit) == Session(messages, rest)
    decreases |messages|
  {
    if messages == [] {
      assert Stream(messages) + rest == rest;
    } else {
      var data, more := messages[0], messages[1..];
      assert |data| <= limit && Sendable(more, limit) && messages == [data] + more;
      hide *;
      StreamReadsBack(more, rest, limit);
      StreamStep(data, more, rest);
      ReadStep(data, Stream(more) + rest, |more|, limit);
    }
  }

  // -------------------------------------------------------- what goes wrong

  lemma {:induction false} NoLineInPrefix(s: Bytes, k: nat)
    requires k <= |s|
    ensures
      match NextLine(s)
      case None => NextLine(s[..k]).None?
      case Some(l) =>
        if k < |l.text| then NextLine(s[..k]).None?
        else NextLine(s[..k]) == Some(Line(l.text, l.rest[..k - |l.text|]))
  {
    if s != [] && s[0] != LF && k > 0 {
      NoLineInPrefix(s[1..], k - 1);
      assert s[..k][1..] == s[1..][..k - 1];
    } else if k > 0 && s != [] {
      assert s[..k][1..] == s[1..][..k - 1];
    }
  }

  lemma OneLine(s: Bytes, length: int)
    requires NextLine(s).Some?
    ensures
      var l := NextLine(s).value;
      ReadHeaders(s, length) ==
        if Trim(l.text) == [] then Headers(length, l.rest)
        else if After(l.text, length).None? then BadHeaders
        else ReadHeaders(l.rest, After(l.text, length).value)
  {
    hide Trim, ScanInt, NextLine;
  }

  /** Cutting the input cuts the header part or leaves it as it was. */
  lemma {:induction false} HeadersOfPrefix(s: Bytes, k: nat, length: int)
    requires k <= |s| && ReadHeaders(s, length).Headers?
    ensures
      var h := ReadHeaders(s, length);
      && |h.rest| <= |s|
      && ReadHeaders(s[..k], length) ==
         if k < |s| - |h.rest| then BadHeaders else Headers(h.length, h.rest[..k - (|s| - |h.rest|)])
    decreases |s|
  {
    NoLineInPrefix(s, k);
    OneLine(s, length);
    var l := NextLine(s).value;
    if k < |l.text| {
      hide NextLine, Trim, After;
    } else {
      var cut := k - |l.text|;
      assert NextLine(s[..k]) == Some(Line(l.text, l.rest[..cut]));
      OneLine(s[..k], length);
      hide NextLine, Trim, After, ReadHeaders;
      if Trim(l.text) != [] {
        HeadersOfPrefix(l.rest, cut, After(l.text, length).value);
      }
    }
  }

  /** A frame cut short anywhere is never a message: it is an error, or still the panic
      if no buffer can be made and the header part is whole. */
  lemma CutFrameFails(data: Bytes, k: nat, limit: Limit)
    requires |data| <= MAX && k < |Frame(data)|
    ensures ReadFrame(Frame(data)[..k], limit) ==
      if |data| > limit && |Frame(data)| <= k + |data| then Panicked else Failed
  {
    var s := Frame(data);
    hide Frame, FrameWith, ReadHeaders;
    FrameIsPlain(data);
    FrameHeaders([], data, [], []);
    assert s + [] == s && data + [] == data;
    HeadersOfPrefix(s, k, 0);
  }

  /** A header part whose length line is not spelled as the reader expects announces an
      empty content. A decoder of JSON rejects it, so the caller gets an error with the
      payload still in the input, and the client's loop ends. */
  lemma UnrecognisedLengthDesynchronises(lines: seq<Bytes>, data: Bytes, limit: Limit, decodes: Bytes -> bool)
    requires forall i :: 0 <= i < |lines| ==> Ignorable(lines[i])
    ensures ReadFrame(Lines(lines) + ([CR, LF] + data), limit) == Content([], data)
    ensures !decodes([]) ==> Read(Lines(lines) + ([CR, LF] + data), limit, decodes) == Undecodable(data)
    ensures !decodes([]) ==> Dispatched(Lines(lines) + ([CR, LF] + data), limit, decodes) == []
  {
    hide Lines, ReadHeaders, Ignorable;
    IgnoredSteps(lines, [CR, LF] + data, 0);
    BlankEnds(data, 0);
    assert data[..0] == [] && data[0..] == data;
  }

  lemma DispatchStep(data: Bytes, rest: Bytes, limit: Limit, decodes: Bytes -> bool)
    requires |data| <= limit
    ensures Dispatched(Frame(data) + rest, limit, decodes) ==
      if decodes(data) then [data] + Dispatched(rest, limit, decodes) else []
  {
    hide Frame, ReadFrame;
    FrameThen(data, rest, limit);
  }

  /** The first content that does not decode, if any, is the one at k. */
  predicate DecodesUpTo(messages: seq<Bytes>, k: nat, decodes: Bytes -> bool) {
    && k <= |messages| && (forall i :: 0 <= i < k ==> decodes(messages[i]))
    && (k < |messages| ==> !decodes(messages[k]))
  }

  lemma DecodesRest(messages: seq<Bytes>, k: nat, limit: Limit, decodes: Bytes -> bool)
    requires messages != [] && Sendable(messages, limit) && DecodesUpTo(messages, k, decodes)
    ensures |messages[0]| <= limit && Sendable(messages[1..], limit) && (decodes(messages[0]) <==> k > 0)
    ensures k > 0 ==>
      DecodesUpTo(messages[1..], k - 1, decodes) && messages[..k] == [messages[0]] + messages[1..][..k - 1]
  {
    forall i | 0 <= i < |messages| - 1 ensures messages[1..][i] == messages[i + 1] {
    }
  }

  /** A client dispatches what was written, up to the first content that does not
      decode. */
  lemma {:induction false} DispatchedAreWritten(messages: seq<Bytes>, k: nat, limit: Limit, decodes: Bytes -> bool)
    requires Sendable(messages, limit) && DecodesUpTo(messages, k, decodes)
    ensures Dispatched(Stream(messages), limit, decodes) == messages[..k]
    decreases |messages|
  {
    if messages != [] {
      DecodesRest(messages, k, limit, decodes);
      assert Stream(messages) == Frame(messages[0]) + Stream(messages[1..]);
      hide *;
      DispatchStep(messages[0], Stream(messages[1..]), limit, decodes);
      if k > 0 {
        DispatchedAreWritten(messages[1..], k - 1, limit, decodes);
      }
    }
  }

  // ------------------------------------------------------------ when it panics

  /** Header lines without their line feeds. */
  function Raw(lines: seq<Bytes>): Bytes {
    if lines == [] then [] else lines[0] + [LF] + Raw(lines[1..])
  }

  /** Lines that are not blank, and a blank one. */
  predicate HeaderPart(lines: seq<Bytes>, blank: Bytes) {
    && (forall i :: 0 <= i < |lines| ==> LF !in lines[i] && Trim(lines[i]) != [])
    && LF !in blank && Trim(blank) == []
  }

  /** Every length is a number. */
  predicate LengthsScan(lines: seq<Bytes>) {
    forall i :: 0 <= i < |lines| && IsLength(lines[i]) ==> LengthOf(lines[i]).Some?
  }

  predicate LastLength(lines: seq<Bytes>, i: int) {
    && 0 <= i < |lines| && IsLength(lines[i])
    && forall k :: i < k < |lines| ==> !IsLength(lines[k])
  }

  /** The last length, or the one before the lines. */
  ghost predicate LengthIs(lines: seq<Bytes>, length: int, n: int)
    requires LengthsScan(lines)
  {
    if exists i :: LastLength(lines, i) then exists i :: LastLength(lines, i) && n == LengthOf(lines[i]).value
    else n == length
  }

  lemma LastShifts(lines: seq<Bytes>, i: int)
    requires lines != [] && 0 < i
    ensures LastLength(lines, i) <==> LastLength(lines[1..], i - 1)
  {
    hide IsLength;
    if LastLength(lines[1..], i - 1) {
      assert lines[i] == lines[1..][i - 1];
      forall k | i < k < |lines| ensures !IsLength(lines[k]) {
        assert lines[k] == lines[1..][k - 1];
      }
    }
  }

  lemma LengthStep(lines: seq<Bytes>, length: int, n: int)
    requires lines != [] && LengthsScan(lines) && LengthsScan(lines[1..]) && After(lines[0], length).Some?
    requires LengthIs(lines[1..], After(lines[0], length).value, n)
    ensures LengthIs(lines, length, n)
  {
    forall i | 0 < i ensures LastLength(lines, i) <==> LastLength(lines[1..], i - 1) {
      LastShifts(lines, i);
    }
    hide IsLength, LengthOf;
    if i :| LastLength(lines[1..], i) {
      var j :| LastLength(lines[1..], j) && n == LengthOf(lines[1..][j]).value;
      hide LastLength;
      assert lines[j + 1] == lines[1..][j];
      assert LastLength(lines, (j + 1)) by {
        LastShifts(lines, j + 1);
      }
    } else if IsLength(lines[0]) {
      NoneAfter(lines[1..]);
      assert LastLength(lines, 0);
    }
  }

  lemma {:induction false} NoneAfter(lines: seq<Bytes>)
    requires forall i :: !LastLength(lines, i)
    ensures forall i :: 0 <= i < |lines| ==> !IsLength(lines[i])
  {
    hide IsLength;
    var k := |lines|;
    while k > 0
      invariant 0 <= k <= |lines| && forall i :: k <= i < |lines| ==> !IsLength(lines[i])
    {
      k := k - 1;
      assert !LastLength(lines, k);
    }
  }

  /** What the reader makes of a header part. */
  lemma {:induction false} PartRead(lines: seq<Bytes>, blank: Bytes, rest: Bytes, length: int)
    requires HeaderPart(lines, blank)
    ensures
      var h := ReadHeaders(Raw(lines) + blank + [LF] + rest, length);
      if LengthsScan(lines) then h.Headers? && h.rest == rest && LengthIs(lines, length, h.length) else h == BadHeaders
    decreases |lines|
  {
    hide IsLength, LengthOf, Trim, ReadHeaders;
    var s := Raw(lines) + blank + [LF] + rest;
    if lines == [] {
      assert s == blank + [LF] + rest;
      RawStep(blank, rest, length);
      assert !exists i :: LastLength(lines, i);
    } else {
      var tail := Raw(lines[1..]) + blank + [LF] + rest;
      assert s == lines[0] + [LF] + tail;
      RawStep(lines[0], tail, length);
      ScanStep(lines);
      if After(lines[0], length).Some? {
        PartRead(lines[1..], blank, rest, After(lines[0], length).value);
        if LengthsScan(lines) {
          LengthStep(lines, length, ReadHeaders(s, length).length);
        }
      }
    }
  }

  lemma ScanStep(lines: seq<Bytes>)
    requires lines != []
    ensures LengthsScan(lines) <==> (IsLength(lines[0]) ==> LengthOf(lines[0]).Some?) && LengthsScan(lines[1..])
  {
    hide IsLength, LengthOf;
    if LengthsScan(lines[1..]) {
      forall i | 0 < i < |lines| && IsLength(lines[i]) && LengthsScan(lines[1..]) ensures LengthOf(lines[i]).Some? {
        assert lines[i] == lines[1..][i - 1];
      }
    }
  }

  /** No buffer of the size can be made. */
  predicate Unmakeable(n: int, limit: Limit) {
    n < 0 || n > limit
  }

  /** Reading panics exactly when every length in the header part is a number and the
      last of them is negative or larger than any buffer. */
  lemma PanicsIff(lines: seq<Bytes>, blank: Bytes, rest: Bytes, limit: Limit)
    requires HeaderPart(lines, blank)
    ensures ReadFrame(Raw(lines) + blank + [LF] + rest, limit).Panicked? <==>
      LengthsScan(lines) && exists i :: LastLength(lines, i) && Unmakeable(LengthOf(lines[i]).value, limit)
  {
    PartRead(lines, blank, rest, 0);
    hide IsLength, LengthOf, Trim, ReadHeaders, Raw;
    if LengthsScan(lines) {
      forall i, j | LastLength(lines, i) && LastLength(lines, j) ensures i == j {
      }
    }
  }

  ghost predicate Begins(s: Bytes, lines: seq<Bytes>, blank: Bytes, rest: Bytes) {
    HeaderPart(lines, blank) && s == Raw(lines) + blank + [LF] + rest
  }

  lemma BeginsBlank(blank: Bytes, rest: Bytes)
    requires LF !in blank && Trim(blank) == []
    ensures Begins(blank + [LF] + rest, [], blank, rest)
  {
    hide Trim;
    assert Raw([]) + blank + [LF] + rest == blank + [LF] + rest;
  }

  lemma BeginsLine(line: Bytes, s: Bytes, lines: seq<Bytes>, blank: Bytes, rest: Bytes)
    requires LF !in line && Trim(line) != [] && Begins(s, lines, blank, rest)
    ensures Begins(line + [LF] + s, [line] + lines, blank, rest)
  {
    hide Trim;
    assert ([line] + lines)[1..] == lines;
    assert line + [LF] + s == line + [LF] + Raw(lines) + blank + [LF] + rest;
  }

  lemma {:induction false} SplitHeaders(s: Bytes, length: int) returns (lines: seq<Bytes>, blank: Bytes, rest: Bytes)
    requires ReadHeaders(s, length).Headers?
    ensures Begins(s, lines, blank, rest)
    decreases |s|
  {
    var line, tail := FirstLine(s);
    hide *;
    RawStep(line, tail, length);
    if Trim(line) == [] {
      BeginsBlank(line, tail);
      lines, blank, rest := [], line, tail;
    } else {
      var more: seq<Bytes>;
      more, blank, rest := SplitHeaders(tail, After(line, length).value);
      BeginsLine(line, tail, more, blank, rest);
      lines := [line] + more;
    }
  }

  /** An input without a complete header part is an error. */
  lemma HeaderPartOrError(s: Bytes, limit: Limit)
    ensures ReadFrame(s, limit) == Failed || exists lines, blank, rest :: Begins(s, lines, blank, rest)
  {
    hide ReadHeaders, Begins;
    if ReadHeaders(s, 0).Headers? {
      var lines, blank, rest := SplitHeaders(s, 0);
    }
  }

  lemma FirstLine(s: Bytes) returns (line: Bytes, rest: Bytes)
    requires NextLine(s).Some?
    ensures s == line + [LF] + rest && LF !in line
  {
    var k := 0;
    while k < |s| && s[k] != LF
      invariant k <= |s| && LF !in s[..k]
    {
      k := k + 1;
    }
    if k == |s| {
      assert s[..k] == s;
      NoLine(s);
    }
    line, rest := s[..k], s[k + 1..];
  }

  /** A header line with a length for which no buffer can be made. */
  predicate Bursts(line: Bytes, limit: Limit) {
    && LF !in line && Trim(line) != [] && IsLength(line)
    && LengthOf(line).Some? && Unmakeable(LengthOf(line).value, limit)
  }

  lemma NegativeLine(n: nat, limit: Limit)
    requires 0 < n <= MAX
    ensures Bursts(LENGTH_PREFIX + ([45] + Decimal(n)), limit)
  {
    var d := Decimal(n);
    assert IsDigit(d[|d| - 1]);
    DigitsAreText(d);
    ScansNegative(n);
    hide Decimal, Trim, ScanInt, HasPrefix;
    var t: Bytes := [45] + d;
    assert t[|t| - 1] == d[|d| - 1];
    PrefixedLine(t);
  }

  lemma LongLine(n: nat, limit: Limit)
    requires limit < n <= MAX
    ensures Bursts(LENGTH_PREFIX + Decimal(n), limit)
  {
    HeaderLine(n);
    ScansBack(n);
    hide Decimal, Trim, ScanInt, HasPrefix;
  }

  lemma ScansNegative(n: nat)
    requires 0 < n <= MAX
    ensures
      var r := ScanInt([SPACE] + ([45] + Decimal(n)));
      r.Some? && r.value < 0
  {
    var d := Decimal(n);
    DecimalValue(n);
    DigitsRun(d);
    hide Decimal, Value, DigitRun;
    var t: Bytes := [45] + d;
    assert ([SPACE] + t)[1..] == t && t[1..] == d && d[..|d|] == d;
    assert TrimLeft(t) == t;
    assert TrimLeft([SPACE] + t) == t;
  }

  lemma BurstsWithReturn(line: Bytes, limit: Limit)
    requires Bursts(line, limit)
    ensures Bursts(line + [CR], limit)
  {
    TrimTail(line, [CR]);
    hide Trim, ScanInt, HasPrefix;
  }

  lemma BlankReturn()
    ensures LF !in [CR] && Trim([CR]) == []
  {
    AllSpaceTrims([CR]);
  }

  /** A header part of one such length. */
  lemma OneLength(line: Bytes, rest: Bytes, limit: Limit)
    requires Bursts(line, limit)
    ensures ReadFrame(line + [LF] + [CR] + [LF] + rest, limit).Panicked?
  {
    BlankReturn();
    hide Trim, LengthOf, IsLength, ReadFrame;
    var lines := [line];
    assert Raw(lines) == line + [LF];
    assert LastLength(lines, 0) && Unmakeable(LengthOf(lines[0]).value, limit);
    PanicsIff(lines, [CR], rest, limit);
  }

  lemma Endings(text: Bytes, rest: Bytes)
    ensures text + [CR, LF, CR, LF] + rest == text + [CR] + [LF] + [CR] + [LF] + rest
  {
  }

  lemma BurstingHeader(text: Bytes, rest: Bytes, limit: Limit, decodes: Bytes -> bool)
    requires Bursts(text, limit)
    ensures Read(text + [CR, LF, CR, LF] + rest, limit, decodes) == Crashed
  {
    hide Bursts, ReadFrame;
    BurstsWithReturn(text, limit);
    OneLength(text + [CR], rest, limit);
    Endings(text, rest);
  }

  /** A header part with a negative length, such as "Content-Length: -1", whatever
      follows it. */
  lemma NegativeLengthPanics(n: nat, rest: Bytes, limit: Limit, decodes: Bytes -> bool)
    requires 0 < n <= MAX
    ensures Read(LENGTH_PREFIX + ([45] + Decimal(n)) + [CR, LF, CR, LF] + rest, limit, decodes) == Crashed
  {
    hide Bursts, Read, Decimal;
    NegativeLine(n, limit);
    BurstingHeader(LENGTH_PREFIX + ([45] + Decimal(n)), rest, limit, decodes);
  }

  /** A header part with a length above the limit, such as
      "Content-Length: 9223372036854775807", however short the rest of the input. */
  lemma LongLengthPanics(n: nat, rest: Bytes, limit: Limit, decodes: Bytes -> bool)
    requires limit < n <= MAX
    ensures Read(LENGTH_PREFIX + Decimal(n) + [CR, LF, CR, LF] + rest, limit, decodes) == Crashed
  {
    hide Bursts, Read, Decimal;
    LongLine(n, limit);
    BurstingHeader(LENGTH_PREFIX + Decimal(n), rest, limit, decodes);
  }

  // -------------------------------------------------------------- the streams

  class Pipe {
    var bytes: Bytes

    constructor ()
      ensures bytes == []
    {
      bytes := [];
    }

    method WriteMessage(data: Bytes)
      modifies this
      ensures bytes == old(bytes) + Frame(data)
    {
      bytes := bytes + (LENGTH_PREFIX + Decimal(|data|) + [CR, LF, CR, LF]);
      bytes := bytes + data;
      assert LENGTH_PREFIX + Decimal(|data|) + [CR, LF, CR, LF] == LENGTH_PREFIX + Decimal(|data|) + [CR, LF] + [CR, LF];
    }

    /** Take a line with its line feed; at the end of the input, fail. */
    method ReadString() returns (line: Option<Bytes>)
      modifies this
      ensures
        match NextLine(old(bytes))
        case None => line.None?
        case Some(l) => line == Some(l.text) && bytes == l.rest
    {
      var k := 0;
      while k < |bytes| && bytes[k] != LF
        invariant k <= |bytes| && bytes == old(bytes) && LF !in bytes[..k]
      {
        k := k + 1;
      }
      if k == |bytes| {
        assert bytes[..k] == bytes;
        NoLine(bytes);
        return None;
      }
      LineThen(bytes[..k], bytes[k + 1..]);
      assert bytes == bytes[..k] + [LF] + bytes[k + 1..];
      line := Some(bytes[..k] + [LF]);
      bytes := bytes[k + 1..];
    }

    /** Header lines until a blank one, then the content. */
    method ReadMessage(limit: Limit, decodes: Bytes -> bool) returns (r: Reading)
      modifies this
      ensures r == Read(old(bytes), limit, decodes)
      ensures r.Message? || r.Undecodable? ==> bytes == r.rest
    {
      hide Trim, NextLine, ScanInt;
      var length := 0;
      while true
        invariant ReadHeaders(bytes, length) == ReadHeaders(old(bytes), 0)
        decreases |bytes|
      {
        var line := ReadString();
        if line.None? {
          return NoFrame;
        }
        var text := Trim(line.value);
        if text == [] {
          break;
        }
        if HasPrefix(text, LENGTH_PREFIX) {
          var n := ScanInt(text[|LENGTH_PREFIX| - 1..]);
          if n.None? {
            return NoFrame;
          }
          length := n.value;
        }
      }
      assert ReadHeaders(old(bytes), 0) == Headers(length, bytes);
      if length < 0 || length > limit {
        return Crashed;
      }
      if length > |bytes| {
        return NoFrame;
      }
      var content := bytes[..length];
      bytes := bytes[length..];
      r := if decodes(content) then Message(content, bytes) else Undecodable(bytes);
    }
  }

  lemma {:induction false} NoLine(s: Bytes)
    requires LF !in s
    ensures NextLine(s).None?
  {
    if s != [] {
      NoLine(s[1..]);
    }
  }
}
