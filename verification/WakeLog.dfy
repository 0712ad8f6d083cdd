/** The wake-log file: one text line per scheduler event, grouped in `RUN`
    sections under a header (src/replay.rs:72-160, 383-399). */
module WakeLog {
  import opened Wrappers
  import opened Driver
  import opened Numerals
  import opened Tokens

  const U32: nat := 0x1_0000_0000
  const U64: nat := 0x1_0000_0000_0000_0000

  /** Rust's integer parse: an optional plus sign, at least one digit, and the
      value must be below `bound`. */
  function ParseInt(s: string, radix: nat, bound: nat): Option<nat>
    requires 2 <= radix <= 16
  {
    var digits := if |s| > 0 && s[0] == '+' then s[1..] else s;
    if digits == [] then None
    else
      var v := Numeral(digits, radix);
      if v.Some? && v.value < bound then v else None
  }

  lemma ParseDecimal(n: nat, bound: nat)
    requires n < bound
    ensures ParseInt(Decimal(n), 10, bound) == Some(n) && Word(Decimal(n), Ascii)
  {
    DecimalRoundTrip(n);
    DigitsAreWord(Decimal(n), 10);
  }

  lemma DigitsAreWord(s: string, radix: nat)
    requires Digits(s, radix) && s != []
    ensures Word(s, Ascii) && s[0] != '+'
  {
  }

  lemma ParseHash(n: nat)
    requires n < U64
    ensures ParseInt(Hex(n, 16), 16, U64) == Some(n) && Word(Hex(n, 16), Ascii)
  {
    assert Pow16(16) == U64 by { Pow16Is(); }
    HexRoundTrip(n, 16);
    DigitsAreWord(Hex(n, 16), 16);
  }

  lemma Pow16Is()
    ensures Pow16(16) == U64
  {
    assert Pow16(4) == 0x1_0000;
    assert Pow16(8) == 0x1_0000_0000;
    assert Pow16(12) == 0x1_0000_0000_0000;
  }

  // ---- Words and lines ------------------------------------------------------------

  function LineLength(s: string): (n: nat)
    ensures n <= |s|
    ensures forall i :: 0 <= i < n ==> s[i] != '\n'
    ensures n < |s| ==> s[n] == '\n'
    decreases |s|
  {
    if s == [] || s[0] == '\n' then 0 else 1 + LineLength(s[1..])
  }

  function ChopCr(s: string): string {
    if |s| > 0 && s[|s| - 1] == '\r' then s[..|s| - 1] else s
  }

  /** Lines without their terminators; a final newline opens no further line, and a
      carriage return is part of a terminator only before a newline. */
  function Lines(s: string): seq<string>
    decreases |s|
  {
    if s == [] then []
    else
      var n := LineLength(s);
      if n < |s| then [ChopCr(s[..n])] + Lines(s[n + 1..]) else [s]
  }

  /** A line that ends neither in a newline nor in a carriage return. */
  predicate Plain(s: string) {
    (forall i :: 0 <= i < |s| ==> s[i] != '\n') && (|s| > 0 ==> s[|s| - 1] != '\r')
  }

  lemma FirstLine(line: string, rest: string)
    requires Plain(line)
    ensures Lines(line + "\n" + rest) == [line] + Lines(rest)
  {
    var s := line + "\n" + rest;
    var n := LineLength(s);
    assert forall i :: 0 <= i < |line| ==> s[i] == line[i];
    assert s[|line|] == '\n';
    assert s[..n] == line && s[n + 1..] == rest;
  }

  function Unlines(lines: seq<string>): string {
    if lines == [] then "" else lines[0] + "\n" + Unlines(lines[1..])
  }

  lemma {:induction false} LinesRoundTrip(lines: seq<string>)
    requires forall i :: 0 <= i < |lines| ==> Plain(lines[i])
    ensures Lines(Unlines(lines)) == lines
    decreases |lines|
  {
    if lines != [] {
      LinesRoundTrip(lines[1..]);
      FirstLine(lines[0], Unlines(lines[1..]));
    }
  }

  // ---- Events ------------------------------------------------------------------------

  function Bit(b: bool): string {
    if b then "1" else "0"
  }

  function ToLine(e: WakeEvent): string {
    match e
    case Pick(tid) => "P" + " " + Decimal(tid)
    case Rotate(preempt) => "R" + " " + Bit(preempt)
    case Io(tid, aborted, hash) => "I" + " " + (Decimal(tid) + " " + (Bit(aborted) + " " + Hex(hash, 16)))
    case Deadline(tid, target, epoch) => "D" + " " + (Decimal(tid) + " " + (Decimal(target) + " " + Decimal(epoch)))
  }

  /** The fields fit the machine types they have in the source. */
  predicate InRange(e: WakeEvent) {
    match e
    case Pick(tid) => tid < U64
    case Rotate(_) => true
    case Io(tid, _, hash) => tid < U64 && hash < U64
    case Deadline(tid, target, epoch) => tid < U64 && target < U64 && epoch < U64
  }

  function ParseWords(f: seq<string>): Option<WakeEvent> {
    if |f| == 2 && f[0] == "P" then
      var tid := ParseInt(f[1], 10, U64);
      if tid.Some? then Some(Pick(tid.value)) else None
    else if |f| == 2 && f[0] == "R" then Some(Rotate(f[1] == "1"))
    else if |f| == 4 && f[0] == "I" then
      var tid, hash := ParseInt(f[1], 10, U64), ParseInt(f[3], 16, U64);
      if tid.Some? && hash.Some? then Some(Io(tid.value, f[2] == "1", hash.value)) else None
    else if |f| == 4 && f[0] == "D" then
      var tid, target, epoch := ParseInt(f[1], 10, U64), ParseInt(f[2], 10, U64), ParseInt(f[3], 10, U64);
      if tid.Some? && target.Some? && epoch.Some? then Some(Deadline(tid.value, target.value, epoch.value)) else None
    else None
  }

  function ParseLine(line: string): Option<WakeEvent> {
    ParseWords(Words(line, Ascii))
  }

  lemma LineRoundTrip(e: WakeEvent)
    requires InRange(e)
    ensures ParseLine(ToLine(e)) == Some(e)
  {
    hide ParseInt, Words, Decimal, Hex;
    match e
    case Pick(tid) =>
      ParseDecimal(tid, U64);
      TwoWords("P", Decimal(tid));
    case Rotate(preempt) =>
      TwoWords("R", Bit(preempt));
    case Io(tid, aborted, hash) =>
      ParseDecimal(tid, U64);
      ParseHash(hash);
      FourWords("I", Decimal(tid), Bit(aborted), Hex(hash, 16));
    case Deadline(tid, target, epoch) =>
      ParseDecimal(tid, U64);
      ParseDecimal(target, U64);
      ParseDecimal(epoch, U64);
      FourWords("D", Decimal(tid), Decimal(target), Decimal(epoch));
  }

  /** The written forms: letter, numbers in decimal, flags as 0 and 1, the hash as sixteen
      hexadecimal digits. */
  lemma LineForms(tid: TaskId, target: TaskId, epoch: nat, hash: nat)
    ensures ToLine(Pick(tid)) == "P" + " " + Decimal(tid)
    ensures ToLine(Rotate(false)) == "R" + " " + "0" && ToLine(Rotate(true)) == "R" + " " + "1"
    ensures ToLine(Io(tid, false, hash)) == "I" + " " + Decimal(tid) + " " + "0" + " " + Hex(hash, 16)
    ensures ToLine(Io(tid, true, hash)) == "I" + " " + Decimal(tid) + " " + "1" + " " + Hex(hash, 16)
    ensures ToLine(Deadline(tid, target, epoch)) == "D" + " " + Decimal(tid) + " " + Decimal(target) + " " + Decimal(epoch)
  {
    hide Decimal, Hex;
    FourJoined("I", Decimal(tid), "0", Hex(hash, 16));
    FourJoined("I", Decimal(tid), "1", Hex(hash, 16));
    FourJoined("D", Decimal(tid), Decimal(target), Decimal(epoch));
  }

  lemma FourJoined(a: string, b: string, c: string, d: string)
    ensures a + " " + (b + " " + (c + " " + d)) == a + " " + b + " " + c + " " + d
  {
  }

  lemma TwoWords(a: string, b: string)
    requires Word(a, Ascii) && Word(b, Ascii)
    ensures Words(a + " " + b, Ascii) == [a, b]
  {
    LastWord(b, Ascii);
    NextWord(a, b, Ascii);
  }

  lemma FourWords(a: string, b: string, c: string, d: string)
    requires Word(a, Ascii) && Word(b, Ascii) && Word(c, Ascii) && Word(d, Ascii)
    ensures Words(a + " " + (b + " " + (c + " " + d)), Ascii) == [a, b, c, d]
  {
    LastWord(d, Ascii);
    NextWord(c, d, Ascii);
    NextWord(b, c + " " + d, Ascii);
    NextWord(a, b + " " + (c + " " + d), Ascii);
  }

  lemma WordPlain(a: string)
    requires Word(a, Ascii)
    ensures Plain(a)
  {
  }

  lemma SpacedPlain(a: string, b: string)
    requires Word(a, Ascii) && Plain(b) && b != []
    ensures Plain(a + " " + b) && a + " " + b != []
  {
    var s := a + " " + b;
    assert s[|s| - 1] == b[|b| - 1];
    forall i | 0 <= i < |s| ensures s[i] != '\n' {
      assert s[i] == if i < |a| then a[i] else if i == |a| then ' ' else b[i - |a| - 1];
    }
  }

  lemma FourPlain(a: string, b: string, c: string, d: string)
    requires Word(a, Ascii) && Word(b, Ascii) && Word(c, Ascii) && Word(d, Ascii)
    ensures Plain(a + " " + (b + " " + (c + " " + d)))
  {
    WordPlain(d);
    SpacedPlain(c, d);
    SpacedPlain(b, c + " " + d);
    SpacedPlain(a, b + " " + (c + " " + d));
  }

  /** An event line is one line, and is neither empty nor the section marker. */
  lemma PlainLine(e: WakeEvent)
    requires InRange(e)
    ensures Plain(ToLine(e)) && ToLine(e) != "" && ToLine(e) != "RUN"
  {
    hide ParseInt, Decimal, Hex;
    assert "RUN"[1] == 'U';
    assert |ToLine(e)| > 1 && ToLine(e)[1] == ' ';
    match e
    case Pick(tid) =>
      ParseDecimal(tid, U64);
      WordPlain(Decimal(tid));
      SpacedPlain("P", Decimal(tid));
    case Rotate(preempt) =>
      WordPlain(Bit(preempt));
      SpacedPlain("R", Bit(preempt));
    case Io(tid, aborted, hash) =>
      ParseDecimal(tid, U64);
      ParseHash(hash);
      FourPlain("I", Decimal(tid), Bit(aborted), Hex(hash, 16));
    case Deadline(tid, target, epoch) =>
      ParseDecimal(tid, U64);
      ParseDecimal(target, U64);
      ParseDecimal(epoch, U64);
      FourPlain("D", Decimal(tid), Decimal(target), Decimal(epoch));
  }

  // ---- The file ----------------------------------------------------------------------------

  type Section = seq<WakeEvent>

  function Header(batch: nat, stress: Option<nat>): string {
    "qn-wake-log" + " " + ("v1" + " " + (("batch=" + Decimal(batch)) + " " + ("stress=" + StressText(stress))))
  }

  function StressText(stress: Option<nat>): string {
    if stress.None? then "off" else Decimal(stress.value)
  }

  function EventLines(events: Section): (r: seq<string>)
    ensures |r| == |events| && forall i :: 0 <= i < |events| ==> r[i] == ToLine(events[i])
  {
    seq(|events|, i requires 0 <= i < |events| => ToLine(events[i]))
  }

  function BodyLines(sections: seq<Section>): seq<string> {
    if sections == [] then [] else ["RUN"] + EventLines(sections[0]) + BodyLines(sections[1..])
  }

  function LogText(batch: nat, stress: Option<nat>, sections: seq<Section>): string {
    Unlines([Header(batch, stress)] + BodyLines(sections))
  }

  datatype LogResult =
    | Loaded(sections: seq<Section>)
    | NotALog
    | BatchMismatch
    | BadLine
    | EventBeforeRun

  function FindBatch(parts: seq<string>): Option<nat>
    decreases |parts|
  {
    if parts == [] then None
    else if "batch=" <= parts[0] then ParseInt(parts[0][6..], 10, U32)
    else FindBatch(parts[1..])
  }

  function ParseBody(lines: seq<string>, acc: seq<Section>): LogResult
    decreases |lines|
  {
    if lines == [] then Loaded(acc)
    else if lines[0] == "" then ParseBody(lines[1..], acc)
    else if lines[0] == "RUN" then ParseBody(lines[1..], acc + [[]])
    else
      var e := ParseLine(lines[0]);
      if e.None? then BadLine
      else if acc == [] then EventBeforeRun
      else ParseBody(lines[1..], acc[|acc| - 1 := acc[|acc| - 1] + [e.value]])
  }

  function ParseText(text: string, batch: nat): LogResult {
    var lines := Lines(text);
    var header := if lines == [] then "" else lines[0];
    var parts := Words(header, Ascii);
    if |parts| < 2 || parts[0] != "qn-wake-log" || parts[1] != "v1" then NotALog
    else if FindBatch(parts[2..]) != Some(batch) then BatchMismatch
    else if lines == [] then Loaded([])
    else ParseBody(lines[1..], [])
  }

  /** src/replay.rs:124-160. */
  method ParseLog(text: string, batch: nat) returns (r: LogResult)
    ensures r == ParseText(text, batch)
  {
    var lines := Lines(text);
    var header := if lines == [] then "" else lines[0];
    var parts := Words(header, Ascii);
    if |parts| < 2 || parts[0] != "qn-wake-log" || parts[1] != "v1" {
      return NotALog;
    }
    if FindBatch(parts[2..]) != Some(batch) {
      return BatchMismatch;
    }
    if lines == [] {
      return Loaded([]);
    }
    var sections: seq<Section> := [];
    for i := 1 to |lines|
      invariant ParseBody(lines[i..], sections) == ParseBody(lines[1..], [])
    {
      var line := lines[i];
      assert lines[i..][0] == line && lines[i..][1..] == lines[i + 1..];
      if line == "" {
        continue;
      }
      if line == "RUN" {
        sections := sections + [[]];
        continue;
      }
      var e := ParseLine(line);
      if e.None? {
        return BadLine;
      }
      if sections == [] {
        return EventBeforeRun;
      }
      sections := sections[|sections| - 1 := sections[|sections| - 1] + [e.value]];
    }
    r := Loaded(sections);
  }

  // ---- Round trip ---------------------------------------------------------------------------

  ghost predicate SectionsOk(sections: seq<Section>) {
    forall i :: 0 <= i < |sections| ==> forall j :: 0 <= j < |sections[i]| ==> InRange(sections[i][j])
  }

  lemma RunParses(rest: seq<string>, acc: seq<Section>)
    ensures ParseBody(["RUN"] + rest, acc) == ParseBody(rest, acc + [[]])
  {
    assert (["RUN"] + rest)[1..] == rest;
  }

  lemma EventParses(e: WakeEvent, rest: seq<string>, acc: seq<Section>, last: Section)
    requires InRange(e)
    ensures ParseBody([ToLine(e)] + rest, acc + [last]) == ParseBody(rest, acc + [last + [e]])
  {
    hide ToLine, ParseLine;
    LineRoundTrip(e);
    PlainLine(e);
    assert ([ToLine(e)] + rest)[1..] == rest;
    assert (acc + [last])[|acc| := last + [e]] == acc + [last + [e]];
  }

  lemma {:induction false} EventsParse(events: Section, rest: seq<string>, acc: seq<Section>, last: Section)
    requires forall j :: 0 <= j < |events| ==> InRange(events[j])
    ensures ParseBody(EventLines(events) + rest, acc + [last]) == ParseBody(rest, acc + [last + events])
    decreases |events|
  {
    hide ParseBody, ToLine;
    if events == [] {
      assert EventLines(events) + rest == rest && last + events == last;
    } else {
      var e, more := events[0], EventLines(events[1..]) + rest;
      assert EventLines(events) + rest == [ToLine(e)] + more;
      EventParses(e, more, acc, last);
      EventsParse(events[1..], rest, acc, last + [e]);
      assert last + [e] + events[1..] == last + events;
    }
  }

  lemma TailOk(sections: seq<Section>)
    requires SectionsOk(sections) && sections != []
    ensures SectionsOk(sections[1..]) && forall j :: 0 <= j < |sections[0]| ==> InRange(sections[0][j])
  {
    forall i | 0 <= i < |sections[1..]| ensures forall j :: 0 <= j < |sections[1..][i]| ==> InRange(sections[1..][i][j]) {
      assert sections[1..][i] == sections[i + 1];
    }
  }

  lemma SectionParses(section: Section, rest: seq<string>, acc: seq<Section>)
    requires forall j :: 0 <= j < |section| ==> InRange(section[j])
    ensures ParseBody(["RUN"] + EventLines(section) + rest, acc) == ParseBody(rest, acc + [section])
  {
    hide ParseBody, ToLine;
    assert ["RUN"] + EventLines(section) + rest == ["RUN"] + (EventLines(section) + rest);
    RunParses(EventLines(section) + rest, acc);
    EventsParse(section, rest, acc, []);
    assert [] + section == section;
  }

  lemma BodyEmpty(acc: seq<Section>)
    ensures ParseBody(BodyLines([]), acc) == Loaded(acc)
  {
  }

  lemma BodyUnfolds(sections: seq<Section>)
    requires sections != []
    ensures BodyLines(sections) == ["RUN"] + EventLines(sections[0]) + BodyLines(sections[1..])
  {
  }

  lemma {:induction false} BodyParses(sections: seq<Section>, acc: seq<Section>)
    requires SectionsOk(sections)
    ensures ParseBody(BodyLines(sections), acc) == Loaded(acc + sections)
    decreases |sections|
  {
    hide ParseBody, SectionsOk, BodyLines;
    if sections == [] {
      BodyEmpty(acc);
      assert acc + sections == acc;
    } else {
      TailOk(sections);
      BodyUnfolds(sections);
      SectionParses(sections[0], BodyLines(sections[1..]), acc);
      BodyParses(sections[1..], acc + [sections[0]]);
      assert acc + [sections[0]] + sections[1..] == acc + sections;
    }
  }

  lemma {:induction false} BodyPlain(sections: seq<Section>)
    requires SectionsOk(sections)
    ensures forall i :: 0 <= i < |BodyLines(sections)| ==> Plain(BodyLines(sections)[i])
    decreases |sections|
  {
    if sections != [] {
      TailOk(sections);
      BodyPlain(sections[1..]);
      forall j | 0 <= j < |sections[0]| ensures Plain(EventLines(sections[0])[j]) {
        PlainLine(sections[0][j]);
      }
    }
  }

  lemma Prefixed(key: string, value: string)
    requires Word(key, Ascii) && Word(value, Ascii)
    ensures Word(key + value, Ascii)
  {
  }

  lemma StressWord(stress: Option<nat>)
    ensures Word(StressText(stress), Ascii)
  {
    if stress.Some? {
      DecimalRoundTrip(stress.value);
      DigitsAreWord(Decimal(stress.value), 10);
    }
  }

  lemma HeaderParses(batch: nat, stress: Option<nat>)
    requires batch < U32
    ensures Words(Header(batch, stress), Ascii) == ["qn-wake-log", "v1", "batch=" + Decimal(batch), "stress=" + StressText(stress)]
    ensures FindBatch(Words(Header(batch, stress), Ascii)[2..]) == Some(batch)
    ensures Plain(Header(batch, stress))
  {
    hide ParseInt, Words, Decimal;
    ParseDecimal(batch, U32);
    StressWord(stress);
    var b, s := "batch=" + Decimal(batch), "stress=" + StressText(stress);
    Prefixed("batch=", Decimal(batch));
    Prefixed("stress=", StressText(stress));
    FourWords("qn-wake-log", "v1", b, s);
    assert b[6..] == Decimal(batch) && "batch=" <= b;
    FourPlain("qn-wake-log", "v1", b, s);
  }

  /** The recorded file reads back: parsing it under the batch it was recorded
      with gives exactly its sections, empty ones included, and any other batch
      is refused. */
  lemma LogRoundTrip(batch: nat, stress: Option<nat>, sections: seq<Section>, current: nat)
    requires batch < U32 && SectionsOk(sections)
    ensures ParseText(LogText(batch, stress, sections), current)
            == if current == batch then Loaded(sections) else BatchMismatch
  {
    hide ParseBody, Words, Header, BodyLines, FindBatch;
    var lines := [Header(batch, stress)] + BodyLines(sections);
    HeaderParses(batch, stress);
    BodyPlain(sections);
    LinesRoundTrip(lines);
    assert lines[1..] == BodyLines(sections);
    BodyParses(sections, []);
    assert [] + sections == sections;
  }

  // ---- Which texts are read at all ------------------------------------------------------------

  /** The decimal numeral of `n`, after any zeros, perhaps with a plus sign. */
  ghost predicate DecimalWord(w: string, n: nat) {
    exists z: nat :: w == Zeros(z) + Decimal(n) || w == "+" + (Zeros(z) + Decimal(n))
  }

  /** `d` is the hexadecimal numeral of `n` in some number of digits, in capitals or not. */
  ghost predicate HexDigits(d: string, n: nat) {
    d != [] && n < Pow16(|d|) && Lower(d) == Hex(n, |d|)
  }

  ghost predicate HexWord(w: string, n: nat) {
    HexDigits(w, n) || ("+" <= w && HexDigits(w[1..], n))
  }

  lemma NoSign(s: string, radix: nat)
    requires 2 <= radix <= 16 && s != [] && Numeral(s, radix).Some?
    ensures s[0] != '+'
  {
    OnlyDigits(s, radix);
  }

  lemma ReadsDecimalWord(w: string, n: nat, bound: nat)
    ensures ParseInt(w, 10, bound) == Some(n) <==> n < bound && DecimalWord(w, n)
  {
    hide Numeral, Zeros, Decimal;
    if z: nat :| w == Zeros(z) + Decimal(n) || w == "+" + (Zeros(z) + Decimal(n)) {
      var d := Zeros(z) + Decimal(n);
      ReadsDecimal(d, n);
      NoSign(d, 10);
      assert w == d || w[1..] == d;
    }
    var d := if |w| > 0 && w[0] == '+' then w[1..] else w;
    if d != [] {
      ReadsDecimal(d, n);
      assert w == d || w == "+" + d;
    }
  }

  lemma ReadsHexWord(w: string, n: nat, bound: nat)
    ensures ParseInt(w, 16, bound) == Some(n) <==> n < bound && HexWord(w, n)
  {
    hide Numeral, Hex, Lower, Pow16;
    if w != [] {
      ReadsHex(w, n);
      ReadsHex(w[1..], n);
      if HexDigits(w, n) {
        NoSign(w, 16);
      }
    }
  }

  /** The words of a line that stands for an event. */
  ghost predicate Spells(f: seq<string>, e: WakeEvent) {
    match e
    case Pick(tid) => |f| == 2 && f[0] == "P" && DecimalWord(f[1], tid)
    case Rotate(preempt) => |f| == 2 && f[0] == "R" && (preempt <==> f[1] == "1")
    case Io(tid, aborted, hash) =>
      |f| == 4 && f[0] == "I" && DecimalWord(f[1], tid) && (aborted <==> f[2] == "1") && HexWord(f[3], hash)
    case Deadline(tid, target, epoch) =>
      |f| == 4 && f[0] == "D" && DecimalWord(f[1], tid) && DecimalWord(f[2], target) && DecimalWord(f[3], epoch)
  }

  /** A line is read as an event if and only if its words spell it and the numbers fit;
      every other line is refused. */
  lemma LineReads(line: string, e: WakeEvent)
    ensures ParseLine(line) == Some(e) <==> InRange(e) && Spells(Words(line, Ascii), e)
  {
    hide ParseInt, DecimalWord, HexWord, Words;
    var f := Words(line, Ascii);
    assert ["P"[0], "R"[0], "I"[0], "D"[0]] == ['P', 'R', 'I', 'D'];
    match e
    case Pick(tid) =>
      if |f| == 2 { ReadsDecimalWord(f[1], tid, U64); }
    case Rotate(_) =>
    case Io(tid, _, hash) =>
      if |f| == 4 {
        ReadsDecimalWord(f[1], tid, U64);
        ReadsHexWord(f[3], hash, U64);
      }
    case Deadline(tid, target, epoch) =>
      if |f| == 4 {
        ReadsDecimalWord(f[1], tid, U64);
        ReadsDecimalWord(f[2], target, U64);
        ReadsDecimalWord(f[3], epoch, U64);
      }
  }

  ghost predicate Skipped(line: string) {
    line == "" || line == "RUN"
  }

  ghost predicate Unreadable(lines: seq<string>) {
    exists i :: 0 <= i < |lines| && !Skipped(lines[i]) && ParseLine(lines[i]).None?
  }

  /** An event comes before the first section marker and before any line that is not read. */
  ghost predicate TooEarly(lines: seq<string>) {
    exists i :: 0 <= i < |lines| && !Skipped(lines[i]) && ParseLine(lines[i]).Some? && forall j :: 0 <= j < i ==> lines[j] == ""
  }

  /** `texts` are the lines of the events, in order. */
  ghost predicate AreEvents(texts: seq<string>, events: Section) {
    |texts| == |events| && forall j :: 0 <= j < |texts| ==> !Skipped(texts[j]) && ParseLine(texts[j]) == Some(events[j])
  }

  ghost function Kept(lines: seq<string>): seq<string> {
    if lines == [] then [] else (if lines[0] == "" then [] else [lines[0]]) + Kept(lines[1..])
  }

  /** The sections' lines under their markers. */
  ghost function Marked(texts: seq<seq<string>>): seq<string> {
    if texts == [] then [] else ["RUN"] + texts[0] + Marked(texts[1..])
  }

  ghost predicate Grouped(lines: seq<string>, sections: seq<Section>) {
    exists texts: seq<seq<string>> :: Kept(lines) == Marked(texts) && |texts| == |sections| &&
      forall i :: 0 <= i < |texts| ==> AreEvents(texts[i], sections[i])
  }

  lemma TailReadable(lines: seq<string>)
    requires lines != []
    ensures Unreadable(lines) <==> (!Skipped(lines[0]) && ParseLine(lines[0]).None?) || Unreadable(lines[1..])
  {
    hide ParseLine, Skipped;
    var rest := lines[1..];
    if i :| 0 <= i < |lines| && !Skipped(lines[i]) && ParseLine(lines[i]).None? {
      assert i > 0 ==> rest[i - 1] == lines[i];
    }
    if i :| 0 <= i < |rest| && !Skipped(rest[i]) && ParseLine(rest[i]).None? {
      assert lines[i + 1] == rest[i];
    }
  }

  lemma TailEarly(lines: seq<string>)
    requires lines != []
    ensures TooEarly(lines) <==> if lines[0] == "" then TooEarly(lines[1..]) else !Skipped(lines[0]) && ParseLine(lines[0]).Some?
  {
    hide ParseLine;
    var rest := lines[1..];
    if i :| 0 <= i < |lines| && !Skipped(lines[i]) && ParseLine(lines[i]).Some? && forall j :: 0 <= j < i ==> lines[j] == "" {
      if i > 0 {
        assert lines[0] == "" && rest[i - 1] == lines[i];
        assert forall j :: 0 <= j < i - 1 ==> rest[j] == lines[j + 1];
      }
    }
    if lines[0] == "" {
      if i :| 0 <= i < |rest| && !Skipped(rest[i]) && ParseLine(rest[i]).Some? && forall j :: 0 <= j < i ==> rest[j] == "" {
        assert lines[i + 1] == rest[i];
        assert forall j :: 0 < j < i + 1 ==> lines[j] == rest[j - 1];
      }
    }
  }

  /** Once a section is open: `head` are the lines that still belong to it. */
  lemma {:induction false} SectionsOf(lines: seq<string>, acc: seq<Section>, last: Section)
    returns (head: seq<string>, events: Section, texts: seq<seq<string>>, sections: seq<Section>)
    requires !Unreadable(lines)
    ensures ParseBody(lines, acc + [last]) == Loaded(acc + [last + events] + sections)
    ensures Kept(lines) == head + Marked(texts) && AreEvents(head, events)
    ensures |texts| == |sections| && forall i :: 0 <= i < |texts| ==> AreEvents(texts[i], sections[i])
    decreases |lines|
  {
    hide ParseLine, AreEvents, Unreadable;
    NoEvents();
    if lines == [] {
      head, events, texts, sections := [], [], [], [];
      assert last + events == last && acc + [last] + sections == acc + [last];
    } else {
      TailReadable(lines);
      var line, rest := lines[0], lines[1..];
      if line == "" {
        head, events, texts, sections := SectionsOf(rest, acc, last);
      } else if line == "RUN" {
        var h, es, ts, ss := SectionsOf(rest, acc + [last], []);
        head, events, texts, sections := [], [], [h] + ts, [es] + ss;
        assert last + events == last && [] + es == es;
        assert acc + [last] + sections == acc + [last] + [es] + ss;
        MarkerHeads(line, rest, h, ts);
        assert lines == [line] + rest && head + Marked(texts) == Marked(texts);
      } else {
        var e := ParseLine(line).value;
        assert (acc + [last])[|acc| := last + [e]] == acc + [last + [e]];
        head, events, texts, sections := SectionsOf(rest, acc, last + [e]);
        OneMoreEvent(line, head, events);
        head, events := [line] + head, [e] + events;
        assert last + [e] + events[1..] == last + events;
      }
    }
  }

  lemma NoEvents()
    ensures AreEvents([], [])
  {
  }

  lemma OneMoreEvent(line: string, texts: seq<string>, events: Section)
    requires !Skipped(line) && ParseLine(line).Some? && AreEvents(texts, events)
    ensures AreEvents([line] + texts, [ParseLine(line).value] + events)
  {
    hide ParseLine, Skipped;
  }

  /** What the body of any file is: an event before the first marker, a line that is no event,
      or, exactly in all other cases, its sections, each marker opening one, with the events
      of the lines up to the next. */
  lemma {:induction false} BodyMeans(lines: seq<string>)
    ensures ParseBody(lines, []) == EventBeforeRun <==> TooEarly(lines)
    ensures ParseBody(lines, []) == BadLine <==> Unreadable(lines) && !TooEarly(lines)
    ensures ParseBody(lines, []).Loaded? <==> !Unreadable(lines) && !TooEarly(lines)
    ensures ParseBody(lines, []).Loaded? ==> Grouped(lines, ParseBody(lines, []).sections)
    decreases |lines|
  {
    hide ParseLine, AreEvents, TooEarly, Unreadable;
    if lines == [] {
      NothingWrong();
      assert Marked([]) == [];
      NoSections(lines);
    } else {
      TailReadable(lines);
      TailEarly(lines);
      var line, rest := lines[0], lines[1..];
      if line == "" {
        BodyMeans(rest);
      } else if line == "RUN" {
        assert [] + [[]] == NewSection();
        if Unreadable(rest) {
          OpenRefuses(rest, NewSection());
        } else {
          MarkerOpens(line, rest);
        }
      }
    }
  }

  function NewSection(): seq<Section> {
    [[]]
  }

  lemma MarkerOpens(marker: string, rest: seq<string>)
    requires marker == "RUN" && !Unreadable(rest)
    ensures ParseBody(rest, NewSection()).Loaded? && Grouped([marker] + rest, ParseBody(rest, NewSection()).sections)
  {
    hide ParseLine, AreEvents, Unreadable, ParseBody, Kept, Marked;
    var none: seq<Section> := [];
    var h, es, ts, ss := SectionsOf(rest, none, []);
    assert none + [[]] == NewSection();
    assert [] + es == es && none + [es] + ss == [es] + ss;
    MarkerHeads(marker, rest, h, ts);
  }

  lemma MarkerHeads(marker: string, rest: seq<string>, head: seq<string>, texts: seq<seq<string>>)
    requires marker == "RUN" && Kept(rest) == head + Marked(texts)
    ensures Kept([marker] + rest) == Marked([head] + texts)
  {
    assert ([head] + texts)[1..] == texts && ([marker] + rest)[1..] == rest;
    assert [marker] + (head + Marked(texts)) == [marker] + head + Marked(texts);
  }

  lemma NothingWrong()
    ensures !Unreadable([]) && !TooEarly([])
  {
  }

  lemma NoSections(lines: seq<string>)
    requires Kept(lines) == []
    ensures Grouped(lines, [])
  {
    var none: seq<seq<string>> := [];
    assert Kept(lines) == Marked(none);
  }

  lemma {:induction false} OpenRefuses(lines: seq<string>, acc: seq<Section>)
    requires Unreadable(lines) && acc != []
    ensures ParseBody(lines, acc) == BadLine
    decreases |lines|
  {
    hide ParseLine;
    TailReadable(lines);
    if Skipped(lines[0]) || ParseLine(lines[0]).Some? {
      var next := if lines[0] == "" then acc else if lines[0] == "RUN" then acc + [[]]
                  else acc[|acc| - 1 := acc[|acc| - 1] + [ParseLine(lines[0]).value]];
      OpenRefuses(lines[1..], next);
    }
  }

  /** The first word that gives a batch gives this one. */
  ghost predicate GivesBatch(f: seq<string>, batch: nat) {
    exists k :: 0 <= k < |f| && "batch=" <= f[k] && DecimalWord(f[k][6..], batch) && forall j :: 0 <= j < k ==> !("batch=" <= f[j])
  }

  /** The words of the first line: name, version, and later the batch. */
  ghost predicate HeaderFor(f: seq<string>, batch: nat) {
    |f| >= 2 && f[0] == "qn-wake-log" && f[1] == "v1" && batch < U32 && GivesBatch(f[2..], batch)
  }

  lemma {:induction false} FirstBatch(f: seq<string>, batch: nat)
    ensures FindBatch(f) == Some(batch) <==> batch < U32 && GivesBatch(f, batch)
    decreases |f|
  {
    hide ParseInt, DecimalWord;
    if f != [] {
      var rest := f[1..];
      FirstBatch(rest, batch);
      if "batch=" <= f[0] {
        ReadsDecimalWord(f[0][6..], batch, U32);
      } else {
        if k :| 0 <= k < |f| && "batch=" <= f[k] && DecimalWord(f[k][6..], batch) && forall j :: 0 <= j < k ==> !("batch=" <= f[j]) {
          assert rest[k - 1] == f[k] && forall j :: 0 <= j < k - 1 ==> rest[j] == f[j + 1];
        }
        if k :| 0 <= k < |rest| && "batch=" <= rest[k] && DecimalWord(rest[k][6..], batch) && forall j :: 0 <= j < k ==> !("batch=" <= rest[j]) {
          assert f[k + 1] == rest[k] && forall j :: 0 < j < k + 1 ==> f[j] == rest[j - 1];
        }
      }
    }
  }

  /** Which texts load, and as what: those with the header of this batch in which every
      further line is empty, a marker, or an event after a marker. */
  lemma TextMeans(text: string, batch: nat)
    ensures ParseText(text, batch).Loaded? <==>
            (Lines(text) != [] && HeaderFor(Words(Lines(text)[0], Ascii), batch) &&
            !Unreadable(Lines(text)[1..]) && !TooEarly(Lines(text)[1..]))
    ensures ParseText(text, batch).Loaded? ==> Grouped(Lines(text)[1..], ParseText(text, batch).sections)
  {
    hide ParseBody, Words, Lines, Unreadable, TooEarly, Grouped, GivesBatch, FindBatch;
    var lines := Lines(text);
    if lines == [] {
      NoWords();
    } else {
      BodyMeans(lines[1..]);
      var f := Words(lines[0], Ascii);
      if |f| >= 2 {
        FirstBatch(f[2..], batch);
      }
    }
  }

  lemma NoWords()
    ensures Words("", Ascii) == []
  {
  }
}
