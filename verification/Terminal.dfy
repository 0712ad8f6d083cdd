/** A terminal that reads Select Graphic Rendition sequences (section 8.3.117 of
    ECMA-48, with the direct-colour and bright-palette extensions), under the
    cumulative rendition mode: attributes add up until one is switched off. */
module Terminal {
  import opened Wrappers
  import opened Numerals

  const ESC: char := '\U{1B}'

  datatype Color = Palette(index: nat) | Rgb(r: nat, g: nat, b: nat)

  /** None is the terminal's default colour. */
  datatype Style = Style(fg: Option<Color>, bg: Option<Color>, flags: set<nat>)

  const DefaultStyle: Style := Style(None, None, {})

  datatype Cell = Cell(c: char, style: Style)

  datatype Screen = Screen(cells: seq<Cell>, style: Style)

  // ---- Control sequences ---------------------------------------------------------

  predicate ParamChar(c: char) {
    '0' <= c <= '9' || c == ';'
  }

  ghost predicate ParamText(s: string) {
    forall i :: 0 <= i < |s| ==> ParamChar(s[i])
  }

  function ParamLength(s: string): (n: nat)
    ensures n <= |s|
    ensures forall i :: 0 <= i < n ==> ParamChar(s[i])
    ensures n < |s| ==> !ParamChar(s[n])
    decreases |s|
  {
    if s == [] || !ParamChar(s[0]) then 0 else 1 + ParamLength(s[1..])
  }

  /** Length of the SGR sequence that `s` starts with, 0 if there is none. */
  function SequenceLength(s: string): (n: nat)
    ensures n <= |s| && (n == 0 || n >= 3)
  {
    if |s| < 2 || s[0] != ESC || s[1] != '[' then 0
    else
      var k := ParamLength(s[2..]);
      if 2 + k < |s| && s[2 + k] == 'm' then 3 + k else 0
  }

  function FieldLength(s: string): (n: nat)
    ensures n <= |s|
    ensures forall i :: 0 <= i < n ==> s[i] != ';'
    ensures n < |s| ==> s[n] == ';'
    decreases |s|
  {
    if s == [] || s[0] == ';' then 0 else 1 + FieldLength(s[1..])
  }

  /** A missing parameter is 0. */
  function FieldValue(s: string): nat {
    var v := Numeral(s, 10);
    if v.Some? then v.value else 0
  }

  function Params(s: string): (r: seq<nat>)
    ensures |r| > 0
    decreases |s|
  {
    var n := FieldLength(s);
    [FieldValue(s[..n])] + (if n < |s| then Params(s[n + 1..]) else [])
  }

  // ---- Rendition -------------------------------------------------------------------

  function ApplyCode(code: nat, st: Style): Style {
    if code == 0 then DefaultStyle
    else if 1 <= code <= 9 || code == 21 then st.(flags := st.flags + {code})
    else if code == 22 then st.(flags := st.flags - {1, 2})
    else if code == 23 then st.(flags := st.flags - {3})
    else if code == 24 then st.(flags := st.flags - {4, 21})
    else if code == 25 then st.(flags := st.flags - {5, 6})
    else if code == 27 then st.(flags := st.flags - {7})
    else if code == 28 then st.(flags := st.flags - {8})
    else if code == 29 then st.(flags := st.flags - {9})
    else if 30 <= code <= 37 then st.(fg := Some(Palette(code - 30)))
    else if code == 39 then st.(fg := None)
    else if 40 <= code <= 47 then st.(bg := Some(Palette(code - 40)))
    else if code == 49 then st.(bg := None)
    else if 90 <= code <= 97 then st.(fg := Some(Palette(code - 90 + 8)))
    else if 100 <= code <= 107 then st.(bg := Some(Palette(code - 100 + 8)))
    else st
  }

  function ApplyCodes(codes: seq<nat>, st: Style): Style
    decreases |codes|
  {
    if codes == [] then st
    else if |codes| >= 5 && (codes[0] == 38 || codes[0] == 48) && codes[1] == 2 then
      var color := Some(Rgb(codes[2], codes[3], codes[4]));
      ApplyCodes(codes[5..], if codes[0] == 38 then st.(fg := color) else st.(bg := color))
    else ApplyCodes(codes[1..], ApplyCode(codes[0], st))
  }

  /** What the terminal shows for `s`, starting in style `st`. */
  function Show(s: string, st: Style): Screen
    decreases |s|
  {
    if s == [] then Screen([], st)
    else
      var n := SequenceLength(s);
      if n > 0 then Show(s[n..], ApplyCodes(Params(s[2..n - 1]), st))
      else
        var more := Show(s[1..], st);
        Screen([Cell(s[0], st)] + more.cells, more.style)
  }

  lemma ShowChar(c: char, rest: string, st: Style)
    requires c != ESC
    ensures Show([c] + rest, st)
            == Screen([Cell(c, st)] + Show(rest, st).cells, Show(rest, st).style)
  {
    assert ([c] + rest)[1..] == rest;
  }

  /** A written sequence: introducer, parameters, final byte. */
  function Sequence(params: string): string {
    [ESC, '['] + params + "m"
  }

  lemma SequenceFound(params: string, rest: string)
    requires ParamText(params)
    ensures SequenceLength(Sequence(params) + rest) == |params| + 3
    ensures (Sequence(params) + rest)[2..|params| + 2] == params
    ensures (Sequence(params) + rest)[|params| + 3..] == rest
  {
    var s := Sequence(params) + rest;
    assert s[2..] == params + ("m" + rest);
    var tail := s[2..];
    assert forall i :: 0 <= i < |params| ==> tail[i] == params[i];
    assert tail[|params|] == 'm';
    assert ParamLength(tail) == |params|;
  }

  lemma ShowSequence(params: string, rest: string, st: Style)
    requires ParamText(params)
    ensures Show(Sequence(params) + rest, st) == Show(rest, ApplyCodes(Params(params), st))
  {
    hide SequenceLength, Params, ApplyCodes, ParamText, Sequence;
    SequenceFound(params, rest);
  }

  // ---- Parameter lists ---------------------------------------------------------------

  /** The decimal parameters, joined with semicolons. */
  function Joined(codes: seq<nat>): string {
    if codes == [] then ""
    else if |codes| == 1 then Decimal(codes[0])
    else Decimal(codes[0]) + ";" + Joined(codes[1..])
  }

  lemma LastField(s: string)
    requires ';' !in s
    ensures Params(s) == [FieldValue(s)]
  {
    assert FieldLength(s) == |s| && s[..|s|] == s;
  }

  lemma NextField(field: string, rest: string)
    requires ';' !in field
    ensures Params(field + ";" + rest) == [FieldValue(field)] + Params(rest)
  {
    var s := field + ";" + rest;
    assert forall i :: 0 <= i < |field| ==> s[i] == field[i];
    assert s[|field|] == ';';
    var n := FieldLength(s);
    assert n == |field| && s[..n] == field && s[n + 1..] == rest;
  }

  lemma DecimalField(n: nat)
    ensures FieldValue(Decimal(n)) == n && ';' !in Decimal(n) && ParamText(Decimal(n))
  {
    DecimalRoundTrip(n);
    var s := Decimal(n);
    forall i | 0 <= i < |s| ensures ParamChar(s[i]) && s[i] != ';' {
      assert DigitValue(s[i]).Some?;
    }
  }

  lemma {:induction false} JoinedRoundTrip(codes: seq<nat>)
    requires codes != []
    ensures Params(Joined(codes)) == codes && ParamText(Joined(codes))
    decreases |codes|
  {
    hide Params, Decimal, FieldValue;
    DecimalField(codes[0]);
    if |codes| == 1 {
      LastField(Decimal(codes[0]));
    } else {
      JoinedRoundTrip(codes[1..]);
      NextField(Decimal(codes[0]), Joined(codes[1..]));
    }
  }
}
