/** Rich-style markup compiled to SGR sequences (src/ansi_colorizer.rs). */
module Markup {
  import opened Wrappers
  import opened Numerals
  import opened Tokens
  import opened Terminal

  // ---- Spans ---------------------------------------------------------------------------

  /** A span's own attributes, or, on the style stack, everything merged so far.
      The source keeps the rendered fragments; `ColorCodes` renders them here. */
  datatype Span = Span(fg: Option<Color>, bg: Option<Color>, flags: seq<nat>)

  const NoSpan: Span := Span(None, None, [])

  predicate FlagCode(f: nat) {
    1 <= f <= 7 || f == 9 || f == 21
  }

  predicate ColorOk(c: Color) {
    match c
    case Palette(i) => i < 16
    case Rgb(r, g, b) => r < 256 && g < 256 && b < 256
  }

  ghost predicate SpanOk(s: Span) {
    (s.fg.Some? ==> ColorOk(s.fg.value)) && (s.bg.Some? ==> ColorOk(s.bg.value)) &&
    (forall i :: 0 <= i < |s.flags| ==> FlagCode(s.flags[i])) && Distinct(s.flags)
  }

  function AddFlag(flags: seq<nat>, f: nat): seq<nat> {
    if f in flags then flags else flags + [f]
  }

  function AddFlags(flags: seq<nat>, more: seq<nat>): seq<nat>
    decreases |more|
  {
    if more == [] then flags else AddFlags(AddFlag(flags, more[0]), more[1..])
  }

  function Merged(outer: Span, tag: Span): Span {
    Span(if tag.fg.Some? then tag.fg else outer.fg,
         if tag.bg.Some? then tag.bg else outer.bg,
         AddFlags(outer.flags, tag.flags))
  }

  /** src/ansi_colorizer.rs:41-53. */
  method MergedWith(outer: Span, tag: Span) returns (r: Span)
    ensures r == Merged(outer, tag)
  {
    var flags := outer.flags;
    for i := 0 to |tag.flags|
      invariant AddFlags(flags, tag.flags[i..]) == AddFlags(outer.flags, tag.flags)
    {
      assert tag.flags[i..][0] == tag.flags[i] && tag.flags[i..][1..] == tag.flags[i + 1..];
      if tag.flags[i] !in flags {
        flags := flags + [tag.flags[i]];
      }
    }
    r := Span(if tag.fg.Some? then tag.fg else outer.fg, if tag.bg.Some? then tag.bg else outer.bg, flags);
  }

  function ColorCodes(c: Color, bg: bool): seq<nat> {
    match c
    case Palette(i) =>
      if i < 8 then [(if bg then 40 else 30) + i] else [(if bg then 100 else 90) + (i - 8)]
    case Rgb(r, g, b) => [if bg then 48 else 38, 2, r, g, b]
  }

  function OptionCodes(c: Option<Color>, bg: bool): seq<nat> {
    if c.Some? then ColorCodes(c.value, bg) else []
  }

  function SpanCodes(s: Span): seq<nat> {
    s.flags + OptionCodes(s.fg, false) + OptionCodes(s.bg, true)
  }

  /** The sequence that establishes a span; nothing for the root state. */
  function Sgr(s: Span): string {
    if SpanCodes(s) == [] then "" else Sequence(Joined(SpanCodes(s)))
  }

  const ResetAll: string := Sequence("0;00;22;39;49")

  // ---- Tags ------------------------------------------------------------------------------

  function StyleFlag(tok: string): Option<nat> {
    if tok == "bold" then Some(1)
    else if tok == "dim" then Some(2)
    else if tok == "italic" then Some(3)
    else if tok == "underline" then Some(4)
    else if tok == "underline2" then Some(21)
    else if tok == "blink" then Some(5)
    else if tok == "blink2" then Some(6)
    else if tok == "reverse" then Some(7)
    else if tok == "strike" then Some(9)
    else None
  }

  function HueOf(name: string): Option<nat> {
    if name == "black" then Some(0)
    else if name == "red" then Some(1)
    else if name == "green" then Some(2)
    else if name == "yellow" then Some(3)
    else if name == "blue" then Some(4)
    else if name == "magenta" then Some(5)
    else if name == "cyan" then Some(6)
    else if name == "white" then Some(7)
    else None
  }

  function HexColor(hex: string): Option<Color> {
    if |hex| != 6 then None
    else
      var r, g, b := Numeral(hex[0..2], 16), Numeral(hex[2..4], 16), Numeral(hex[4..6], 16);
      if r.Some? && g.Some? && b.Some? then Some(Rgb(r.value, g.value, b.value)) else None
  }

  function NamedColor(tok: string): Option<Color> {
    var full := if tok == "gray" || tok == "grey" then "bright-black" else tok;
    var bright := "bright-" <= full;
    var hue := HueOf(if bright then full[7..] else full);
    if hue.None? then None else Some(Palette(hue.value + (if bright then 8 else 0)))
  }

  function ColorOf(tok: string): Option<Color> {
    if |tok| > 0 && tok[0] == '#' then HexColor(tok[1..]) else NamedColor(tok)
  }

  datatype Tag = OpenTag(span: Span) | CloseTag

  /** The attributes read from the words of a tag, added to `span`. */
  function ReadAttributes(toks: seq<string>, span: Span): Option<Span>
    decreases |toks|
  {
    if toks == [] then Some(span)
    else if toks[0] == "on" then
      if |toks| < 2 then None
      else
        var c := ColorOf(toks[1]);
        if c.None? then None else ReadAttributes(toks[2..], span.(bg := c))
    else if StyleFlag(toks[0]).Some? then
      ReadAttributes(toks[1..], span.(flags := AddFlag(span.flags, StyleFlag(toks[0]).value)))
    else
      var c := ColorOf(toks[0]);
      if c.None? then None else ReadAttributes(toks[1..], span.(fg := c))
  }

  function TrimStart(s: string): string
    decreases |s|
  {
    if s != [] && IsSpace(s[0], Unicode) then TrimStart(s[1..]) else s
  }

  function TrimEnd(s: string): string
    decreases |s|
  {
    if s != [] && IsSpace(s[|s| - 1], Unicode) then TrimEnd(s[..|s| - 1]) else s
  }

  function TagOf(content: string): Option<Tag> {
    if '\n' in content then None
    else
      var body := TrimEnd(TrimStart(content));
      if body == "/" then Some(CloseTag)
      else if body == "" then None
      else
        var span := ReadAttributes(Words(body, Unicode), NoSpan);
        if span.None? then None else Some(OpenTag(span.value))
  }

  /** src/ansi_colorizer.rs:134-161. */
  method ParseTag(content: string) returns (tag: Option<Tag>)
    ensures tag == TagOf(content)
  {
    if '\n' in content {
      return None;
    }
    var body := TrimEnd(TrimStart(content));
    if body == "/" {
      return Some(CloseTag);
    }
    if body == "" {
      return None;
    }
    var toks := Words(body, Unicode);
    var span := NoSpan;
    var i := 0;
    while i < |toks|
      invariant 0 <= i <= |toks|
      invariant ReadAttributes(toks[i..], span) == ReadAttributes(toks, NoSpan)
    {
      var tok := toks[i];
      assert toks[i..][0] == tok && toks[i..][1..] == toks[i + 1..];
      if tok == "on" {
        if i + 1 == |toks| {
          return None;
        }
        assert toks[i..][1] == toks[i + 1] && toks[i..][2..] == toks[i + 2..];
        var c := ColorOf(toks[i + 1]);
        if c.None? {
          return None;
        }
        span := span.(bg := c);
        i := i + 2;
      } else {
        var f := StyleFlag(tok);
        if f.Some? {
          span := span.(flags := AddFlag(span.flags, f.value));
        } else {
          var c := ColorOf(tok);
          if c.None? {
            return None;
          }
          span := span.(fg := c);
        }
        i := i + 1;
      }
    }
    tag := Some(OpenTag(span));
  }

  // ---- Compiling ---------------------------------------------------------------------------

  function Find(s: string, c: char): (n: nat)
    ensures n <= |s|
    ensures forall i :: 0 <= i < n ==> s[i] != c
    ensures n < |s| ==> s[n] == c
    decreases |s|
  {
    if s == [] || s[0] == c then 0 else 1 + Find(s[1..], c)
  }

  /** A text as markup reads it. */
  datatype Piece = Text(c: char) | Open(span: Span) | Close

  /** The tag a bracket starts, given the text after the bracket. */
  function TagAfter(after: string): Option<Tag> {
    var close := Find(after, ']');
    if close < |after| then TagOf(after[..close]) else None
  }

  function PieceOf(tag: Tag): Piece {
    match tag
    case OpenTag(span) => Open(span)
    case CloseTag => Close
  }

  function Pieces(s: string): seq<Piece>
    decreases |s|
  {
    if s == [] then []
    else if s[0] != '[' then [Text(s[0])] + Pieces(s[1..])
    else if |s| > 1 && s[1] == '[' then [Text('[')] + Pieces(s[2..])
    else
      var after := s[1..];
      var tag := TagAfter(after);
      if tag.Some? then [PieceOf(tag.value)] + Pieces(after[Find(after, ']') + 1..])
      else [Text('[')] + Pieces(after)
  }

  function Top(stack: seq<Span>): Span {
    if stack == [] then NoSpan else stack[|stack| - 1]
  }

  function Popped<T>(stack: seq<T>): seq<T> {
    if stack == [] then [] else stack[..|stack| - 1]
  }

  /** The style stack after a piece; it holds merged spans. */
  function StackAfter(p: Piece, stack: seq<Span>): seq<Span> {
    match p
    case Text(_) => stack
    case Open(tag) => stack + [Merged(Top(stack), tag)]
    case Close => Popped(stack)
  }

  function Emit(p: Piece, stack: seq<Span>): string {
    match p
    case Text(c) => [c]
    case Open(tag) => Sgr(tag)
    case Close => ResetAll + Sgr(Top(Popped(stack)))
  }

  function Render(pieces: seq<Piece>, stack: seq<Span>): string
    decreases |pieces|
  {
    if pieces == [] then (if stack == [] then "" else ResetAll)
    else Emit(pieces[0], stack) + Render(pieces[1..], StackAfter(pieces[0], stack))
  }

  function Colorized(text: string): string {
    Render(Pieces(text), [])
  }

  lemma RenderCons(p: Piece, rest: seq<Piece>, stack: seq<Span>)
    ensures Render([p] + rest, stack) == Emit(p, stack) + Render(rest, StackAfter(p, stack))
  {
    assert ([p] + rest)[1..] == rest;
  }

  lemma {:induction false} RenderPlain(s: string, n: nat, stack: seq<Span>)
    requires n <= |s| && forall i :: 0 <= i < n ==> s[i] != '['
    ensures Render(Pieces(s), stack) == s[..n] + Render(Pieces(s[n..]), stack)
    decreases n
  {
    hide Render;
    if n == 0 {
      assert s[..0] == [] && s[0..] == s;
    } else {
      RenderPlain(s[1..], n - 1, stack);
      RenderCons(Text(s[0]), Pieces(s[1..]), stack);
      assert s[1..][n - 1..] == s[n..] && [s[0]] + s[1..][..n - 1] == s[..n];
    }
  }

  /** One turn of the loop keeps what is written and what is still to come together. */
  lemma TurnKeeps(out: string, here: string, p: Piece, next: string, stack: seq<Span>, whole: string)
    requires Pieces(here) == [p] + Pieces(next)
    requires out + Render(Pieces(here), stack) == whole
    ensures out + Emit(p, stack) + Render(Pieces(next), StackAfter(p, stack)) == whole
  {
    hide Pieces, Render, Emit, StackAfter;
    RenderCons(p, Pieces(next), stack);
  }

  lemma CopyKeeps(out: string, rest: string, n: nat, stack: seq<Span>, whole: string)
    requires n <= |rest| && (forall i :: 0 <= i < n ==> rest[i] != '[')
    requires out + Render(Pieces(rest), stack) == whole
    ensures out + rest[..n] + Render(Pieces(rest[n..]), stack) == whole
  {
    hide Pieces, Render;
    RenderPlain(rest, n, stack);
  }

  lemma EscapedBracket(s: string)
    requires |s| > 1 && s[0] == '[' && s[1] == '['
    ensures Pieces(s) == [Text('[')] + Pieces(s[2..])
  {
  }

  lemma Bracket(s: string)
    requires |s| > 0 && s[0] == '[' && !(|s| > 1 && s[1] == '[')
    ensures TagAfter(s[1..]).None? ==> Pieces(s) == [Text('[')] + Pieces(s[1..])
    ensures TagAfter(s[1..]).Some? ==>
              var close := Find(s[1..], ']');
              close < |s| - 1 && Pieces(s) == [PieceOf(TagAfter(s[1..]).value)] + Pieces(s[1..][close + 1..])
  {
    hide TagOf;
  }

  /** The arms for a bracket that is not doubled (src/ansi_colorizer.rs:182-209). */
  method AtBracket(here: string, styles: seq<Span>, written: string, ghost whole: string)
    returns (out: string, stack: seq<Span>, rest: string)
    requires |here| > 0 && here[0] == '[' && !(|here| > 1 && here[1] == '[')
    requires written + Render(Pieces(here), styles) == whole
    ensures out + Render(Pieces(rest), stack) == whole && |rest| < |here|
  {
    hide Render, Pieces, TagOf, Sgr, Merged, Top, Popped;
    out, stack := written, styles;
    var after := here[1..];
    Bracket(here);
    var close := Find(after, ']');
    var tag: Option<Tag> := None;
    if close < |after| {
      tag := ParseTag(after[..close]);
    }
    if tag.None? {
      TurnKeeps(out, here, Text('['), after, stack, whole);
      out := out + "[";
      rest := after;
    } else {
      rest := after[close + 1..];
      TurnKeeps(out, here, PieceOf(tag.value), rest, stack, whole);
      match tag.value {
        case OpenTag(span) =>
          out := out + Sgr(span);
          var merged := MergedWith(Top(stack), span);
          stack := stack + [merged];
        case CloseTag =>
          stack := Popped(stack);
          out := out + ResetAll + Sgr(Top(stack));
      }
    }
  }

  /** src/ansi_colorizer.rs:167-216. */
  method Colorize(text: string) returns (out: string)
    ensures out == Colorized(text)
  {
    hide Render, Pieces, TagOf, Sgr, Merged, Top, Popped;
    out := "";
    var stack: seq<Span> := [];
    var rest := text;
    var pos := Find(rest, '[');
    while pos < |rest|
      invariant pos == Find(rest, '[')
      invariant out + Render(Pieces(rest), stack) == Colorized(text)
      decreases |rest|
    {
      CopyKeeps(out, rest, pos, stack, Colorized(text));
      out := out + rest[..pos];
      var here := rest[pos..];
      var after := rest[pos + 1..];
      assert here[1..] == after;
      if |after| > 0 && after[0] == '[' {
        assert here[2..] == after[1..];
        EscapedBracket(here);
        TurnKeeps(out, here, Text('['), after[1..], stack, Colorized(text));
        out := out + "[";
        rest := after[1..];
      } else {
        out, stack, rest := AtBracket(here, stack, out, Colorized(text));
      }
      pos := Find(rest, '[');
    }
    CopyKeeps(out, rest, |rest|, stack, Colorized(text));
    RenderEnd(stack);
    assert rest[..|rest|] == rest && rest[|rest|..] == [];
    out := out + rest;
    if stack != [] {
      out := out + ResetAll;
    }
  }

  lemma RenderEnd(stack: seq<Span>)
    ensures Render(Pieces([]), stack) == if stack == [] then "" else ResetAll
  {
  }

  // ---- Escaping and stripping ------------------------------------------------------------------

  function Escape(s: string): string {
    if s == [] then "" else (if s[0] == '[' then "[[" else [s[0]]) + Escape(s[1..])
  }

  function LazyLength(s: string): (n: nat)
    ensures n <= |s|
    ensures forall i :: 0 <= i < n ==> s[i] != 'm' && s[i] != '\n'
    ensures n < |s| ==> s[n] == 'm' || s[n] == '\n'
    decreases |s|
  {
    if s == [] || s[0] == 'm' || s[0] == '\n' then 0 else 1 + LazyLength(s[1..])
  }

  /** Length of a match of `ESC [ .*? m` at the front, 0 if there is none. */
  function StripLength(s: string): (n: nat)
    ensures n <= |s|
  {
    if |s| < 2 || s[0] != ESC || s[1] != '[' then 0
    else
      var k := LazyLength(s[2..]);
      if 2 + k < |s| && s[2 + k] == 'm' then 3 + k else 0
  }

  function Decolorize(s: string): string
    decreases |s|
  {
    if s == [] then ""
    else if StripLength(s) > 0 then Decolorize(s[StripLength(s)..])
    else [s[0]] + Decolorize(s[1..])
  }
}
