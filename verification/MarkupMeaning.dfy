/** Compiling markup preserves its meaning: on a terminal every visible character
    appears in the style of its enclosing spans, and stripping the sequences
    leaves exactly the visible text. */
module MarkupMeaning {
  import opened Wrappers
  import opened Numerals
  import opened Tokens
  import opened Terminal
  import opened Markup

  // ---- The meaning of markup ---------------------------------------------------------

  function FlagSet(flags: seq<nat>): set<nat> {
    set f | f in flags
  }

  /** A span inside style `st`: its colours replace, its flags add up. */
  function Over(st: Style, s: Span): Style {
    Style(if s.fg.Some? then s.fg else st.fg, if s.bg.Some? then s.bg else st.bg, st.flags + FlagSet(s.flags))
  }

  /** The style inside the spans `open`, outermost first. */
  function StyleOf(open: seq<Span>): Style {
    if open == [] then DefaultStyle else Over(StyleOf(open[..|open| - 1]), open[|open| - 1])
  }

  function OpenAfter(p: Piece, open: seq<Span>): seq<Span> {
    match p
    case Text(_) => open
    case Open(tag) => open + [tag]
    case Close => Popped(open)
  }

  /** Every visible character with the style of the spans around it. */
  function Meaning(pieces: seq<Piece>, open: seq<Span>): seq<Cell>
    decreases |pieces|
  {
    if pieces == [] then []
    else
      (if pieces[0].Text? then [Cell(pieces[0].c, StyleOf(open))] else []) +
      Meaning(pieces[1..], OpenAfter(pieces[0], open))
  }

  function Visible(pieces: seq<Piece>): string
    decreases |pieces|
  {
    if pieces == [] then "" else (if pieces[0].Text? then [pieces[0].c] else "") + Visible(pieces[1..])
  }

  // ---- Spans and codes -----------------------------------------------------------------

  lemma {:induction false} AddFlagsSet(flags: seq<nat>, more: seq<nat>)
    ensures FlagSet(AddFlags(flags, more)) == FlagSet(flags) + FlagSet(more)
    decreases |more|
  {
    if more == [] {
      assert FlagSet(more) == {};
    } else {
      AddFlagsSet(AddFlag(flags, more[0]), more[1..]);
      assert FlagSet(AddFlag(flags, more[0])) == FlagSet(flags) + {more[0]};
      assert more == [more[0]] + more[1..];
      assert FlagSet(more) == {more[0]} + FlagSet(more[1..]);
    }
  }

  /** Merging two spans is opening one inside the other. */
  lemma MergedIsNested(st: Style, outer: Span, tag: Span)
    ensures Over(st, Merged(outer, tag)) == Over(Over(st, outer), tag)
  {
    AddFlagsSet(outer.flags, tag.flags);
  }

  lemma {:induction false} AddFlagsOk(flags: seq<nat>, more: seq<nat>)
    requires Distinct(flags)
    requires forall i :: 0 <= i < |flags| ==> FlagCode(flags[i])
    requires forall i :: 0 <= i < |more| ==> FlagCode(more[i])
    ensures Distinct(AddFlags(flags, more))
    ensures forall i :: 0 <= i < |AddFlags(flags, more)| ==> FlagCode(AddFlags(flags, more)[i])
    decreases |more|
  {
    hide FlagCode;
    if more != [] {
      AddFlagsOk(AddFlag(flags, more[0]), more[1..]);
    }
  }

  lemma MergedOk(outer: Span, tag: Span)
    requires SpanOk(outer) && SpanOk(tag)
    ensures SpanOk(Merged(outer, tag))
  {
    AddFlagsOk(outer.flags, tag.flags);
  }

  lemma {:induction false} FlagsApply(flags: seq<nat>, rest: seq<nat>, st: Style)
    requires forall i :: 0 <= i < |flags| ==> FlagCode(flags[i])
    ensures ApplyCodes(flags + rest, st) == ApplyCodes(rest, st.(flags := st.flags + FlagSet(flags)))
    decreases |flags|
  {
    if flags == [] {
      assert flags + rest == rest && st.flags + FlagSet(flags) == st.flags;
    } else {
      var f := flags[0];
      assert (flags + rest)[1..] == flags[1..] + rest;
      assert FlagCode(f);
      FlagsApply(flags[1..], rest, st.(flags := st.flags + {f}));
      assert flags == [f] + flags[1..];
      assert st.flags + {f} + FlagSet(flags[1..]) == st.flags + FlagSet(flags);
    }
  }

  lemma OneCode(code: nat, rest: seq<nat>, st: Style)
    requires code != 38 && code != 48
    ensures ApplyCodes([code] + rest, st) == ApplyCodes(rest, ApplyCode(code, st))
  {
    hide ApplyCode;
    assert ([code] + rest)[1..] == rest;
  }

  lemma DirectColor(bg: bool, r: nat, g: nat, b: nat, rest: seq<nat>, st: Style)
    ensures ApplyCodes([if bg then 48 else 38, 2, r, g, b] + rest, st)
            == ApplyCodes(rest, if bg then st.(bg := Some(Rgb(r, g, b))) else st.(fg := Some(Rgb(r, g, b))))
  {
    hide ApplyCode;
    assert ([if bg then 48 else 38, 2, r, g, b] + rest)[5..] == rest;
  }

  lemma ColorApplies(c: Color, bg: bool, rest: seq<nat>, st: Style)
    requires ColorOk(c)
    ensures ApplyCodes(ColorCodes(c, bg) + rest, st)
            == ApplyCodes(rest, if bg then st.(bg := Some(c)) else st.(fg := Some(c)))
  {
    hide ApplyCodes;
    match c {
      case Palette(_) => OneCode(ColorCodes(c, bg)[0], rest, st);
      case Rgb(r, g, b) => DirectColor(bg, r, g, b, rest, st);
    }
  }

  /** The codes of a span, applied to any style, put the span inside it. */
  lemma CodesMean(s: Span, st: Style)
    requires SpanOk(s)
    ensures ApplyCodes(SpanCodes(s), st) == Over(st, s)
  {
    hide ApplyCodes, ColorCodes, ColorOk, FlagCode, Distinct;
    var fg, bg := OptionCodes(s.fg, false), OptionCodes(s.bg, true);
    var st1 := st.(flags := st.flags + FlagSet(s.flags));
    assert SpanCodes(s) == s.flags + (fg + bg);
    FlagsApply(s.flags, fg + bg, st);
    var st2 := if s.fg.Some? then st1.(fg := s.fg) else st1;
    if s.fg.Some? {
      ColorApplies(s.fg.value, false, bg, st1);
    } else {
      assert fg + bg == bg;
    }
    if s.bg.Some? {
      ColorApplies(s.bg.value, true, [], st2);
      assert bg + [] == bg;
    }
    NoCodes(if s.bg.Some? then st2.(bg := s.bg) else st2);
  }

  lemma NoCodes(st: Style)
    ensures ApplyCodes([], st) == st
  {
  }

  lemma ShowSgr(s: Span, rest: string, st: Style)
    requires SpanOk(s)
    ensures Show(Sgr(s) + rest, st) == Show(rest, Over(st, s))
  {
    hide Show, ApplyCodes, SpanOk, SpanCodes, Sequence, Over, Joined, ParamText;
    CodesMean(s, st);
    if SpanCodes(s) == [] {
      NoCodes(st);
      assert "" + rest == rest;
    } else {
      JoinedRoundTrip(SpanCodes(s));
      ShowSequence(Joined(SpanCodes(s)), rest, st);
    }
  }

  lemma ResetFields()
    ensures FieldValue("0") == 0 && FieldValue("00") == 0 && FieldValue("22") == 22
    ensures FieldValue("39") == 39 && FieldValue("49") == 49
  {
    assert Numeral("0", 10) == Some(0) && Numeral("2", 10) == Some(2) by { assert "0"[..0] == [] && "2"[..0] == []; }
    assert Numeral("3", 10) == Some(3) && Numeral("4", 10) == Some(4) by { assert "3"[..0] == [] && "4"[..0] == []; }
    assert "00"[..1] == "0" && "22"[..1] == "2" && "39"[..1] == "3" && "49"[..1] == "4";
  }

  lemma ResetParams()
    ensures Params("0;00;22;39;49") == [0, 0, 22, 39, 49] && ParamText("0;00;22;39;49")
  {
    hide Params, FieldValue;
    ResetFields();
    LastField("49");
    NextField("39", "49");
    NextField("22", "39;49");
    NextField("00", "22;39;49");
    NextField("0", "00;22;39;49");
    assert "39" + ";" + "49" == "39;49";
    assert "22" + ";" + "39;49" == "22;39;49";
    assert "00" + ";" + "22;39;49" == "00;22;39;49";
    assert "0" + ";" + "00;22;39;49" == "0;00;22;39;49";
  }

  lemma ShowReset(rest: string, st: Style)
    ensures Show(ResetAll + rest, st) == Show(rest, DefaultStyle)
  {
    hide Show, Params, Sequence;
    ResetParams();
    ShowSequence("0;00;22;39;49", rest, st);
    ResetCodes(st);
  }

  lemma ResetCodes(st: Style)
    ensures ApplyCodes([0, 0, 22, 39, 49], st) == DefaultStyle
  {
    assert [0, 0, 22, 39, 49][1..] == [0, 22, 39, 49];
    assert [0, 22, 39, 49][1..] == [22, 39, 49];
    assert [22, 39, 49][1..] == [39, 49];
    assert [39, 49][1..] == [49];
    assert [49][1..] == [];
  }

  // ---- The simulation ----------------------------------------------------------------------

  ghost predicate PieceOk(p: Piece) {
    (p.Text? ==> p.c != ESC) && (p.Open? ==> SpanOk(p.span))
  }

  ghost predicate PiecesOk(pieces: seq<Piece>) {
    forall i :: 0 <= i < |pieces| ==> PieceOk(pieces[i])
  }

  ghost predicate Tracked(merged: Span, open: seq<Span>) {
    SpanOk(merged) && Over(DefaultStyle, merged) == StyleOf(open)
  }

  /** Each merged span on the stack establishes the style of the spans up to it. */
  ghost predicate Tracks(stack: seq<Span>, open: seq<Span>) {
    |stack| == |open| && forall i :: 0 <= i < |stack| ==> Tracked(stack[i], open[..i + 1])
  }

  lemma TopTracked(stack: seq<Span>, open: seq<Span>)
    requires Tracks(stack, open)
    ensures Tracked(Top(stack), open)
  {
    if stack != [] {
      assert open[..|stack| - 1 + 1] == open;
      assert Tracked(stack[|stack| - 1], open[..|stack| - 1 + 1]);
    }
  }

  lemma TracksPushed(stack: seq<Span>, open: seq<Span>, tag: Span)
    requires Tracks(stack, open) && SpanOk(tag)
    ensures Tracks(stack + [Merged(Top(stack), tag)], open + [tag])
  {
    hide Tracked, Merged, SpanOk;
    TopTracked(stack, open);
    NestedTracked(Top(stack), open, tag);
    var open' := open + [tag];
    assert open'[..|open'|] == open';
    forall i | 0 <= i < |stack| ensures Tracked(stack[i], open'[..i + 1]) {
      assert open'[..i + 1] == open[..i + 1];
    }
  }

  lemma TracksPopped(stack: seq<Span>, open: seq<Span>)
    requires Tracks(stack, open)
    ensures Tracks(Popped(stack), Popped(open))
  {
    hide Tracked;
    var open' := Popped(open);
    forall i | 0 <= i < |Popped(stack)| ensures Tracked(stack[i], open'[..i + 1]) {
      assert open'[..i + 1] == open[..i + 1];
    }
  }

  lemma TracksAfter(p: Piece, stack: seq<Span>, open: seq<Span>)
    requires Tracks(stack, open) && PieceOk(p)
    ensures Tracks(StackAfter(p, stack), OpenAfter(p, open))
  {
    hide Tracks, Merged, SpanOk, Top, Popped;
    match p {
      case Text(_) =>
      case Open(tag) => TracksPushed(stack, open, tag);
      case Close => TracksPopped(stack, open);
    }
  }

  lemma NestedTracked(merged: Span, open: seq<Span>, tag: Span)
    requires Tracked(merged, open) && SpanOk(tag)
    ensures Tracked(Merged(merged, tag), open + [tag])
    ensures StyleOf(open + [tag]) == Over(StyleOf(open), tag)
  {
    hide Merged, Over, SpanOk;
    MergedOk(merged, tag);
    MergedIsNested(DefaultStyle, merged, tag);
    assert (open + [tag])[..|open|] == open;
  }

  /** After what a piece emits, the terminal is in the style of the spans then open. */
  lemma ShowEmit(p: Piece, rest: string, stack: seq<Span>, open: seq<Span>)
    requires !p.Text? && PieceOk(p) && Tracks(stack, open)
    ensures Show(Emit(p, stack) + rest, StyleOf(open)) == Show(rest, StyleOf(OpenAfter(p, open)))
  {
    hide Show, Sgr, Tracks, SpanOk, Merged, Over, StyleOf;
    TracksAfter(p, stack, open);
    if p.Open? {
      TopTracked(stack, open);
      ShowSgr(p.span, rest, StyleOf(open));
      NestedTracked(Top(stack), open, p.span);
    } else {
      var below := Top(Popped(stack));
      TopTracked(Popped(stack), Popped(open));
      ShowReset(Sgr(below) + rest, StyleOf(open));
      ShowSgr(below, rest, DefaultStyle);
      assert ResetAll + (Sgr(below) + rest) == Emit(p, stack) + rest;
    }
  }

  lemma {:induction false} ShowRender(pieces: seq<Piece>, stack: seq<Span>, open: seq<Span>)
    requires PiecesOk(pieces) && Tracks(stack, open)
    ensures Show(Render(pieces, stack), StyleOf(open)) == Screen(Meaning(pieces, open), DefaultStyle)
    decreases |pieces|
  {
    hide Show, Tracks, Emit, StackAfter, PieceOk, StyleOf;
    if pieces == [] {
      ShowEnd(stack, open);
    } else {
      var p := pieces[0];
      assert PieceOk(p);
      TracksAfter(p, stack, open);
      var more := Render(pieces[1..], StackAfter(p, stack));
      ShowRender(pieces[1..], StackAfter(p, stack), OpenAfter(p, open));
      if p.Text? {
        ShowText(p, more, stack, StyleOf(open));
      } else {
        ShowEmit(p, more, stack, open);
      }
    }
  }

  lemma ShowText(p: Piece, rest: string, stack: seq<Span>, st: Style)
    requires p.Text? && PieceOk(p)
    ensures Show(Emit(p, stack) + rest, st) == Screen([Cell(p.c, st)] + Show(rest, st).cells, Show(rest, st).style)
    ensures StackAfter(p, stack) == stack
  {
    hide Show;
    ShowChar(p.c, rest, st);
  }

  lemma ShowEnd(stack: seq<Span>, open: seq<Span>)
    requires Tracks(stack, open)
    ensures Show(Render([], stack), StyleOf(open)) == Screen([], DefaultStyle)
  {
    if stack != [] {
      ShowReset("", StyleOf(open));
      assert ResetAll + "" == ResetAll;
    }
  }

  // ---- Tags give well-formed spans ----------------------------------------------------------------

  lemma ByteNumeral(s: string)
    requires |s| == 2
    ensures Numeral(s, 16).Some? ==> Numeral(s, 16).value < 256
  {
    assert s[..1][..0] == [];
    assert Numeral(s[..1], 16).Some? ==> Numeral(s[..1], 16).value < 16;
  }

  lemma ColorOfOk(tok: string)
    ensures ColorOf(tok).Some? ==> ColorOk(ColorOf(tok).value)
  {
    if |tok| == 7 {
      ByteNumeral(tok[1..][0..2]);
      ByteNumeral(tok[1..][2..4]);
      ByteNumeral(tok[1..][4..6]);
    }
  }

  lemma {:induction false} AttributesOk(toks: seq<string>, span: Span)
    requires SpanOk(span)
    ensures ReadAttributes(toks, span).Some? ==> SpanOk(ReadAttributes(toks, span).value)
    decreases |toks|
  {
    hide ColorOf;
    if toks != [] {
      ColorOfOk(toks[0]);
      if toks[0] == "on" {
        if |toks| > 1 {
          ColorOfOk(toks[1]);
          if ColorOf(toks[1]).Some? {
            AttributesOk(toks[2..], span.(bg := ColorOf(toks[1])));
          }
        }
      } else if StyleFlag(toks[0]).Some? {
        AttributesOk(toks[1..], span.(flags := AddFlag(span.flags, StyleFlag(toks[0]).value)));
      } else if ColorOf(toks[0]).Some? {
        AttributesOk(toks[1..], span.(fg := ColorOf(toks[0])));
      }
    }
  }

  lemma FlagNests(span: Span, f: nat, st: Style)
    ensures Over(st, span.(flags := AddFlag(span.flags, f))) == Over(Over(st, span), NoSpan.(flags := AddFlag([], f)))
  {
    assert FlagSet(AddFlag(span.flags, f)) == FlagSet(span.flags) + {f};
    assert FlagSet(AddFlag([], f)) == {f};
  }

  lemma ForeNests(span: Span, c: Color, st: Style)
    ensures Over(st, span.(fg := Some(c))) == Over(Over(st, span), NoSpan.(fg := Some(c)))
  {
    assert FlagSet([]) == {};
  }

  lemma BackNests(span: Span, c: Color, st: Style)
    ensures Over(st, span.(bg := Some(c))) == Over(Over(st, span), NoSpan.(bg := Some(c)))
  {
    assert FlagSet([]) == {};
  }

  /** The words of a tag act one after the other: reading them on top of a span
      accepts the same words and means the span with their own tag inside it. */
  lemma {:induction false} AttributesNest(toks: seq<string>, span: Span, st: Style)
    ensures ReadAttributes(toks, span).Some? <==> ReadAttributes(toks, NoSpan).Some?
    ensures ReadAttributes(toks, span).Some? ==>
              Over(st, ReadAttributes(toks, span).value)
              == Over(Over(st, span), ReadAttributes(toks, NoSpan).value)
    decreases |toks|
  {
    hide ColorOf, StyleFlag, Over, AddFlag;
    var inside := Over(st, span);
    if toks == [] {
      NothingInside(inside);
    } else if toks[0] == "on" {
      if |toks| > 1 && ColorOf(toks[1]).Some? {
        var c := ColorOf(toks[1]);
        AttributesNest(toks[2..], span.(bg := c), st);
        AttributesNest(toks[2..], NoSpan.(bg := c), inside);
        BackNests(span, c.value, st);
      }
    } else if StyleFlag(toks[0]).Some? {
      var f := StyleFlag(toks[0]).value;
      AttributesNest(toks[1..], span.(flags := AddFlag(span.flags, f)), st);
      AttributesNest(toks[1..], NoSpan.(flags := AddFlag([], f)), inside);
      FlagNests(span, f, st);
    } else if ColorOf(toks[0]).Some? {
      var c := ColorOf(toks[0]);
      AttributesNest(toks[1..], span.(fg := c), st);
      AttributesNest(toks[1..], NoSpan.(fg := c), inside);
      ForeNests(span, c.value, st);
    }
  }

  lemma NothingInside(st: Style)
    ensures Over(st, NoSpan) == st
  {
    assert FlagSet([]) == {};
  }

  lemma {:induction false} ReadsInTurn(first: seq<string>, second: seq<string>, span: Span)
    requires ReadAttributes(first, span).Some?
    ensures ReadAttributes(first + second, span) == ReadAttributes(second, ReadAttributes(first, span).value)
    decreases |first|
  {
    hide ColorOf, StyleFlag, AddFlag;
    var both := first + second;
    if first == [] {
      assert both == second;
    } else if first[0] == "on" {
      assert both[2..] == first[2..] + second && both[1] == first[1];
      ReadsInTurn(first[2..], second, span.(bg := ColorOf(first[1])));
    } else {
      assert both[1..] == first[1..] + second;
      if StyleFlag(first[0]).Some? {
        ReadsInTurn(first[1..], second, span.(flags := AddFlag(span.flags, StyleFlag(first[0]).value)));
      } else {
        ReadsInTurn(first[1..], second, span.(fg := ColorOf(first[0])));
      }
    }
  }

  /** One tag with two attribute lists means the same as two nested tags. */
  lemma TagSplits(first: seq<string>, second: seq<string>, st: Style)
    requires ReadAttributes(first, NoSpan).Some? && ReadAttributes(second, NoSpan).Some?
    ensures ReadAttributes(first + second, NoSpan).Some?
    ensures Over(st, ReadAttributes(first + second, NoSpan).value)
            == Over(Over(st, ReadAttributes(first, NoSpan).value), ReadAttributes(second, NoSpan).value)
  {
    hide ReadAttributes, Over;
    ReadsInTurn(first, second, NoSpan);
    AttributesNest(second, ReadAttributes(first, NoSpan).value, st);
  }

  lemma TagOfOk(content: string)
    ensures TagOf(content).Some? && TagOf(content).value.OpenTag? ==> SpanOk(TagOf(content).value.span)
  {
    hide ReadAttributes, Words, TrimStart, TrimEnd;
    AttributesOk(Words(TrimEnd(TrimStart(content)), Unicode), NoSpan);
  }

  lemma {:induction false} PiecesAreOk(s: string)
    requires ESC !in s
    ensures PiecesOk(Pieces(s))
    decreases |s|
  {
    hide TagOf, SpanOk;
    if s != [] {
      PiecesAreOk(s[1..]);
      if s[0] == '[' {
        var after := s[1..];
        if after != [] && after[0] == '[' {
          PiecesAreOk(s[2..]);
        } else if TagAfter(after).Some? {
          TagOfOk(after[..Find(after, ']')]);
          PiecesAreOk(after[Find(after, ']') + 1..]);
        }
      }
    }
  }

  /** For every text without ESC, the terminal shows each visible character in the
      style of its enclosing spans and is left in the default style. */
  lemma ColorizePreservesMeaning(text: string)
    requires ESC !in text
    ensures Show(Colorized(text), DefaultStyle) == Screen(Meaning(Pieces(text), []), DefaultStyle)
  {
    PiecesAreOk(text);
    ShowRender(Pieces(text), [], []);
  }

  // ---- Stripping ---------------------------------------------------------------------------------

  lemma StripSequence(params: string, rest: string)
    requires ParamText(params)
    ensures Decolorize(Sequence(params) + rest) == Decolorize(rest)
  {
    var s := Sequence(params) + rest;
    var tail := s[2..];
    assert tail == params + ("m" + rest);
    assert forall i :: 0 <= i < |params| ==> tail[i] == params[i] && ParamChar(params[i]);
    assert tail[|params|] == 'm';
    assert LazyLength(tail) == |params|;
    assert s[|params| + 3..] == rest;
  }

  lemma StripSgr(s: Span, rest: string)
    ensures Decolorize(Sgr(s) + rest) == Decolorize(rest)
  {
    hide Decolorize, SpanCodes, Sequence, ParamText, Joined;
    if SpanCodes(s) == [] {
      assert "" + rest == rest;
    } else {
      JoinedRoundTrip(SpanCodes(s));
      StripSequence(Joined(SpanCodes(s)), rest);
    }
  }

  lemma StripReset(rest: string)
    ensures Decolorize(ResetAll + rest) == Decolorize(rest)
  {
    hide Decolorize, Params;
    ResetParams();
    StripSequence("0;00;22;39;49", rest);
  }

  lemma StripChar(c: char, rest: string)
    requires c != ESC
    ensures Decolorize([c] + rest) == [c] + Decolorize(rest)
  {
    assert ([c] + rest)[1..] == rest;
  }

  lemma StripEmit(p: Piece, rest: string, stack: seq<Span>)
    requires p.Text? ==> p.c != ESC
    ensures Decolorize(Emit(p, stack) + rest) == (if p.Text? then [p.c] else "") + Decolorize(rest)
  {
    hide Sgr, Decolorize;
    match p {
      case Text(c) => StripChar(c, rest);
      case Open(tag) => StripSgr(tag, rest);
      case Close =>
        var below := Top(Popped(stack));
        StripReset(Sgr(below) + rest);
        StripSgr(below, rest);
        assert ResetAll + (Sgr(below) + rest) == Emit(p, stack) + rest;
    }
  }

  lemma {:induction false} StripRender(pieces: seq<Piece>, stack: seq<Span>)
    requires PiecesOk(pieces)
    ensures Decolorize(Render(pieces, stack)) == Visible(pieces)
    decreases |pieces|
  {
    hide Decolorize, Emit, StackAfter;
    if pieces == [] {
      StripEnd(stack);
    } else {
      assert PieceOk(pieces[0]);
      StripRender(pieces[1..], StackAfter(pieces[0], stack));
      StripEmit(pieces[0], Render(pieces[1..], StackAfter(pieces[0], stack)), stack);
    }
  }

  lemma StripEnd(stack: seq<Span>)
    ensures Decolorize(Render([], stack)) == ""
  {
    if stack != [] {
      StripReset("");
      assert ResetAll + "" == ResetAll;
    }
  }

  /** Stripping the compiled text leaves exactly its visible characters. */
  lemma DecolorizeGivesVisible(text: string)
    requires ESC !in text
    ensures Decolorize(Colorized(text)) == Visible(Pieces(text))
  {
    PiecesAreOk(text);
    StripRender(Pieces(text), []);
  }
}
