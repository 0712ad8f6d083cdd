/** Compiling twice: when the output of the compiler passes through it unchanged, in
    terms of the text that was compiled. */
module MarkupStable {
  import opened Wrappers
  import opened Numerals
  import opened Tokens
  import opened Terminal
  import opened Markup
  import opened MarkupMeaning
  import opened MarkupWriter

  /** The run of text at the front. */
  function TextRun(pieces: seq<Piece>): string
    decreases |pieces|
  {
    if pieces == [] || !pieces[0].Text? then "" else [pieces[0].c] + TextRun(pieces[1..])
  }

  /** No text bracket has another right after it, and none starts a tag within its run
      of text. */
  predicate CleanAt(pieces: seq<Piece>, i: nat)
    requires i < |pieces|
  {
    pieces[i] == Text('[') ==>
      TagAfter(TextRun(pieces[i + 1..])).None? && (i + 1 < |pieces| ==> pieces[i + 1] != Text('['))
  }

  ghost predicate Clean(pieces: seq<Piece>) {
    forall i :: 0 <= i < |pieces| ==> CleanAt(pieces, i)
  }

  lemma CleanCons(pieces: seq<Piece>)
    requires pieces != []
    ensures Clean(pieces) <==> CleanAt(pieces, 0) && Clean(pieces[1..])
  {
    hide TagAfter, TextRun;
    forall i | 0 <= i < |pieces| - 1 ensures CleanAt(pieces, i + 1) == CleanAt(pieces[1..], i) {
      assert pieces[1..][i + 1..] == pieces[i + 1 + 1..];
    }
    if Clean(pieces) {
      forall i | 0 <= i < |pieces[1..]| ensures CleanAt(pieces[1..], i) {
        assert CleanAt(pieces, i + 1);
      }
    }
    if CleanAt(pieces, 0) && Clean(pieces[1..]) {
      forall i | 0 <= i < |pieces| ensures CleanAt(pieces, i) {
        if i > 0 {
          assert CleanAt(pieces[1..], i - 1);
        }
      }
    }
  }

  // ---- A word that is no attribute ----------------------------------------------------------

  predicate NoAttribute(tok: string) {
    tok != "on" && StyleFlag(tok).None? && ColorOf(tok).None?
  }

  lemma {:induction false} NoAttributeRefuses(toks: seq<string>, span: Span)
    requires exists i :: 0 <= i < |toks| && NoAttribute(toks[i])
    ensures ReadAttributes(toks, span).None?
    decreases |toks|
  {
    hide StyleFlag, ColorOf;
    var i :| 0 <= i < |toks| && NoAttribute(toks[i]);
    if toks[0] == "on" {
      if |toks| > 1 && ColorOf(toks[1]).Some? {
        assert i > 1 && toks[2..][i - 2] == toks[i];
        NoAttributeRefuses(toks[2..], span.(bg := ColorOf(toks[1])));
      }
    } else if StyleFlag(toks[0]).Some? {
      assert i > 0 && toks[1..][i - 1] == toks[i];
      NoAttributeRefuses(toks[1..], span.(flags := AddFlag(span.flags, StyleFlag(toks[0]).value)));
    } else if ColorOf(toks[0]).Some? {
      assert i > 0 && toks[1..][i - 1] == toks[i];
      NoAttributeRefuses(toks[1..], span.(fg := ColorOf(toks[0])));
    }
  }

  lemma {:induction false} NoDigit(s: string, i: nat)
    requires i < |s| && DigitValue(s[i]).None?
    ensures Numeral(s, 16).None?
    decreases |s|
  {
    if i < |s| - 1 {
      NoDigit(s[..|s| - 1], i);
    }
  }

  lemma HexRefusesEsc(hex: string)
    requires ESC in hex
    ensures HexColor(hex).None?
  {
    var i :| 0 <= i < |hex| && hex[i] == ESC;
    if |hex| == 6 {
      if i < 2 {
        NoDigit(hex[0..2], i);
      } else if i < 4 {
        NoDigit(hex[2..4], i - 2);
      } else {
        NoDigit(hex[4..6], i - 4);
      }
    }
  }

  lemma HueRefusesEsc(name: string)
    requires ESC in name
    ensures HueOf(name).None? && StyleFlag(name).None? && name != "on" && name != "gray" && name != "grey"
  {
    var i :| 0 <= i < |name| && name[i] == ESC;
  }

  lemma EscIsNoAttribute(tok: string)
    requires ESC in tok
    ensures NoAttribute(tok)
  {
    hide HueOf, StyleFlag, HexColor;
    HueRefusesEsc(tok);
    var i :| 0 <= i < |tok| && tok[i] == ESC;
    if tok[0] == '#' {
      assert tok[1..][i - 1] == ESC;
      HexRefusesEsc(tok[1..]);
    } else if "bright-" <= tok {
      assert i >= 7 by {
        assert forall k :: 0 <= k < 7 ==> tok[k] == "bright-"[k];
      }
      assert tok[7..][i - 7] == ESC;
      HueRefusesEsc(tok[7..]);
    }
  }

  lemma ParamIsNoAttribute(tok: string)
    requires tok != [] && ParamChar(tok[0])
    ensures NoAttribute(tok)
  {
    assert !("bright-" <= tok);
  }

  // ---- Brackets that start no tag --------------------------------------------------------------

  lemma {:induction false} EscInWords(s: string)
    requires ESC in s
    ensures exists i :: 0 <= i < |Words(s, Unicode)| && ESC in Words(s, Unicode)[i]
    decreases |s|
  {
    var k :| 0 <= k < |s| && s[k] == ESC;
    if IsSpace(s[0], Unicode) {
      assert k > 0 && s[1..][k - 1] == ESC;
      EscInWords(s[1..]);
      assert Words(s, Unicode) == Words(s[1..], Unicode);
    } else {
      var n := WordLength(s, Unicode);
      var words := Words(s, Unicode);
      assert words[0] == s[..n];
      if k < n {
        assert words[0][k] == ESC;
      } else {
        assert s[n..][k - n] == ESC;
        EscInWords(s[n..]);
        var i :| 0 <= i < |Words(s[n..], Unicode)| && ESC in Words(s[n..], Unicode)[i];
        assert words[i + 1] == Words(s[n..], Unicode)[i];
      }
    }
  }

  lemma {:induction false} EscKeptStart(s: string)
    requires ESC in s
    ensures ESC in TrimStart(s)
    decreases |s|
  {
    var k :| 0 <= k < |s| && s[k] == ESC;
    if IsSpace(s[0], Unicode) {
      assert s[1..][k - 1] == ESC;
      EscKeptStart(s[1..]);
    }
  }

  lemma {:induction false} EscKeptEnd(s: string)
    requires ESC in s
    ensures ESC in TrimEnd(s)
    decreases |s|
  {
    var k :| 0 <= k < |s| && s[k] == ESC;
    if IsSpace(s[|s| - 1], Unicode) {
      assert s[..|s| - 1][k] == ESC;
      EscKeptEnd(s[..|s| - 1]);
    }
  }

  lemma EscStartsNoTag(content: string)
    requires ESC in content
    ensures TagOf(content).None?
  {
    hide Words, TrimStart, TrimEnd, ReadAttributes, NoAttribute;
    EscKeptStart(content);
    EscKeptEnd(TrimStart(content));
    var body := TrimEnd(TrimStart(content));
    EscInWords(body);
    var i :| 0 <= i < |Words(body, Unicode)| && ESC in Words(body, Unicode)[i];
    EscIsNoAttribute(Words(body, Unicode)[i]);
    NoAttributeRefuses(Words(body, Unicode), NoSpan);
  }

  lemma {:induction false} TrimKeepsFirst(s: string)
    requires s != [] && !IsSpace(s[0], Unicode)
    ensures TrimEnd(s) != [] && TrimEnd(s)[0] == s[0]
    decreases |s|
  {
    if IsSpace(s[|s| - 1], Unicode) {
      TrimKeepsFirst(s[..|s| - 1]);
    }
  }

  lemma FirstWordStarts(s: string)
    requires s != [] && !IsSpace(s[0], Unicode)
    ensures |Words(s, Unicode)| > 0 && Words(s, Unicode)[0] != [] && Words(s, Unicode)[0][0] == s[0]
  {
  }

  lemma ParamStartsNoTag(content: string)
    requires content != [] && ParamChar(content[0])
    ensures TagOf(content).None?
  {
    hide Words, TrimEnd, ReadAttributes, NoAttribute;
    assert TrimStart(content) == content;
    TrimKeepsFirst(content);
    var body := TrimEnd(content);
    FirstWordStarts(body);
    ParamIsNoAttribute(Words(body, Unicode)[0]);
    NoAttributeRefuses(Words(body, Unicode), NoSpan);
  }

  /** What follows a run of text does not make its bracket a tag, nor keep it from
      being one. */
  lemma TagStaysInRun(run: string, rest: string)
    requires rest == [] || rest[0] == ESC
    ensures TagAfter(run + rest).None? <==> TagAfter(run).None?
  {
    hide TagOf;
    var all := run + rest;
    var k, n := Find(run, ']'), Find(all, ']');
    assert forall i :: 0 <= i < |run| ==> all[i] == run[i];
    if k < |run| {
      assert n == k && all[..n] == run[..k];
    } else if n < |all| {
      assert n > |run| && all[..n][|run|] == ESC;
      EscStartsNoTag(all[..n]);
    }
  }

  // ---- The output -------------------------------------------------------------------------------

  lemma {:induction false} MarklessSkips(a: string, rest: string)
    requires '[' !in a
    ensures Markless(a + rest) <==> Markless(rest)
    decreases |a|
  {
    hide Markless, TagAfter;
    if a == [] {
      assert a + rest == rest;
    } else {
      assert (a + rest)[1..] == a[1..] + rest;
      MarklessSkips(a[1..], rest);
      MarklessSplit(a + rest);
    }
  }

  lemma MarklessSplit(s: string)
    requires s != []
    ensures Markless(s) <==> Markless(s[1..]) && (s[0] != '[' || (TagAfter(s[1..]).None? && (|s| > 1 ==> s[1] != '[')))
  {
    hide TagAfter;
    if Markless(s) {
      MarklessTail(s, 1);
    }
    if Markless(s[1..]) {
      MarklessHere(s);
    }
  }

  lemma MarklessSequence(params: string, rest: string)
    requires ParamText(params) && params != []
    ensures Markless(Sequence(params) + rest) <==> Markless(rest)
  {
    hide Markless, TagOf;
    var tail := params + "m" + rest;
    var s := Sequence(params) + rest;
    assert s == [ESC] + (['['] + tail);
    MarklessSkips([ESC], ['['] + tail);
    MarklessSplit(['['] + tail);
    assert (['['] + tail)[1..] == tail;
    assert ParamChar(params[0]) && tail[0] == params[0];
    var close := Find(tail, ']');
    if close < |tail| {
      assert close > 0 && tail[..close][0] == params[0];
      ParamStartsNoTag(tail[..close]);
    }
    forall i | 0 <= i < |params + "m"| ensures (params + "m")[i] != '[' {
      assert i < |params| ==> ParamChar(params[i]);
    }
    MarklessSkips(params + "m", rest);
  }

  lemma JoinedStarts(codes: seq<nat>)
    requires codes != []
    ensures Joined(codes) != []
  {
  }

  lemma MarklessSgr(s: Span, rest: string)
    ensures Markless(Sgr(s) + rest) <==> Markless(rest)
  {
    hide Markless, SpanCodes, Sequence, ParamText, Joined;
    if SpanCodes(s) == [] {
      assert "" + rest == rest;
    } else {
      JoinedRoundTrip(SpanCodes(s));
      JoinedStarts(SpanCodes(s));
      MarklessSequence(Joined(SpanCodes(s)), rest);
    }
  }

  lemma MarklessReset(rest: string)
    ensures Markless(ResetAll + rest) <==> Markless(rest)
  {
    hide Markless, Params, Sequence;
    ResetParams();
    MarklessSequence("0;00;22;39;49", rest);
  }

  lemma MarklessEmit(p: Piece, stack: seq<Span>, rest: string)
    requires !p.Text?
    ensures Markless(Emit(p, stack) + rest) <==> Markless(rest)
  {
    hide Markless, Sgr, Sequence;
    if p.Open? {
      MarklessSgr(p.span, rest);
    } else {
      var below := Top(Popped(stack));
      MarklessReset(Sgr(below) + rest);
      MarklessSgr(below, rest);
      assert ResetAll + (Sgr(below) + rest) == Emit(p, stack) + rest;
    }
  }

  /** Tags that set something. */
  ghost predicate Telling(pieces: seq<Piece>) {
    forall i :: 0 <= i < |pieces| && pieces[i].Open? ==> SpanCodes(pieces[i].span) != []
  }

  lemma SequenceStarts(params: string)
    ensures Sequence(params) != [] && Sequence(params)[0] == ESC
  {
  }

  /** The output is the run of text at the front, then nothing or a sequence. */
  lemma {:induction false} RunThenSequence(pieces: seq<Piece>, stack: seq<Span>) returns (rest: string)
    requires Telling(pieces)
    ensures Render(pieces, stack) == TextRun(pieces) + rest && (rest == [] || rest[0] == ESC)
    decreases |pieces|
  {
    hide Sequence, SpanCodes, Joined;
    SequenceStarts("0;00;22;39;49");
    if pieces == [] {
      rest := Render(pieces, stack);
    } else if pieces[0].Text? {
      rest := RunThenSequence(pieces[1..], stack);
      assert [pieces[0].c] + (TextRun(pieces[1..]) + rest) == TextRun(pieces) + rest;
    } else {
      rest := Render(pieces, stack);
      if pieces[0].Open? {
        SequenceStarts(Joined(SpanCodes(pieces[0].span)));
      }
    }
  }

  lemma RunHead(pieces: seq<Piece>)
    ensures TextRun(pieces) != [] && TextRun(pieces)[0] == '[' <==> pieces != [] && pieces[0] == Text('[')
  {
  }

  lemma {:induction false} RenderClean(pieces: seq<Piece>, stack: seq<Span>)
    requires Telling(pieces)
    ensures Markless(Render(pieces, stack)) <==> Clean(pieces)
    decreases |pieces|
  {
    hide Markless, Emit, StackAfter, TagAfter, Clean, SpanCodes;
    if pieces == [] {
      EndClean(stack);
    } else {
      var p, stack' := pieces[0], StackAfter(pieces[0], stack);
      var more := Render(pieces[1..], stack');
      RenderClean(pieces[1..], stack');
      CleanCons(pieces);
      if p.Text? {
        var rest := RunThenSequence(pieces[1..], stack');
        RunHead(pieces[1..]);
        TagStaysInRun(TextRun(pieces[1..]), rest);
        TextEmits(p, stack);
        assert ([p.c] + more)[1..] == more;
        MarklessSplit([p.c] + more);
      } else {
        MarklessEmit(p, stack, more);
      }
    }
  }

  lemma TextEmits(p: Piece, stack: seq<Span>)
    requires p.Text?
    ensures Emit(p, stack) == [p.c]
  {
  }

  lemma EndClean(stack: seq<Span>)
    ensures Markless(Render([], stack)) && Clean([])
  {
    hide Sequence, Params;
    MarklessEmpty();
    MarklessReset("");
    assert ResetAll + "" == ResetAll;
  }

  // ---- Tags of a text set something -----------------------------------------------------------------

  lemma {:induction false} AttributesTell(toks: seq<string>, span: Span)
    requires toks != [] || SpanCodes(span) != []
    ensures ReadAttributes(toks, span).Some? ==> SpanCodes(ReadAttributes(toks, span).value) != []
    decreases |toks|
  {
    hide ColorOf, StyleFlag;
    if toks != [] {
      if toks[0] == "on" {
        if |toks| > 1 && ColorOf(toks[1]).Some? {
          AttributesTell(toks[2..], span.(bg := ColorOf(toks[1])));
        }
      } else if StyleFlag(toks[0]).Some? {
        AttributesTell(toks[1..], span.(flags := AddFlag(span.flags, StyleFlag(toks[0]).value)));
      } else if ColorOf(toks[0]).Some? {
        AttributesTell(toks[1..], span.(fg := ColorOf(toks[0])));
      }
    }
  }

  lemma {:induction false} TrimmedStart(s: string)
    ensures TrimStart(s) == [] || !IsSpace(TrimStart(s)[0], Unicode)
    decreases |s|
  {
    if s != [] && IsSpace(s[0], Unicode) {
      TrimmedStart(s[1..]);
    }
  }

  lemma TagTells(content: string)
    ensures TagOf(content).Some? && TagOf(content).value.OpenTag? ==> SpanCodes(TagOf(content).value.span) != []
  {
    hide Words, TrimStart, TrimEnd, ReadAttributes, SpanCodes;
    var start := TrimStart(content);
    TrimmedStart(content);
    if start != [] {
      TrimKeepsFirst(start);
      FirstWordStarts(TrimEnd(start));
      AttributesTell(Words(TrimEnd(start), Unicode), NoSpan);
    } else {
      assert TrimEnd(start) == "" by { TrimNothing(); }
    }
  }

  lemma TrimNothing()
    ensures TrimEnd("") == ""
  {
  }

  lemma TellingCons(p: Piece, rest: seq<Piece>)
    ensures Telling([p] + rest) <==> Telling(rest) && (p.Open? ==> SpanCodes(p.span) != [])
  {
    hide SpanCodes;
    var all := [p] + rest;
    assert all[0] == p && forall i :: 0 <= i < |rest| ==> all[i + 1] == rest[i];
  }

  lemma {:induction false} PiecesTell(s: string)
    ensures Telling(Pieces(s))
    decreases |s|
  {
    hide TagOf, Telling, Pieces, SpanCodes;
    if s == [] {
      NoPieces();
      assert Telling([]) by { TellingNothing(); }
    } else if s[0] != '[' {
      PiecesTell(s[1..]);
      assert s == [s[0]] + s[1..];
      PlainPiece(s[0], s[1..]);
      TellingCons(Text(s[0]), Pieces(s[1..]));
    } else if |s| > 1 && s[1] == '[' {
      PiecesTell(s[2..]);
      EscapedBracket(s);
      TellingCons(Text('['), Pieces(s[2..]));
    } else {
      Bracket(s);
      var after := s[1..];
      if TagAfter(after).Some? {
        var close := Find(after, ']');
        PiecesTell(after[close + 1..]);
        TagTells(after[..close]);
        TellingCons(PieceOf(TagAfter(after).value), Pieces(after[close + 1..]));
      } else {
        PiecesTell(after);
        TellingCons(Text('['), Pieces(after));
      }
    }
  }

  lemma TellingNothing()
    ensures Telling([])
  {
  }

  /** Compiling the output again changes nothing exactly when, in the text that was
      compiled, no text bracket is followed by another or starts a tag within its run
      of text; styles in between do not matter. */
  lemma OutputStableIff(text: string)
    ensures Colorized(Colorized(text)) == Colorized(text) <==> Clean(Pieces(text))
  {
    hide Markless, Clean, Pieces, Render, Telling;
    PassesThrough(Colorized(text));
    PiecesTell(text);
    RenderClean(Pieces(text), []);
  }
}
