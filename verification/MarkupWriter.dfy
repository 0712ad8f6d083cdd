/** Writing markup: escaped text never opens a tag, every document can be written
    so that it reads back, and exactly the texts without markup pass through. */
module MarkupWriter {
  import opened Wrappers
  import opened Numerals
  import opened Tokens
  import opened Terminal
  import opened Markup
  import opened MarkupMeaning

  // ---- Escaping ------------------------------------------------------------------------

  function Texts(s: string): (r: seq<Piece>)
    ensures |r| == |s| && forall i :: 0 <= i < |s| ==> r[i] == Text(s[i])
  {
    seq(|s|, i requires 0 <= i < |s| => Text(s[i]))
  }

  lemma EscapedChar(c: char, more: string)
    ensures Pieces(Escape([c]) + more) == [Text(c)] + Pieces(more)
  {
    hide Pieces;
    assert Escape([c]) == if c == '[' then "[[" else [c];
    if c == '[' {
      EscapedBracket("[[" + more);
      assert ("[[" + more)[2..] == more;
    } else {
      PlainPiece(c, more);
    }
  }

  lemma EscapeCons(s: string)
    requires s != []
    ensures Escape(s) == Escape([s[0]]) + Escape(s[1..])
  {
    assert Escape([s[0]]) == if s[0] == '[' then "[[" else [s[0]];
  }

  /** Escaped text stays text, whatever follows it. */
  lemma {:induction false} EscapeIsText(s: string, rest: string)
    ensures Pieces(Escape(s) + rest) == Texts(s) + Pieces(rest)
    decreases |s|
  {
    hide Pieces, Escape;
    if s == [] {
      assert Escape(s) + rest == rest by { EscapeNothing(); }
      assert Texts(s) + Pieces(rest) == Pieces(rest);
    } else {
      EscapeIsText(s[1..], rest);
      EscapeCons(s);
      EscapedChar(s[0], Escape(s[1..]) + rest);
      assert Escape(s) + rest == Escape([s[0]]) + (Escape(s[1..]) + rest);
      assert Texts(s) == [Text(s[0])] + Texts(s[1..]);
    }
  }

  lemma EscapeNothing()
    ensures Escape("") == ""
  {
  }

  lemma PlainPiece(c: char, rest: string)
    requires c != '['
    ensures Pieces([c] + rest) == [Text(c)] + Pieces(rest)
  {
    assert ([c] + rest)[1..] == rest;
  }

  lemma {:induction false} RenderTexts(s: string, rest: seq<Piece>, stack: seq<Span>)
    ensures Render(Texts(s) + rest, stack) == s + Render(rest, stack)
    decreases |s|
  {
    hide Render;
    if s == [] {
      assert Texts(s) + rest == rest && s + Render(rest, stack) == Render(rest, stack);
    } else {
      RenderTexts(s[1..], rest, stack);
      assert Texts(s) + rest == [Text(s[0])] + (Texts(s[1..]) + rest);
      RenderCons(Text(s[0]), Texts(s[1..]) + rest, stack);
    }
  }

  /** Compiling escaped text gives the text back, for every string. */
  lemma EscapeRoundTrip(s: string)
    ensures Colorized(Escape(s)) == s
  {
    EscapeIsText(s, "");
    assert Escape(s) + "" == Escape(s);
    RenderTexts(s, [], []);
    assert Pieces("") == [];
    assert Texts(s) + [] == Texts(s);
  }

  // ---- Documents -------------------------------------------------------------------------

  function FlagName(f: nat): string
    requires FlagCode(f)
  {
    if f == 1 then "bold"
    else if f == 2 then "dim"
    else if f == 3 then "italic"
    else if f == 4 then "underline"
    else if f == 5 then "blink"
    else if f == 6 then "blink2"
    else if f == 7 then "reverse"
    else if f == 9 then "strike"
    else "underline2"
  }

  function HueName(i: nat): string
    requires i < 8
  {
    ["black", "red", "green", "yellow", "blue", "magenta", "cyan", "white"][i]
  }

  function ColorName(c: Color): string
    requires ColorOk(c)
  {
    match c
    case Palette(i) => if i < 8 then HueName(i) else "bright-" + HueName(i - 8)
    case Rgb(r, g, b) => "#" + (Hex(r, 2) + Hex(g, 2) + Hex(b, 2))
  }

  predicate TagChar(c: char) {
    'a' <= c <= 'z' || '0' <= c <= '9' || c == '#' || c == '-'
  }

  ghost predicate TagWord(s: string) {
    |s| > 0 && forall i :: 0 <= i < |s| ==> TagChar(s[i])
  }

  lemma FlagNameReads(f: nat)
    requires FlagCode(f)
    ensures StyleFlag(FlagName(f)) == Some(f) && FlagName(f) != "on" && TagWord(FlagName(f))
  {
  }

  lemma HueNameIs(i: nat)
    requires i < 8
    ensures HueOf(HueName(i)) == Some(i) && TagWord(HueName(i))
  {
  }

  lemma HueNameReads(i: nat)
    requires i < 8
    ensures NamedColor(HueName(i)) == Some(Palette(i)) && TagWord(HueName(i))
    ensures HueName(i)[0] != '#' && HueName(i) != "on" && StyleFlag(HueName(i)).None?
  {
    hide TagChar, HueOf;
    HueNameIs(i);
    assert HueName(i)[1] != "bright-"[1] || HueName(i)[2] != "bright-"[2];
  }

  lemma BrightNameReads(i: nat)
    requires i < 8
    ensures var name := "bright-" + HueName(i);
            NamedColor(name) == Some(Palette(i + 8)) && TagWord(name) &&
            name[0] == 'b' && name != "on" && StyleFlag(name).None?
  {
    hide StyleFlag, HueName;
    HueNameIs(i);
    var name := "bright-" + HueName(i);
    assert name[7..] == HueName(i);
    assert name[1] == 'r' && name[6] == '-';
    NoBrightFlag(name);
  }

  lemma NoBrightFlag(name: string)
    requires |name| > 6 && name[0] == 'b' && name[6] == '-'
    ensures StyleFlag(name).None? && name != "gray" && name != "grey"
  {
  }

  lemma HexDigitsAreTagChars(n: nat, w: nat)
    requires n < Pow16(w)
    ensures forall i :: 0 <= i < |Hex(n, w)| ==> TagChar(Hex(n, w)[i])
    decreases w
  {
    if w > 0 {
      HexDigitsAreTagChars(n / 16, w - 1);
    }
  }

  lemma RgbNameReads(r: nat, g: nat, b: nat)
    requires r < 256 && g < 256 && b < 256
    ensures var hex := Hex(r, 2) + Hex(g, 2) + Hex(b, 2);
            HexColor(hex) == Some(Rgb(r, g, b)) && TagWord("#" + hex)
  {
    hide Hex, Numeral, Digits, TagChar;
    var hr, hg, hb := Hex(r, 2), Hex(g, 2), Hex(b, 2);
    assert Pow16(2) == 256 by { assert Pow16(1) == 16; }
    HexRoundTrip(r, 2);
    HexRoundTrip(g, 2);
    HexRoundTrip(b, 2);
    HexDigitsAreTagChars(r, 2);
    HexDigitsAreTagChars(g, 2);
    HexDigitsAreTagChars(b, 2);
    var hex := hr + hg + hb;
    assert hex[0..2] == hr && hex[2..4] == hg && hex[4..6] == hb;
    assert TagChar('#') by { HashIsTagChar(); }
  }

  lemma HashIsTagChar()
    ensures TagChar('#')
  {
  }

  lemma NoHashFlag(name: string)
    requires |name| > 0 && name[0] == '#'
    ensures StyleFlag(name).None? && name != "on"
  {
  }

  lemma ColorNameReads(c: Color)
    requires ColorOk(c)
    ensures ColorOf(ColorName(c)) == Some(c) && TagWord(ColorName(c))
    ensures StyleFlag(ColorName(c)).None? && ColorName(c) != "on"
  {
    hide StyleFlag, NamedColor, HexColor, TagWord, HueName, Hex;
    match c {
      case Palette(i) =>
        if i < 8 {
          HueNameReads(i);
        } else {
          BrightNameReads(i - 8);
        }
      case Rgb(r, g, b) =>
        RgbNameReads(r, g, b);
        var hex := Hex(r, 2) + Hex(g, 2) + Hex(b, 2);
        assert ("#" + hex)[1..] == hex;
        NoHashFlag("#" + hex);
    }
  }

  /** The two spellings of gray are bright black, wherever they stand in a tag. */
  lemma {:induction false} GrayIsBrightBlack(before: seq<string>, after: seq<string>, span: Span)
    ensures ReadAttributes(before + ["gray"] + after, span) == ReadAttributes(before + ["bright-black"] + after, span)
    ensures ReadAttributes(before + ["grey"] + after, span) == ReadAttributes(before + ["bright-black"] + after, span)
    decreases |before|
  {
    hide ColorOf, StyleFlag;
    GrayColor();
    var a, b, c := before + ["gray"] + after, before + ["grey"] + after, before + ["bright-black"] + after;
    if before == [] {
      assert a[1..] == after && b[1..] == after && c[1..] == after;
    } else {
      assert a[1..] == before[1..] + ["gray"] + after && b[1..] == before[1..] + ["grey"] + after && c[1..] == before[1..] + ["bright-black"] + after;
      if before[0] == "on" {
        if |before| == 1 {
          assert a[2..] == after && b[2..] == after && c[2..] == after;
          assert a[1] == "gray" && b[1] == "grey" && c[1] == "bright-black";
        } else {
          assert a[2..] == before[2..] + ["gray"] + after && b[2..] == before[2..] + ["grey"] + after && c[2..] == before[2..] + ["bright-black"] + after;
          if ColorOf(before[1]).Some? {
            GrayIsBrightBlack(before[2..], after, span.(bg := ColorOf(before[1])));
          }
        }
      } else if StyleFlag(before[0]).Some? {
        GrayIsBrightBlack(before[1..], after, span.(flags := AddFlag(span.flags, StyleFlag(before[0]).value)));
      } else if ColorOf(before[0]).Some? {
        GrayIsBrightBlack(before[1..], after, span.(fg := ColorOf(before[0])));
      }
    }
  }

  lemma GrayColor()
    ensures ColorOf("gray") == ColorOf("grey") == ColorOf("bright-black") == Some(Palette(8))
    ensures StyleFlag("gray").None? && StyleFlag("grey").None? && StyleFlag("bright-black").None?
  {
    BrightNameReads(0);
    assert "bright-" + "black" == "bright-black";
  }

  /** A colour word alone sets the text, after `on` what is behind it. */
  lemma OnMeansBehind(name: string, span: Span)
    requires ColorOf(name).Some? && StyleFlag(name).None? && name != "on"
    ensures ReadAttributes([name], span) == Some(span.(fg := ColorOf(name)))
    ensures ReadAttributes(["on", name], span) == Some(span.(bg := ColorOf(name)))
  {
    hide ColorOf, StyleFlag;
    assert [name][1..] == [] && ["on", name][2..] == [];
  }

  /** The rendition codes of the words: attributes, and colours on the classic palette in
      front and behind. */
  lemma WordCodes(i: nat)
    requires i < 8
    ensures StyleFlag("bold") == Some(1) && StyleFlag("dim") == Some(2) && StyleFlag("italic") == Some(3)
    ensures StyleFlag("underline") == Some(4) && StyleFlag("blink") == Some(5) && StyleFlag("blink2") == Some(6)
    ensures StyleFlag("reverse") == Some(7) && StyleFlag("strike") == Some(9) && StyleFlag("underline2") == Some(21)
    ensures var name := ["black", "red", "green", "yellow", "blue", "magenta", "cyan", "white"][i];
            && ColorOf(name).Some? && ColorCodes(ColorOf(name).value, false) == [30 + i] && ColorCodes(ColorOf(name).value, true) == [40 + i]
            && ColorOf("bright-" + name).Some?
            && ColorCodes(ColorOf("bright-" + name).value, false) == [90 + i] && ColorCodes(ColorOf("bright-" + name).value, true) == [100 + i]
  {
    hide NamedColor;
    HueNameReads(i);
    BrightNameReads(i);
  }

  function FlagWords(flags: seq<nat>): (r: seq<string>)
    requires forall i :: 0 <= i < |flags| ==> FlagCode(flags[i])
    ensures |r| == |flags| && forall i :: 0 <= i < |flags| ==> r[i] == FlagName(flags[i])
  {
    seq(|flags|, i requires 0 <= i < |flags| => FlagName(flags[i]))
  }

  function ForeWords(s: Span): seq<string>
    requires SpanOk(s)
  {
    if s.fg.Some? then [ColorName(s.fg.value)] else []
  }

  function BackWords(s: Span): seq<string>
    requires SpanOk(s)
  {
    if s.bg.Some? then ["on", ColorName(s.bg.value)] else []
  }

  /** The words of a span's tag: flags, foreground, `on` background. */
  function TagWords(s: Span): seq<string>
    requires SpanOk(s)
  {
    FlagWords(s.flags) + (ForeWords(s) + BackWords(s))
  }

  lemma {:induction false} FlagWordsRead(done: seq<nat>, flags: seq<nat>, rest: seq<string>)
    requires forall i :: 0 <= i < |flags| ==> FlagCode(flags[i])
    requires Distinct(done + flags)
    ensures ReadAttributes(FlagWords(flags) + rest, NoSpan.(flags := done))
            == ReadAttributes(rest, NoSpan.(flags := done + flags))
    decreases |flags|
  {
    hide StyleFlag, FlagCode, FlagName, ColorOf;
    if flags == [] {
      assert FlagWords(flags) + rest == rest && done + flags == done;
    } else {
      var words := FlagWords(flags) + rest;
      FlagNameReads(flags[0]);
      assert words[0] == FlagName(flags[0]);
      assert words[1..] == FlagWords(flags[1..]) + rest;
      assert flags[0] !in done by {
        forall i | 0 <= i < |done| ensures done[i] != flags[0] {
          assert (done + flags)[i] != (done + flags)[|done|];
        }
      }
      assert done + [flags[0]] + flags[1..] == done + flags;
      FlagWordsRead(done + [flags[0]], flags[1..], rest);
    }
  }

  lemma BackWordsRead(s: Span, span: Span)
    requires SpanOk(s) && span.bg.None?
    ensures ReadAttributes(BackWords(s), span) == Some(span.(bg := s.bg))
  {
    if s.bg.Some? {
      ColorNameReads(s.bg.value);
      assert BackWords(s)[2..] == [];
    }
  }

  lemma TagWordsRead(s: Span)
    requires SpanOk(s)
    ensures ReadAttributes(TagWords(s), NoSpan) == Some(s)
  {
    hide StyleFlag, ColorOf, FlagCode, ColorName, ColorOk, FlagWords, BackWords;
    var rest := ForeWords(s) + BackWords(s);
    assert [] + s.flags == s.flags;
    FlagWordsRead([], s.flags, rest);
    if s.fg.Some? {
      ColorNameReads(s.fg.value);
      assert rest[1..] == BackWords(s);
    } else {
      assert rest == BackWords(s);
    }
    BackWordsRead(s, NoSpan.(flags := s.flags, fg := s.fg));
  }

  lemma TagWordsAreWords(s: Span)
    requires SpanOk(s)
    ensures forall i :: 0 <= i < |TagWords(s)| ==> TagWord(TagWords(s)[i])
  {
    hide TagWord, ColorName, FlagName, ColorOk, FlagCode;
    forall i | 0 <= i < |s.flags| ensures TagWord(FlagWords(s.flags)[i]) {
      FlagNameReads(s.flags[i]);
    }
    if s.fg.Some? {
      ColorNameReads(s.fg.value);
    }
    if s.bg.Some? {
      ColorNameReads(s.bg.value);
      OnIsTagWord();
    }
  }

  lemma OnIsTagWord()
    ensures TagWord("on")
  {
  }

  function Spaced(words: seq<string>): string {
    if words == [] then ""
    else if |words| == 1 then words[0]
    else words[0] + " " + Spaced(words[1..])
  }

  lemma TagWordIsWord(s: string)
    requires TagWord(s)
    ensures Word(s, Unicode)
  {
    forall i | 0 <= i < |s| ensures !IsSpace(s[i], Unicode) {
      assert TagChar(s[i]);
    }
  }

  /** Words of tag characters separated by single blanks: they split again, and the
      text starts and ends with a tag character. */
  lemma {:induction false} SpacedSplits(words: seq<string>)
    requires words != [] && forall i :: 0 <= i < |words| ==> TagWord(words[i])
    ensures Words(Spaced(words), Unicode) == words
    ensures var t := Spaced(words);
            |t| > 0 && TagChar(t[0]) && TagChar(t[|t| - 1]) && forall i :: 0 <= i < |t| ==> TagChar(t[i]) || t[i] == ' '
    decreases |words|
  {
    hide Words, TagChar;
    TagWordIsWord(words[0]);
    if |words| == 1 {
      LastWord(words[0], Unicode);
    } else {
      SpacedSplits(words[1..]);
      NextWord(words[0], Spaced(words[1..]), Unicode);
    }
  }

  lemma NothingToTrim(t: string)
    requires |t| > 0 && TagChar(t[0]) && TagChar(t[|t| - 1])
    ensures TrimEnd(TrimStart(t)) == t
  {
  }

  lemma TagTextReads(s: Span)
    requires SpanOk(s) && SpanCodes(s) != []
    ensures TagOf(Spaced(TagWords(s))) == Some(OpenTag(s))
    ensures var t := Spaced(TagWords(s));
            |t| > 0 && TagChar(t[0]) && forall i :: 0 <= i < |t| ==> TagChar(t[i]) || t[i] == ' '
  {
    hide SpanOk, TrimEnd, TrimStart, ReadAttributes, Words, Spaced, TagWord;
    WordsForCodes(s);
    TagWordsAreWords(s);
    SpacedSplits(TagWords(s));
    TagWordsRead(s);
    var t := Spaced(TagWords(s));
    NothingToTrim(t);
    forall i | 0 <= i < |t| ensures t[i] != '\n' {
      assert TagChar(t[i]) || t[i] == ' ';
    }
  }

  lemma WordsForCodes(s: Span)
    requires SpanOk(s) && SpanCodes(s) != []
    ensures TagWords(s) != []
  {
  }

  /** A piece as markup source. */
  function PieceText(p: Piece): string
    requires p.Open? ==> SpanOk(p.span)
  {
    match p
    case Text(c) => Escape([c])
    case Open(s) => "[" + Spaced(TagWords(s)) + "]"
    case Close => "[/]"
  }

  /** Documents are lists of characters, tags that set something, and closes. */
  ghost predicate Writable(pieces: seq<Piece>) {
    forall i :: 0 <= i < |pieces| && pieces[i].Open? ==> SpanOk(pieces[i].span) && SpanCodes(pieces[i].span) != []
  }

  ghost function Written(pieces: seq<Piece>): string
    requires Writable(pieces)
  {
    if pieces == [] then "" else PieceText(pieces[0]) + Written(pieces[1..])
  }

  lemma TagReads(content: string, rest: string)
    requires content != [] && content[0] != '[' && ']' !in content && TagOf(content).Some?
    ensures Pieces("[" + content + "]" + rest) == [PieceOf(TagOf(content).value)] + Pieces(rest)
  {
    hide TagOf;
    var s := "[" + content + "]" + rest;
    var after := s[1..];
    assert after == content + ("]" + rest);
    assert forall i :: 0 <= i < |content| ==> after[i] == content[i];
    assert after[|content|] == ']';
    assert Find(after, ']') == |content|;
    assert after[..|content|] == content && after[|content| + 1..] == rest;
    Bracket(s);
  }

  lemma CloseReads()
    ensures TagOf("/") == Some(CloseTag)
  {
    assert TrimStart("/") == "/" && TrimEnd("/") == "/";
  }

  lemma PieceReads(p: Piece, rest: string)
    requires p.Open? ==> SpanOk(p.span) && SpanCodes(p.span) != []
    ensures Pieces(PieceText(p) + rest) == [p] + Pieces(rest)
  {
    hide Pieces, TagOf, Spaced, TagWords, SpanOk;
    match p {
      case Text(c) =>
        EscapedChar(c, rest);
      case Open(s) =>
        TagTextReads(s);
        var t := Spaced(TagWords(s));
        assert ']' !in t by {
          forall i | 0 <= i < |t| ensures t[i] != ']' {
            assert TagChar(t[i]) || t[i] == ' ';
          }
        }
        TagReads(t, rest);
      case Close =>
        CloseReads();
        TagReads("/", rest);
        assert "[" + "/" + "]" + rest == "[/]" + rest;
    }
  }

  /** Every document, written as markup, reads back as itself. */
  lemma {:induction false} DocumentRoundTrip(pieces: seq<Piece>)
    requires Writable(pieces)
    ensures Pieces(Written(pieces)) == pieces
    decreases |pieces|
  {
    hide Pieces, PieceText;
    if pieces == [] {
      assert Pieces("") == [] by { NoPieces(); }
    } else {
      DocumentRoundTrip(pieces[1..]);
      PieceReads(pieces[0], Written(pieces[1..]));
    }
  }

  lemma NoPieces()
    ensures Pieces("") == []
  {
  }

  // ---- Texts that pass through unchanged -------------------------------------------------------

  /** No doubled bracket, and no bracket that starts a tag. */
  ghost predicate Markless(s: string) {
    forall i :: 0 <= i < |s| && s[i] == '[' ==>
      TagAfter(s[i + 1..]).None? && (i + 1 < |s| ==> s[i + 1] != '[')
  }

  function Closers(s: string): nat {
    if s == [] then 0 else (if s[0] == ']' then 1 else 0) + Closers(s[1..])
  }

  lemma {:induction false} ClosersAdd(a: string, b: string)
    ensures Closers(a + b) == Closers(a) + Closers(b)
    decreases |a|
  {
    if a == [] {
      assert a + b == b;
    } else {
      ClosersAdd(a[1..], b);
      assert (a + b)[1..] == a[1..] + b;
    }
  }

  lemma {:induction false} NoClosers(s: string)
    requires ']' !in s
    ensures Closers(s) == 0
    decreases |s|
  {
    if s != [] {
      NoClosers(s[1..]);
    }
  }

  lemma SequenceNoClosers(params: string)
    requires ParamText(params)
    ensures Closers(Sequence(params)) == 0
  {
    var s := Sequence(params);
    forall i | 0 <= i < |s| ensures s[i] != ']' {
      assert 2 <= i < |params| + 2 ==> s[i] == params[i - 2] && ParamChar(params[i - 2]);
    }
    NoClosers(s);
  }

  lemma SgrNoClosers(s: Span)
    ensures Closers(Sgr(s)) == 0
  {
    hide ParamText, Joined, SpanCodes, Sequence;
    if SpanCodes(s) != [] {
      JoinedRoundTrip(SpanCodes(s));
      SequenceNoClosers(Joined(SpanCodes(s)));
    }
  }

  function ClosersIn(pieces: seq<Piece>): nat {
    if pieces == [] then 0 else (if pieces[0] == Text(']') then 1 else 0) + ClosersIn(pieces[1..])
  }

  lemma EmitClosers(p: Piece, stack: seq<Span>)
    ensures Closers(Emit(p, stack)) == if p == Text(']') then 1 else 0
  {
    hide Sgr, Params, Sequence;
    ResetParams();
    SequenceNoClosers("0;00;22;39;49");
    match p {
      case Text(c) => OneCloser(c);
      case Open(tag) => SgrNoClosers(tag);
      case Close =>
        SgrNoClosers(Top(Popped(stack)));
        ClosersAdd(ResetAll, Sgr(Top(Popped(stack))));
    }
  }

  lemma OneCloser(c: char)
    ensures Closers([c]) == if c == ']' then 1 else 0
  {
    assert [c][1..] == [];
  }

  /** The output has as many closing brackets as the text pieces. */
  lemma {:induction false} RenderClosers(pieces: seq<Piece>, stack: seq<Span>)
    ensures Closers(Render(pieces, stack)) == ClosersIn(pieces)
    decreases |pieces|
  {
    hide Closers, Emit, Params, Sequence;
    ResetParams();
    SequenceNoClosers("0;00;22;39;49");
    NoClosers("");
    if pieces != [] {
      RenderClosers(pieces[1..], StackAfter(pieces[0], stack));
      EmitClosers(pieces[0], stack);
      ClosersAdd(Emit(pieces[0], stack), Render(pieces[1..], StackAfter(pieces[0], stack)));
    }
  }

  ghost predicate AllText(pieces: seq<Piece>) {
    forall i :: 0 <= i < |pieces| ==> pieces[i].Text?
  }

  lemma ClosersCut(s: string, k: nat)
    requires k < |s| && s[k] == ']'
    ensures Closers(s[k + 1..]) < Closers(s)
  {
    ClosersAdd(s[..k], s[k..]);
    assert s[..k] + s[k..] == s && s[k..][1..] == s[k + 1..];
  }

  lemma HeadClosers(p: Piece, rest: seq<Piece>)
    ensures ClosersIn([p] + rest) == (if p == Text(']') then 1 else 0) + ClosersIn(rest)
    ensures AllText([p] + rest) <==> p.Text? && AllText(rest)
  {
    var all := [p] + rest;
    assert all[1..] == rest && all[0] == p;
    assert forall i :: 0 <= i < |rest| ==> all[i + 1] == rest[i];
  }

  /** Reading a tag consumes a closing bracket that no piece shows. */
  lemma {:induction false} PiecesClosers(s: string)
    ensures ClosersIn(Pieces(s)) <= Closers(s)
    ensures !AllText(Pieces(s)) ==> ClosersIn(Pieces(s)) < Closers(s)
    decreases |s|, 1
  {
    hide TagOf, ClosersIn, AllText, Pieces;
    if s == [] {
      assert Pieces(s) == [] by { NoPieces(); }
      assert ClosersIn([]) == 0 && AllText([]) by { NoClosersIn(); }
    } else if s[0] != '[' {
      PiecesClosers(s[1..]);
      PlainPiece(s[0], s[1..]);
      assert s == [s[0]] + s[1..];
      HeadClosers(Text(s[0]), Pieces(s[1..]));
    } else if |s| > 1 && s[1] == '[' {
      PiecesClosers(s[2..]);
      EscapedBracket(s);
      HeadClosers(Text('['), Pieces(s[2..]));
      assert s[1..][1..] == s[2..];
    } else {
      PiecesClosersAtBracket(s);
    }
  }

  lemma {:induction false} PiecesClosersAtBracket(s: string)
    requires s != [] && s[0] == '[' && !(|s| > 1 && s[1] == '[')
    ensures ClosersIn(Pieces(s)) <= Closers(s)
    ensures !AllText(Pieces(s)) ==> ClosersIn(Pieces(s)) < Closers(s)
    decreases |s|, 0
  {
    hide TagOf, ClosersIn, AllText, Pieces;
    var after := s[1..];
    Bracket(s);
    if TagAfter(after).Some? {
      var close := Find(after, ']');
      PiecesClosers(after[close + 1..]);
      HeadClosers(PieceOf(TagAfter(after).value), Pieces(after[close + 1..]));
      ClosersCut(after, close);
    } else {
      PiecesClosers(after);
      HeadClosers(Text('['), Pieces(after));
    }
  }

  lemma NoClosersIn()
    ensures ClosersIn([]) == 0 && AllText([])
  {
  }

  lemma {:induction false} TextsRender(pieces: seq<Piece>)
    requires AllText(pieces)
    ensures |Render(pieces, [])| == |pieces|
    decreases |pieces|
  {
    if pieces != [] {
      TextsRender(pieces[1..]);
    }
  }

  lemma MarklessTail(s: string, k: nat)
    requires k <= |s| && Markless(s)
    ensures Markless(s[k..])
  {
    hide TagAfter;
    forall i | 0 <= i < |s| - k && s[k..][i] == '['
      ensures TagAfter(s[k..][i + 1..]).None? && (i + 1 < |s| - k ==> s[k..][i + 1] != '[')
    {
      assert s[k + i] == '[';
      assert s[k..][i + 1..] == s[k + i + 1..];
    }
  }

  lemma MarklessHere(s: string)
    requires s != [] && Markless(s[1..])
    ensures Markless(s) <==> (s[0] != '[' || (TagAfter(s[1..]).None? && (|s| > 1 ==> s[1] != '[')))
  {
    hide TagAfter;
    if s[0] != '[' || (TagAfter(s[1..]).None? && (|s| > 1 ==> s[1] != '[')) {
      forall i | 0 <= i < |s| && s[i] == '['
        ensures TagAfter(s[i + 1..]).None? && (i + 1 < |s| ==> s[i + 1] != '[')
      {
        if i > 0 {
          assert s[1..][i - 1] == '[' && s[1..][i - 1 + 1..] == s[i + 1..];
        }
      }
    } else {
      assert s[0] == '[' && s[0 + 1..] == s[1..];
    }
  }

  lemma {:induction false} PiecesShrink(s: string)
    ensures |Pieces(s)| <= |s|
    ensures AllText(Pieces(s)) && |Pieces(s)| == |s| ==> Markless(s)
    decreases |s|
  {
    hide TagOf, Markless;
    if s == [] {
      assert Markless(s) by { MarklessEmpty(); }
    } else {
      PiecesShrink(s[1..]);
      if s[0] != '[' {
        assert Pieces(s)[1..] == Pieces(s[1..]);
        if AllText(Pieces(s)) && |Pieces(s)| == |s| {
          MarklessHere(s);
        }
      } else {
        var after := s[1..];
        if after != [] && after[0] == '[' {
          PiecesShrink(s[2..]);
        } else if TagAfter(after).Some? {
          PiecesShrink(after[Find(after, ']') + 1..]);
          assert !Pieces(s)[0].Text?;
        } else {
          assert Pieces(s)[1..] == Pieces(s[1..]);
          if AllText(Pieces(s)) && |Pieces(s)| == |s| {
            MarklessHere(s);
          }
        }
      }
    }
  }

  lemma MarklessEmpty()
    ensures Markless("")
  {
  }

  lemma {:induction false} MarklessPieces(s: string)
    requires Markless(s)
    ensures Pieces(s) == Texts(s)
    decreases |s|
  {
    hide TagAfter;
    if s != [] {
      MarklessTail(s, 1);
      MarklessPieces(s[1..]);
      assert Texts(s) == [Text(s[0])] + Texts(s[1..]);
      assert s[0] == '[' ==> TagAfter(s[0 + 1..]).None?;
    }
  }

  /** A text compiles to itself exactly when it holds no doubled bracket and no tag;
      in particular compiled output passes through again under that condition. */
  lemma PassesThrough(s: string)
    ensures Colorized(s) == s <==> Markless(s)
  {
    hide Pieces, Render, Closers, ClosersIn, Markless;
    if Markless(s) {
      MarklessPieces(s);
      RenderTexts(s, [], []);
      assert Texts(s) + [] == Texts(s) && s + "" == s;
      assert Render([], []) == "" by { RenderNothing(); }
    }
    if Colorized(s) == s {
      PiecesClosers(s);
      RenderClosers(Pieces(s), []);
      TextsRender(Pieces(s));
      PiecesShrink(s);
    }
  }

  /** Compiled output is not always stable: an escaped doubled bracket loses one
      bracket each time. */
  lemma OutputCanChangeAgain()
    ensures Colorized("[[[[") == "[[" && Colorized("[[") != "[["
  {
    hide Colorized;
    assert Escape("[[") == "[[[[" by { EscapeCons("[["); }
    EscapeRoundTrip("[[");
    PassesThrough("[[");
    assert "[["[0] == '[' && "[["[1] == '[';
  }

  lemma RenderNothing()
    ensures Render([], []) == ""
  {
  }
}
