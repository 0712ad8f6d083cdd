/** What is markup and what is text: the words, the tags and the division of a text,
    each with what is refused (src/ansi_colorizer.rs:72-161, 167-216). */
module MarkupGrammar {
  import opened Wrappers
  import opened Numerals
  import opened Tokens
  import opened Terminal
  import opened Markup
  import opened MarkupWriter

  ghost function Concat<T>(parts: seq<seq<T>>): seq<T> {
    if parts == [] then [] else parts[0] + Concat(parts[1..])
  }

  lemma ConcatCons<T>(part: seq<T>, rest: seq<seq<T>>)
    ensures Concat([part] + rest) == part + Concat(rest)
  {
    assert ([part] + rest)[1..] == rest;
  }

  // ---- Words ------------------------------------------------------------------------------

  /** `w` is a name of the colour: one of sixteen, grey for the ninth, or six hexadecimal
      digits, capitals or not. */
  ghost predicate Names(w: string, c: Color) {
    match c
    case Palette(i) => i < 16 && (w == ColorName(c) || (i == 8 && (w == "gray" || w == "grey")))
    case Rgb(r, g, b) =>
      ColorOk(c) && |w| == 7 && w[0] == '#' && Lower(w[1..]) == Hex(r, 2) + Hex(g, 2) + Hex(b, 2)
  }

  lemma HueIff(name: string, i: nat)
    ensures HueOf(name) == Some(i) <==> i < 8 && name == HueName(i)
  {
  }

  lemma FlagIff(tok: string, f: nat)
    ensures StyleFlag(tok) == Some(f) <==> FlagCode(f) && tok == FlagName(f)
  {
  }

  lemma HexIff(hex: string, r: nat, g: nat, b: nat)
    ensures HexColor(hex) == Some(Rgb(r, g, b)) <==>
            (|hex| == 6 && ColorOk(Rgb(r, g, b)) && Lower(hex) == Hex(r, 2) + Hex(g, 2) + Hex(b, 2))
  {
    hide Numeral, Hex, Lower;
    if |hex| == 6 {
      ReadsHex(hex[0..2], r);
      ReadsHex(hex[2..4], g);
      ReadsHex(hex[4..6], b);
      assert Pow16(2) == 256;
      var low, all := Lower(hex), Hex(r, 2) + Hex(g, 2) + Hex(b, 2);
      assert low[0..2] == Lower(hex[0..2]) && low[2..4] == Lower(hex[2..4]) && low[4..6] == Lower(hex[4..6]);
      assert all[0..2] == Hex(r, 2) && all[2..4] == Hex(g, 2) && all[4..6] == Hex(b, 2);
      assert low == low[0..2] + low[2..4] + low[4..6];
    }
  }

  /** Which words are colours, and which ones. */
  lemma ColorIff(tok: string, c: Color)
    ensures ColorOf(tok) == Some(c) <==> Names(tok, c)
  {
    hide HueOf, HueName, HexColor, Hex;
    if |tok| > 0 && tok[0] == '#' {
      match c
      case Rgb(r, g, b) => HexIff(tok[1..], r, g, b);
      case Palette(i) => HashIsNoName(tok, c);
    } else {
      NamedIff(tok, c);
    }
  }

  lemma HashIsNoName(tok: string, c: Color)
    requires |tok| > 0 && tok[0] == '#' && c.Palette?
    ensures !Names(tok, c) && HexColor(tok[1..]) != Some(c)
  {
    if c.index >= 8 {
      assert "bright-"[0] == 'b';
    }
  }

  lemma NamedIff(tok: string, c: Color)
    requires tok == [] || tok[0] != '#'
    ensures NamedColor(tok) == Some(c) <==> Names(tok, c)
  {
    hide HueOf, HueName, Hex;
    GrayColor();
    if Names(tok, c) {
      if c.Palette? {
        ColorNameReads(c);
      }
    } else if NamedColor(tok).Some? && tok != "gray" && tok != "grey" {
      var bright := "bright-" <= tok;
      var name := if bright then tok[7..] else tok;
      HueIff(name, HueOf(name).value);
      assert bright ==> tok == "bright-" + name;
    }
  }

  // ---- Attribute lists -----------------------------------------------------------------------

  ghost predicate IsFlag(w: string) {
    exists f :: FlagCode(f) && w == FlagName(f)
  }

  ghost predicate IsColor(w: string) {
    exists c :: Names(w, c)
  }

  /** One attribute: a style word, a colour, or `on` and a colour. */
  ghost predicate Attribute(words: seq<string>) {
    (|words| == 1 && (IsFlag(words[0]) || IsColor(words[0]))) || (|words| == 2 && words[0] == "on" && IsColor(words[1]))
  }

  ghost predicate Attributes(groups: seq<seq<string>>) {
    forall i :: 0 <= i < |groups| ==> Attribute(groups[i])
  }

  lemma WordKinds(w: string)
    ensures IsFlag(w) <==> StyleFlag(w).Some?
    ensures IsColor(w) <==> ColorOf(w).Some?
    ensures w == "on" ==> !IsFlag(w) && !IsColor(w)
  {
    hide StyleFlag, ColorOf, Names, FlagName;
    if f: nat :| FlagCode(f) && w == FlagName(f) {
      FlagIff(w, f);
    }
    if StyleFlag(w).Some? {
      FlagIff(w, StyleFlag(w).value);
    }
    if c :| Names(w, c) {
      ColorIff(w, c);
    }
    if ColorOf(w).Some? {
      ColorIff(w, ColorOf(w).value);
    }
    OnIsNothing();
  }

  lemma OnIsNothing()
    ensures StyleFlag("on").None? && ColorOf("on").None?
  {
  }

  lemma {:induction false} ListReads(groups: seq<seq<string>>, span: Span)
    requires Attributes(groups)
    ensures ReadAttributes(Concat(groups), span).Some?
    decreases |groups|
  {
    hide StyleFlag, ColorOf, IsFlag, IsColor;
    if groups != [] {
      var g, toks := groups[0], Concat(groups);
      WordKinds(g[0]);
      if |g| == 2 {
        WordKinds(g[1]);
      }
      assert toks[..|g|] == g && toks[|g|..] == Concat(groups[1..]);
      var next := if g[0] == "on" then span.(bg := ColorOf(g[1]))
                  else if StyleFlag(g[0]).Some? then span.(flags := AddFlag(span.flags, StyleFlag(g[0]).value))
                  else span.(fg := ColorOf(g[0]));
      ListReads(groups[1..], next);
    }
  }

  lemma {:induction false} ReadIsList(toks: seq<string>, span: Span) returns (groups: seq<seq<string>>)
    requires ReadAttributes(toks, span).Some?
    ensures Attributes(groups) && Concat(groups) == toks
    decreases |toks|
  {
    hide StyleFlag, ColorOf, IsFlag, IsColor;
    if toks == [] {
      groups := [];
    } else {
      WordKinds(toks[0]);
      var n := if toks[0] == "on" then 2 else 1;
      var next := if toks[0] == "on" then span.(bg := ColorOf(toks[1]))
                  else if StyleFlag(toks[0]).Some? then span.(flags := AddFlag(span.flags, StyleFlag(toks[0]).value))
                  else span.(fg := ColorOf(toks[0]));
      if n == 2 {
        WordKinds(toks[1]);
      }
      var rest := ReadIsList(toks[n..], next);
      groups := [toks[..n]] + rest;
      ConcatCons(toks[..n], rest);
    }
  }

  /** The words of a tag are read if and only if they are a list of attributes. */
  lemma AttributesIff(toks: seq<string>, span: Span)
    ensures ReadAttributes(toks, span).Some? <==> exists groups :: Attributes(groups) && Concat(groups) == toks
  {
    hide ReadAttributes, Attributes;
    if groups :| Attributes(groups) && Concat(groups) == toks {
      ListReads(groups, span);
    }
    if ReadAttributes(toks, span).Some? {
      var groups := ReadIsList(toks, span);
    }
  }

  // ---- Tags -------------------------------------------------------------------------------------

  lemma {:induction false} TrimStartWords(s: string)
    ensures Words(TrimStart(s), Unicode) == Words(s, Unicode)
    ensures TrimStart(s) == [] || !IsSpace(TrimStart(s)[0], Unicode)
    decreases |s|
  {
    if s != [] && IsSpace(s[0], Unicode) {
      TrimStartWords(s[1..]);
    }
  }

  lemma {:induction false} SpaceAtEnd(s: string, c: char)
    requires IsSpace(c, Unicode)
    ensures Words(s + [c], Unicode) == Words(s, Unicode)
    decreases |s|
  {
    hide IsSpace;
    var t := s + [c];
    if s == [] {
      assert t[1..] == [];
    } else if IsSpace(s[0], Unicode) {
      assert t[1..] == s[1..] + [c];
      SpaceAtEnd(s[1..], c);
    } else {
      var n := WordLength(s, Unicode);
      LengthBeforeSpace(s, c);
      assert t[..n] == s[..n] && t[n..] == s[n..] + [c];
      SpaceAtEnd(s[n..], c);
    }
  }

  lemma LengthBeforeSpace(s: string, c: char)
    requires IsSpace(c, Unicode)
    ensures WordLength(s + [c], Unicode) == WordLength(s, Unicode)
  {
    hide IsSpace;
    var t := s + [c];
    assert forall i :: 0 <= i < |s| ==> t[i] == s[i];
    assert t[|s|] == c;
  }

  lemma {:induction false} TrimEndWords(s: string)
    ensures Words(TrimEnd(s), Unicode) == Words(s, Unicode)
    ensures TrimEnd(s) <= s
    ensures TrimEnd(s) == [] || !IsSpace(TrimEnd(s)[|TrimEnd(s)| - 1], Unicode)
    decreases |s|
  {
    hide IsSpace;
    if s != [] && IsSpace(s[|s| - 1], Unicode) {
      TrimEndWords(s[..|s| - 1]);
      SpaceAtEnd(s[..|s| - 1], s[|s| - 1]);
      assert s == s[..|s| - 1] + [s[|s| - 1]];
    }
  }

  lemma {:induction false} NoWordsNoText(s: string)
    requires s != [] && !IsSpace(s[|s| - 1], Unicode)
    ensures Words(s, Unicode) != []
    decreases |s|
  {
    if IsSpace(s[0], Unicode) {
      NoWordsNoText(s[1..]);
    }
  }

  lemma SlashAlone(s: string)
    requires s != [] ==> !IsSpace(s[0], Unicode) && !IsSpace(s[|s| - 1], Unicode)
    ensures s == "/" <==> Words(s, Unicode) == ["/"]
    ensures s == "" <==> Words(s, Unicode) == []
  {
    hide IsSpace;
    if s != [] {
      SplitsOff(s);
      var n := WordLength(s, Unicode);
      if n < |s| {
        NoWordsNoText(s[n..]);
      }
      assert n == |s| ==> s[..n] == s && s[n..] == [];
    }
  }

  lemma SplitsOff(s: string)
    requires s != [] && !IsSpace(s[0], Unicode)
    ensures Words(s, Unicode) == [s[..WordLength(s, Unicode)]] + Words(s[WordLength(s, Unicode)..], Unicode)
    ensures Words("", Unicode) == [] && WordLength(s, Unicode) > 0
    ensures s == "/" ==> WordLength(s, Unicode) == 1
  {
  }

  /** Whatever the white space, a run within brackets is a tag if and only if it has no
      newline and its words are a slash, or an attribute list that is not empty. */
  lemma TagIff(content: string)
    ensures TagOf(content) == Some(CloseTag) <==> '\n' !in content && Words(content, Unicode) == ["/"]
    ensures forall span :: TagOf(content) == Some(OpenTag(span)) <==>
              '\n' !in content && Words(content, Unicode) != [] && ReadAttributes(Words(content, Unicode), NoSpan) == Some(span)
    ensures TagOf(content).None? <==>
            '\n' in content ||
            (Words(content, Unicode) != ["/"] &&
             (Words(content, Unicode) == [] || !exists groups :: Attributes(groups) && Concat(groups) == Words(content, Unicode)))
  {
    hide Words, TrimStart, TrimEnd, ReadAttributes, Attributes;
    var cut := TrimStart(content);
    var body := TrimEnd(cut);
    TrimStartWords(content);
    TrimEndWords(cut);
    assert body != [] ==> body[0] == cut[0];
    SlashAlone(body);
    SlashIsNothing();
    AttributesIff(Words(content, Unicode), NoSpan);
  }

  lemma SlashIsNothing()
    ensures ReadAttributes(["/"], NoSpan).None?
  {
  }

  // ---- Texts ---------------------------------------------------------------------------------------

  /** `part`, with `rest` after it, stands for the piece. A bracket is text when it is doubled,
      or when neither another follows nor the run up to the next closing bracket is a tag. */
  ghost predicate Stands(part: string, p: Piece, rest: string) {
    match p
    case Text(c) =>
      if c != '[' then part == [c]
      else part == "[[" || (part == "[" && !("[" <= rest) && !StartsTag(rest))
    case Open(span) => exists content :: part == "[" + content + "]" && Run(content) && TagOf(content) == Some(OpenTag(span))
    case Close => exists content :: part == "[" + content + "]" && Run(content) && TagOf(content) == Some(CloseTag)
  }

  /** What can stand between the brackets of a tag. */
  ghost predicate Run(content: string) {
    ']' !in content && !("[" <= content)
  }

  ghost predicate StartsTag(after: string) {
    exists content :: content + "]" <= after && Run(content) && TagOf(content).Some?
  }

  ghost predicate Divided(s: string, parts: seq<string>, pieces: seq<Piece>) {
    Concat(parts) == s && |parts| == |pieces| &&
    forall i :: 0 <= i < |parts| ==> Stands(parts[i], pieces[i], Concat(parts[i + 1..]))
  }

  lemma FindsRun(content: string, more: string)
    requires Run(content)
    ensures Find(content + "]" + more, ']') == |content| && (content + "]" + more)[..|content|] == content
    ensures !("[" <= content + "]" + more)
  {
    var s := content + "]" + more;
    var n := Find(s, ']');
    assert s[|content|] == ']';
    assert forall i :: 0 <= i < |content| ==> s[i] == content[i];
  }

  lemma StartsTagIff(after: string)
    requires !("[" <= after)
    ensures StartsTag(after) <==> TagAfter(after).Some?
  {
    hide TagOf;
    if content :| content + "]" <= after && Run(content) && TagOf(content).Some? {
      var more := after[|content| + 1..];
      assert after == content + "]" + more;
      FindsRun(content, more);
    }
    var n := Find(after, ']');
    if n < |after| {
      assert after[..n] + "]" <= after;
      assert "[" <= after[..n] ==> "[" <= after;
    }
  }

  /** The first piece is what stands at the front, and the rest is read from there. */
  lemma FrontIs(part: string, p: Piece, rest: string)
    requires Stands(part, p, rest)
    ensures Pieces(part + rest) == [p] + Pieces(rest) && part != []
  {
    hide Pieces, TagOf, StartsTag, TagAfter;
    var s := part + rest;
    match p
    case Text(c) =>
      if c != '[' {
        PlainPiece(c, rest);
      } else if part == "[[" {
        EscapedBracket(s);
        assert s[2..] == rest;
      } else {
        StartsTagIff(rest);
        assert s[1..] == rest;
        assert |s| > 1 ==> s[1] == rest[0];
        Bracket(s);
      }
    case Open(span) =>
      var content :| part == "[" + content + "]" && Run(content) && TagOf(content) == Some(OpenTag(span));
      TagAtFront(content, rest);
    case Close =>
      var content :| part == "[" + content + "]" && Run(content) && TagOf(content) == Some(CloseTag);
      TagAtFront(content, rest);
  }

  lemma TagAtFront(content: string, rest: string)
    requires Run(content) && TagOf(content).Some?
    ensures Pieces("[" + content + "]" + rest) == [PieceOf(TagOf(content).value)] + Pieces(rest)
  {
    hide Pieces, TagOf;
    var s, after := "[" + content + "]" + rest, content + "]" + rest;
    assert s[1..] == after;
    FindsRun(content, rest);
    assert s[1] == after[0];
    Bracket(s);
    assert after[|content| + 1..] == rest;
  }

  lemma {:induction false} DividedReads(parts: seq<string>, pieces: seq<Piece>)
    requires Divided(Concat(parts), parts, pieces)
    ensures Pieces(Concat(parts)) == pieces
    decreases |parts|
  {
    hide Stands, Pieces;
    if parts == [] {
      NothingReads();
    } else {
      var rest := parts[1..];
      forall i | 0 <= i < |rest| ensures Stands(rest[i], pieces[1..][i], Concat(rest[i + 1..])) {
        assert rest[i + 1..] == parts[i + 2..];
      }
      DividedReads(rest, pieces[1..]);
      FrontIs(parts[0], pieces[0], Concat(rest));
      assert pieces == [pieces[0]] + pieces[1..];
    }
  }

  lemma NothingReads()
    ensures Pieces("") == []
  {
  }

  /** What the text starts with. */
  lemma FrontOf(s: string) returns (part: string, p: Piece, rest: string)
    requires s != []
    ensures s == part + rest && part != [] && Stands(part, p, rest)
  {
    hide TagOf, StartsTag, Stands, TagAfter;
    rest := s[1..];
    if s[0] != '[' {
      part, p := [s[0]], Text(s[0]);
      TextStands(part, s[0], rest);
    } else if |s| > 1 && s[1] == '[' {
      part, p, rest := "[[", Text('['), s[2..];
      TextStands(part, '[', rest);
    } else {
      StartsTagIff(rest);
      if TagAfter(rest).None? {
        part, p := "[", Text('[');
        TextStands(part, '[', rest);
      } else {
        var content, more := RunOf(rest);
        part, p, rest := "[" + content + "]", PieceOf(TagOf(content).value), more;
        TagStands(content, more);
      }
    }
  }

  lemma TextStands(part: string, c: char, rest: string)
    requires if c != '[' then part == [c] else part == "[[" || (part == "[" && !("[" <= rest) && !StartsTag(rest))
    ensures Stands(part, Text(c), rest)
  {
  }

  lemma TagStands(content: string, rest: string)
    requires Run(content) && TagOf(content).Some?
    ensures Stands("[" + content + "]", PieceOf(TagOf(content).value), rest)
  {
    hide TagOf;
  }

  lemma RunOf(after: string) returns (content: string, more: string)
    requires !("[" <= after) && TagAfter(after).Some?
    ensures after == content + "]" + more && Run(content) && TagOf(content).Some?
  {
    hide TagOf;
    var n := Find(after, ']');
    content, more := after[..n], after[n + 1..];
    assert after == after[..n] + [after[n]] + after[n + 1..];
  }

  lemma {:induction false} Divide(s: string) returns (parts: seq<string>, pieces: seq<Piece>)
    ensures Divided(s, parts, pieces)
    decreases |s|
  {
    hide Stands;
    if s == [] {
      parts, pieces := [], [];
    } else {
      var part, p, rest := FrontOf(s);
      var ps, qs := Divide(rest);
      parts, pieces := [part] + ps, [p] + qs;
      ConcatCons(part, ps);
      forall i | 0 <= i < |parts| ensures Stands(parts[i], pieces[i], Concat(parts[i + 1..])) {
        assert parts[i + 1..] == if i == 0 then ps else ps[i..];
      }
    }
  }

  /** A text reads as these pieces if and only if it divides into parts that stand for them:
      every text reads in exactly one way, and nothing in it is lost. */
  lemma PiecesIff(s: string, pieces: seq<Piece>)
    ensures Pieces(s) == pieces <==> exists parts :: Divided(s, parts, pieces)
  {
    hide Pieces, Divided;
    if parts :| Divided(s, parts, pieces) {
      assert Concat(parts) == s by { DividedWhole(s, parts, pieces); }
      DividedReads(parts, pieces);
    }
    var parts, read := Divide(s);
    assert Concat(parts) == s by { DividedWhole(s, parts, read); }
    DividedReads(parts, read);
  }

  lemma DividedWhole(s: string, parts: seq<string>, pieces: seq<Piece>)
    requires Divided(s, parts, pieces)
    ensures Concat(parts) == s
  {
  }
}
