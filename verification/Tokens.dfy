/** Splitting a line at white space. */
module Tokens {
  /** Which characters separate words: the five ASCII ones, or every character
      with the Unicode White_Space property. */
  datatype Spaces = Ascii | Unicode

  predicate IsSpace(c: char, kind: Spaces) {
    c == ' ' || c == '\t' || c == '\n' || c == '\r' || c == 12 as char ||
    (kind.Unicode? && UnicodeOnlySpace(c as nat))
  }

  predicate UnicodeOnlySpace(c: nat) {
    c == 0x0B || c == 0x85 || c == 0xA0 || c == 0x1680 || 0x2000 <= c <= 0x200A ||
    c == 0x2028 || c == 0x2029 || c == 0x202F || c == 0x205F || c == 0x3000
  }

  predicate Word(s: string, kind: Spaces) {
    |s| > 0 && forall i :: 0 <= i < |s| ==> !IsSpace(s[i], kind)
  }

  function WordLength(s: string, kind: Spaces): (n: nat)
    ensures n <= |s|
    ensures forall i :: 0 <= i < n ==> !IsSpace(s[i], kind)
    ensures n < |s| ==> IsSpace(s[n], kind)
    decreases |s|
  {
    if s == [] || IsSpace(s[0], kind) then 0 else 1 + WordLength(s[1..], kind)
  }

  function Words(s: string, kind: Spaces): seq<string>
    decreases |s|
  {
    if s == [] then []
    else if IsSpace(s[0], kind) then Words(s[1..], kind)
    else [s[..WordLength(s, kind)]] + Words(s[WordLength(s, kind)..], kind)
  }

  /** A word at the front of a line is its first token. */
  lemma FirstWord(w: string, rest: string, kind: Spaces)
    requires Word(w, kind) && (rest == [] || IsSpace(rest[0], kind))
    ensures Words(w + rest, kind) == [w] + Words(rest, kind)
  {
    var s := w + rest;
    var n := WordLength(s, kind);
    assert forall i :: 0 <= i < |w| ==> s[i] == w[i];
    assert rest != [] ==> s[|w|] == rest[0];
    assert n == |w|;
    assert s[..n] == w && s[n..] == rest;
  }

  lemma LastWord(w: string, kind: Spaces)
    requires Word(w, kind)
    ensures Words(w, kind) == [w]
  {
    assert w + [] == w;
    FirstWord(w, [], kind);
  }

  lemma NextWord(w: string, rest: string, kind: Spaces)
    requires Word(w, kind)
    ensures Words(w + " " + rest, kind) == [w] + Words(rest, kind)
  {
    assert w + " " + rest == w + (" " + rest);
    FirstWord(w, " " + rest, kind);
    assert (" " + rest)[1..] == rest;
  }
}
