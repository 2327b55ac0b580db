/** The character classes, the symbol filter and the entry format shared by
    the symbol-string parsers (XKeyboard.cpp) and the layout/variant zipper
    (src/XKeyboard.cpp). */
module Symbols {
  import opened Strings

  /** `isalpha` in the C locale: ASCII letters only. */
  predicate IsAlpha(ch: char) {
    'a' <= ch <= 'z' || 'A' <= ch <= 'Z'
  }

  /** `isdigit`: ASCII decimal digits. */
  predicate IsDigit(ch: char) {
    '0' <= ch <= '9'
  }

  /** `goodchar`: the characters a symbol or a note may consist of. */
  predicate GoodChar(ch: char)
    ensures GoodChar(ch) ==> ch != '+' && ch != '(' && ch != ')' && ch != ':'
    ensures ch == '_' || ch == '-' ==> GoodChar(ch)
  {
    IsDigit(ch) || IsAlpha(ch) || ch == '_' || ch == '-'
  }

  predicate AllGood(s: string) {
    forall i :: 0 <= i < |s| ==> GoodChar(s[i])
  }

  /** `filter`: a symbol is accepted unless it is empty, is one of the
      stop-list words, or starts with a digit (a group counter such as `2`). */
  function Filter(nonsyms: seq<string>, symbol: string): (ok: bool)
    ensures ok <==> symbol != [] && symbol !in nonsyms && !IsDigit(symbol[0])
  {
    if symbol == [] then false
    else if IndexOf(nonsyms, symbol) != |nonsyms| then false
    else if IsDigit(symbol[0]) then false
    else true
  }

  /** The text of one layout entry: the symbol, followed by the note in
      parentheses when the note is non-empty. */
  function Annotate(s: string, note: string): (r: string)
    ensures |s| <= |r| && r[..|s|] == s
    ensures r == s <==> note == []
  {
    if note == [] then s else s + "(" + note + ")"
  }

  /** The layout of an entry: the symbol, then `(`, the note and `)` when
      there is a note. */
  lemma AnnotateShape(s: string, note: string)
    ensures var e := Annotate(s, note);
            (note == [] ==> e == s) &&
            (note != [] ==> |e| == |s| + |note| + 2 && e[..|s|] == s && e[|s|] == '('
                            && e[|s| + 1..|e| - 1] == note && e[|e| - 1] == ')')
  {
  }

  /** `safe_push_back`: appends the annotated symbol to `v`, unless the symbol
      is empty, in which case `v` is left as it is. */
  function SafePushBack(v: seq<string>, s: string, note: string): (r: seq<string>)
    ensures |r| == |v| + (if s == [] then 0 else 1)
    ensures r[..|v|] == v
    ensures s != [] ==> r[|v|] == Annotate(s, note)
  {
    if s == [] then v else v + [Annotate(s, note)]
  }

  /** Reads an entry back into its symbol and its note: the symbol is the text
      before the first `(`, the note what lies between it and the final
      character. */
  function SplitEntry(e: string): (string, string)
  {
    var i := IndexOf(e, '(');
    if i == |e| then (e, [])
    else (e[..i], if i + 1 < |e| then e[i + 1..|e| - 1] else [])
  }

  /** An entry as the symbol parsers emit it: a filtered symbol of good
      characters, optionally annotated with a note of good characters. */
  predicate ValidEntry(nonsyms: seq<string>, e: string) {
    var (s, note) := SplitEntry(e);
    Filter(nonsyms, s) && AllGood(s) && AllGood(note) && Annotate(s, note) == e
  }

  /** The entry format is unambiguous: a symbol without `(` and its note can
      always be recovered from the entry. */
  lemma AnnotateRoundTrip(s: string, note: string)
    requires '(' !in s
    ensures SplitEntry(Annotate(s, note)) == (s, note)
  {
    var e := Annotate(s, note);
    AnnotateShape(s, note);
    if note != [] {
      assert e[|s|] == '(';
      var i := IndexOf(e, '(');
      assert i <= |s|;
    }
  }

  /** Every annotated symbol the parsers accept is a valid entry. */
  lemma AnnotateValid(nonsyms: seq<string>, s: string, note: string)
    requires Filter(nonsyms, s) && AllGood(s) && AllGood(note)
    ensures ValidEntry(nonsyms, Annotate(s, note))
  {
    AnnotateRoundTrip(s, note);
  }
}
