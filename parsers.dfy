/** The three generations of the XKB symbols-string tokenizer (XKeyboard.cpp):
    `parse1`, a letters-after-`+` scanner, and `parse2`/`parse3`, an
    ok/skip/broken state machine with a parenthesis counter and two
    accumulators, `sym` and `note`.

    Each parser is a method whose loop mirrors the source, proved equal to a
    specification function that folds one step function over the input. The
    properties of the parsers are lemmas about those folds. */
module Parsers {
  import opened Strings
  import opened Symbols

  // ------------------------------------------------------------------
  // parse2 and parse3: the state machine
  // ------------------------------------------------------------------

  /** The `ok`, `skip` and `broken` states of the scanner. */
  datatype Mode = Ok | Skip | Broken

  /** The two generations of the state machine differ only at terminators:
      parse2 ends a token at every `+` and resets the parenthesis depth;
      parse3 ends a token at `+` or `_`, and only at depth 0. */
  datatype Dialect = Parse2Rules | Parse3Rules

  /** The scanner's variables: `state`, `paren`, `sym`, `note`, `symlist`. */
  datatype Scan = Scan(mode: Mode, paren: int, sym: string, note: string, out: seq<string>)

  const Start: Scan := Scan(Ok, 0, [], [], [])

  predicate IsTerminator(d: Dialect, ch: char) {
    ch == '+' || (d == Parse3Rules && ch == '_')
  }

  predicate NoTerminator(d: Dialect, t: string) {
    forall i :: 0 <= i < |t| ==> !IsTerminator(d, t[i])
  }

  /** A character that corrupts the current token when met in `ok` state. */
  predicate Breaks(d: Dialect, ch: char) {
    !GoodChar(ch) && ch != '(' && ch != ')' && ch != ':' && !IsTerminator(d, ch)
  }

  /** The commit rule, applied at a terminator and at the end of the input:
      the token is emitted when it is not broken, its parentheses balance and
      its symbol passes the filter. */
  function Commit(nonsyms: seq<string>, sc: Scan): (r: seq<string>)
    ensures |sc.out| <= |r| <= |sc.out| + 1 && r[..|sc.out|] == sc.out
    ensures |r| == |sc.out| + 1 <==> sc.mode != Broken && sc.paren == 0 && Filter(nonsyms, sc.sym)
    ensures |r| == |sc.out| + 1 ==> r[|sc.out|] == Annotate(sc.sym, sc.note)
  {
    if sc.mode != Broken && sc.paren == 0 && Filter(nonsyms, sc.sym) then
      SafePushBack(sc.out, sc.sym, sc.note)
    else
      sc.out
  }

  /** A character other than a terminator: parentheses move the depth, `:`
      starts skipping, a good character extends `sym` at depth 0 and `note`
      otherwise, anything else breaks the token. Only `ok` state reacts. */
  function InToken(sc: Scan, ch: char): (r: Scan)
  {
    if sc.mode == Ok && ch == '(' then sc.(paren := sc.paren + 1)
    else if sc.mode == Ok && ch == ')' then sc.(paren := sc.paren - 1)
    else if sc.mode == Ok && ch == ':' then sc.(mode := Skip)
    else if sc.mode == Ok && GoodChar(ch) then
      if sc.paren == 0 then sc.(sym := sc.sym + [ch]) else sc.(note := sc.note + [ch])
    else if sc.mode == Ok then sc.(mode := Broken)
    else sc
  }

  /** One iteration of the scanning loop of parse2 or parse3. */
  function Step(d: Dialect, nonsyms: seq<string>, sc: Scan, ch: char): (r: Scan)
  {
    match d
    case Parse2Rules =>
      if ch == '+' then Scan(Ok, 0, [], [], Commit(nonsyms, sc))
      else InToken(sc, ch)
    case Parse3Rules =>
      if ch == '+' || ch == '_' then
        if sc.paren == 0 then sc.(mode := Ok, sym := [], note := [], out := Commit(nonsyms, sc))
        else sc
      else InToken(sc, ch)
  }

  /** The scanner's variables after reading `t`, starting from `sc`. */
  function Run(d: Dialect, nonsyms: seq<string>, sc: Scan, t: string): Scan
    decreases |t|
  {
    if t == [] then sc
    else Step(d, nonsyms, Run(d, nonsyms, sc, t[..|t| - 1]), t[|t| - 1])
  }

  /** What parse2 (or parse3) returns for `symbols`: the scan of the whole
      input followed by the flush of the trailing token. */
  function SymbolList(d: Dialect, nonsyms: seq<string>, symbols: string): seq<string> {
    Commit(nonsyms, Run(d, nonsyms, Start, symbols))
  }

  /** `parse2`. */
  method Parse2(symbols: string, nonsyms: seq<string>) returns (symlist: seq<string>)
    ensures symlist == SymbolList(Parse2Rules, nonsyms, symbols)
  {
    var state := Ok;
    var paren := 0;
    var sym: string := [];
    var note: string := [];
    symlist := [];
    for i := 0 to |symbols|
      invariant Scan(state, paren, sym, note, symlist) == Run(Parse2Rules, nonsyms, Start, symbols[..i])
    {
      var ch := symbols[i];
      if ch == '+' {
        if state != Broken && paren == 0 && Filter(nonsyms, sym) {
          symlist := SafePushBack(symlist, sym, note);
        }
        state := Ok;
        paren := 0;
        sym := [];
        note := [];
      } else if state == Ok && ch == '(' {
        paren := paren + 1;
      } else if state == Ok && ch == ')' {
        paren := paren - 1;
      } else if state == Ok && ch == ':' {
        state := Skip;
      } else if state == Ok && GoodChar(ch) {
        if paren == 0 {
          sym := sym + [ch];
        } else {
          note := note + [ch];
        }
      } else if state == Ok {
        state := Broken;
      }
      assert symbols[..i + 1][..i] == symbols[..i];
    }
    if state != Broken && paren == 0 && Filter(nonsyms, sym) {
      symlist := SafePushBack(symlist, sym, note);
    }
    assert symbols[..|symbols|] == symbols;
  }

  /** `parse3`, the parser the command-line tool binds to `parse`. */
  method Parse3(symbols: string, nonsyms: seq<string>) returns (symlist: seq<string>)
    ensures symlist == SymbolList(Parse3Rules, nonsyms, symbols)
  {
    var state := Ok;
    var paren := 0;
    var sym: string := [];
    var note: string := [];
    symlist := [];
    for i := 0 to |symbols|
      invariant Scan(state, paren, sym, note, symlist) == Run(Parse3Rules, nonsyms, Start, symbols[..i])
    {
      var ch := symbols[i];
      if ch == '+' || ch == '_' {
        if paren == 0 {
          if state != Broken && paren == 0 && Filter(nonsyms, sym) {
            symlist := SafePushBack(symlist, sym, note);
          }
          state := Ok;
          sym := [];
          note := [];
        }
      } else if state == Ok && ch == '(' {
        paren := paren + 1;
      } else if state == Ok && ch == ')' {
        paren := paren - 1;
      } else if state == Ok && ch == ':' {
        state := Skip;
      } else if state == Ok && GoodChar(ch) {
        if paren == 0 {
          sym := sym + [ch];
        } else {
          note := note + [ch];
        }
      } else if state == Ok {
        state := Broken;
      }
      assert symbols[..i + 1][..i] == symbols[..i];
    }
    if state != Broken && paren == 0 && Filter(nonsyms, sym) {
      symlist := SafePushBack(symlist, sym, note);
    }
    assert symbols[..|symbols|] == symbols;
  }

  // ------------------------------------------------------------------
  // Structure of the fold
  // ------------------------------------------------------------------

  /** Scanning `a + b` is scanning `a`, then `b`. */
  lemma {:induction false} RunConcat(d: Dialect, nonsyms: seq<string>, sc: Scan, a: string, b: string)
    ensures Run(d, nonsyms, sc, a + b) == Run(d, nonsyms, Run(d, nonsyms, sc, a), b)
    decreases |b|
  {
    if b == [] {
      assert a + b == a;
    } else {
      var b' := b[..|b| - 1];
      assert (a + b)[..|a + b| - 1] == a + b';
      RunConcat(d, nonsyms, sc, a, b');
    }
  }

  /** The scanner only ever appends to its output: scanning from a state with
      output `o` gives `o` followed by what the same scan with empty output
      gives, and leaves every other variable as that scan does. */
  lemma {:induction false} RunAppendsOnly(d: Dialect, nonsyms: seq<string>, sc: Scan, t: string)
    ensures var clean := Run(d, nonsyms, sc.(out := []), t);
            Run(d, nonsyms, sc, t) == clean.(out := sc.out + clean.out)
    decreases |t|
  {
    if t != [] {
      var t' := t[..|t| - 1];
      RunAppendsOnly(d, nonsyms, sc, t');
      var clean := Run(d, nonsyms, sc.(out := []), t');
      StepAppendsOnly(d, nonsyms, clean, t[|t| - 1], sc.out);
    }
  }

  /** One character of input: `Step` only appends to `symlist`, only a terminator
      can append, and in `skip` or `broken` state (the `InToken` rules) any
      other character leaves the scanner as it is. */
  lemma StepShape(d: Dialect, nonsyms: seq<string>, sc: Scan, ch: char)
    ensures var r := Step(d, nonsyms, sc, ch);
            |sc.out| <= |r.out| && r.out[..|sc.out|] == sc.out
    ensures !IsTerminator(d, ch) ==> Step(d, nonsyms, sc, ch).out == sc.out
    ensures sc.mode != Ok && !IsTerminator(d, ch) ==> Step(d, nonsyms, sc, ch) == sc
  {
  }

  lemma StepAppendsOnly(d: Dialect, nonsyms: seq<string>, sc: Scan, ch: char, o: seq<string>)
    ensures var next := Step(d, nonsyms, sc, ch);
            Step(d, nonsyms, sc.(out := o + sc.out), ch) == next.(out := o + next.out)
  {
    if IsTerminator(d, ch) {
      CommitAppendsOnly(nonsyms, sc, o);
    }
  }

  lemma CommitAppendsOnly(nonsyms: seq<string>, sc: Scan, o: seq<string>)
    ensures Commit(nonsyms, sc.(out := o + sc.out)) == o + Commit(nonsyms, sc)
  {
    if sc.mode != Broken && sc.paren == 0 && Filter(nonsyms, sc.sym) {
      assert o + sc.out + [Annotate(sc.sym, sc.note)] == o + (sc.out + [Annotate(sc.sym, sc.note)]);
    }
  }

  /** Once the scanner left `ok` state, nothing but a terminator changes it. */
  lemma {:induction false} RunAbsorbs(d: Dialect, nonsyms: seq<string>, sc: Scan, t: string)
    requires sc.mode != Ok && NoTerminator(d, t)
    ensures Run(d, nonsyms, sc, t) == sc
    decreases |t|
  {
    if t != [] {
      RunAbsorbs(d, nonsyms, sc, t[..|t| - 1]);
    }
  }

  /** Without a terminator nothing is emitted. */
  lemma {:induction false} RunKeepsOut(d: Dialect, nonsyms: seq<string>, sc: Scan, t: string)
    requires NoTerminator(d, t)
    ensures Run(d, nonsyms, sc, t).out == sc.out
    decreases |t|
  {
    if t != [] {
      RunKeepsOut(d, nonsyms, sc, t[..|t| - 1]);
    }
  }

  /** Without a terminator or a `:`, the scanner never enters `skip`. */
  lemma {:induction false} RunNeverSkips(d: Dialect, nonsyms: seq<string>, sc: Scan, t: string)
    requires sc.mode != Skip && NoTerminator(d, t) && ':' !in t
    ensures Run(d, nonsyms, sc, t).mode != Skip
    decreases |t|
  {
    if t != [] {
      RunNeverSkips(d, nonsyms, sc, t[..|t| - 1]);
    }
  }

  // ------------------------------------------------------------------
  // Properties of parse2 and parse3
  // ------------------------------------------------------------------

  /** Empty input gives an empty list. */
  lemma EmptyInput(d: Dialect, nonsyms: seq<string>)
    ensures SymbolList(d, nonsyms, []) == []
  {
  }

  /** The scanner's invariant: the accumulators hold good characters only
      (and, for parse3, no `_`), and every emitted entry is valid. */
  predicate EntriesInv(d: Dialect, nonsyms: seq<string>, sc: Scan) {
    && AllGood(sc.sym) && AllGood(sc.note)
    && (d == Parse3Rules ==> '_' !in sc.sym && '_' !in sc.note)
    && forall k :: 0 <= k < |sc.out| ==>
         ValidEntry(nonsyms, sc.out[k]) && (d == Parse3Rules ==> '_' !in sc.out[k])
  }

  lemma CommitInv(d: Dialect, nonsyms: seq<string>, sc: Scan)
    requires EntriesInv(d, nonsyms, sc)
    ensures EntriesInv(d, nonsyms, sc.(mode := Ok, sym := [], note := [], out := Commit(nonsyms, sc)))
  {
    var r := Commit(nonsyms, sc);
    if |r| == |sc.out| + 1 {
      AnnotateValid(nonsyms, sc.sym, sc.note);
      assert r == sc.out + [Annotate(sc.sym, sc.note)];
    }
  }

  lemma {:induction false} RunInv(d: Dialect, nonsyms: seq<string>, t: string)
    ensures EntriesInv(d, nonsyms, Run(d, nonsyms, Start, t))
    decreases |t|
  {
    if t != [] {
      var t' := t[..|t| - 1];
      var ch := t[|t| - 1];
      RunInv(d, nonsyms, t');
      var sc := Run(d, nonsyms, Start, t');
      if IsTerminator(d, ch) {
        CommitInv(d, nonsyms, sc);
      } else {
        var sc' := InToken(sc, ch);
        assert sc'.out == sc.out;
        assert sc'.sym == sc.sym || sc'.sym == sc.sym + [ch];
        assert sc'.note == sc.note || sc'.note == sc.note + [ch];
      }
    }
  }

  /** Every emitted entry is a symbol that passes the filter, made of good
      characters, optionally followed by `(note)` with a note of good
      characters; under parse3 no entry contains `_`. */
  lemma Entries(d: Dialect, nonsyms: seq<string>, symbols: string)
    ensures var r := SymbolList(d, nonsyms, symbols);
            forall k :: 0 <= k < |r| ==>
              ValidEntry(nonsyms, r[k]) && (d == Parse3Rules ==> '_' !in r[k])
  {
    var sc := Run(d, nonsyms, Start, symbols);
    RunInv(d, nonsyms, symbols);
    CommitInv(d, nonsyms, sc);
  }

  /** Everything from a `:` up to the next terminator is ignored, whatever
      the depth, so `ru:2` gives what `ru` gives and a `:` inside
      parentheses leaves the depth unbalanced. */
  lemma ColonEndsToken(d: Dialect, nonsyms: seq<string>, a: string, b: string)
    requires NoTerminator(d, b)
    ensures SymbolList(d, nonsyms, a + [':'] + b) == SymbolList(d, nonsyms, a)
  {
    var sc := Run(d, nonsyms, Start, a);
    RunConcat(d, nonsyms, Start, a, [':']);
    RunConcat(d, nonsyms, Start, a + [':'], b);
    assert Run(d, nonsyms, sc, [':']) == Step(d, nonsyms, sc, ':');
    var sc' := Step(d, nonsyms, sc, ':');
    assert sc'.mode != Ok;
    RunAbsorbs(d, nonsyms, sc', b);
  }

  /** A character outside the good set, the parentheses, `:` and the
      terminators, met in `ok` state, breaks the token: it adds nothing to
      the output, whatever follows before the next terminator. */
  lemma BrokenCharDropsToken(d: Dialect, nonsyms: seq<string>, a: string, c: char, b: string)
    requires Run(d, nonsyms, Start, a).mode == Ok
    requires Breaks(d, c) && NoTerminator(d, b)
    ensures SymbolList(d, nonsyms, a + [c] + b) == Run(d, nonsyms, Start, a).out
  {
    var sc := Run(d, nonsyms, Start, a);
    RunConcat(d, nonsyms, Start, a, [c]);
    RunConcat(d, nonsyms, Start, a + [c], b);
    assert Run(d, nonsyms, sc, [c]) == Step(d, nonsyms, sc, c);
    var sc' := Step(d, nonsyms, sc, c);
    assert sc' == sc.(mode := Broken);
    RunAbsorbs(d, nonsyms, sc', b);
  }

  /** A token with no `:` that contains a breaking character emits nothing. */
  lemma BrokenTokenEmitsNothing(d: Dialect, nonsyms: seq<string>, a: string, c: char, b: string)
    requires NoTerminator(d, a) && ':' !in a
    requires Breaks(d, c) && NoTerminator(d, b)
    ensures SymbolList(d, nonsyms, a + [c] + b) == []
  {
    var sc := Run(d, nonsyms, Start, a);
    RunKeepsOut(d, nonsyms, Start, a);
    RunNeverSkips(d, nonsyms, Start, a);
    RunConcat(d, nonsyms, Start, a, [c]);
    RunConcat(d, nonsyms, Start, a + [c], b);
    assert Run(d, nonsyms, sc, [c]) == Step(d, nonsyms, sc, c);
    var sc' := Step(d, nonsyms, sc, c);
    assert sc'.mode == Broken;
    RunAbsorbs(d, nonsyms, sc', b);
  }

  /** The number of terminators in `t`. */
  function Terminators(d: Dialect, t: string): nat {
    if t == [] then 0
    else Terminators(d, t[..|t| - 1]) + (if IsTerminator(d, t[|t| - 1]) then 1 else 0)
  }

  /** The output is never longer than the number of tokens: the scan adds
      at most one entry per terminator it reads. */
  lemma {:induction false} RunOutBound(d: Dialect, nonsyms: seq<string>, sc: Scan, t: string)
    ensures |Run(d, nonsyms, sc, t).out| <= |sc.out| + Terminators(d, t)
    decreases |t|
  {
    if t != [] {
      RunOutBound(d, nonsyms, sc, t[..|t| - 1]);
    }
  }

  lemma OutputBound(d: Dialect, nonsyms: seq<string>, symbols: string)
    ensures |SymbolList(d, nonsyms, symbols)| <= Terminators(d, symbols) + 1
  {
    RunOutBound(d, nonsyms, Start, symbols);
  }

  /** After a terminator that commits, the scanner is back at its start, with
      the committed output. */
  lemma AfterCommit(d: Dialect, nonsyms: seq<string>, a: string, t: char, b: string)
    requires IsTerminator(d, t)
    requires d == Parse3Rules ==> Run(d, nonsyms, Start, a).paren == 0
    ensures SymbolList(d, nonsyms, a + [t] + b) == SymbolList(d, nonsyms, a) + SymbolList(d, nonsyms, b)
  {
    var sc := Run(d, nonsyms, Start, a);
    RunConcat(d, nonsyms, Start, a, [t]);
    RunConcat(d, nonsyms, Start, a + [t], b);
    assert Run(d, nonsyms, sc, [t]) == Step(d, nonsyms, sc, t);
    var o := SymbolList(d, nonsyms, a);
    assert Step(d, nonsyms, sc, t) == Start.(out := o);
    RunAppendsOnly(d, nonsyms, Start.(out := o), b);
    CommitAppendsOnly(nonsyms, Run(d, nonsyms, Start, b), o);
  }

  /** parse2 resets everything at each `+`: the output for `a+b` is the
      output for `a` followed by the output for `b`. */
  lemma Parse2Splits(nonsyms: seq<string>, a: string, b: string)
    ensures SymbolList(Parse2Rules, nonsyms, a + ['+'] + b)
         == SymbolList(Parse2Rules, nonsyms, a) + SymbolList(Parse2Rules, nonsyms, b)
  {
    AfterCommit(Parse2Rules, nonsyms, a, '+', b);
  }

  /** The reference reading of parse2: split the input at `+` and parse every
      token on its own. */
  function TokensOutput2(nonsyms: seq<string>, tokens: seq<string>): seq<string> {
    if tokens == [] then []
    else SymbolList(Parse2Rules, nonsyms, tokens[0]) + TokensOutput2(nonsyms, tokens[1..])
  }

  /** parse2 is the concatenation of its tokens' outputs, in token order. */
  lemma {:induction false} Parse2ByTokens(nonsyms: seq<string>, symbols: string)
    ensures SymbolList(Parse2Rules, nonsyms, symbols) == TokensOutput2(nonsyms, SplitOn(symbols, '+'))
    decreases |symbols|
  {
    if '+' !in symbols {
      SplitOnFree(symbols, '+');
    } else {
      var i := IndexOf(symbols, '+');
      var a, b := symbols[..i], symbols[i + 1..];
      assert symbols == a + ['+'] + b;
      assert '+' !in a;
      SplitOnAfterFree(a, b, '+');
      Parse2Splits(nonsyms, a, b);
      Parse2ByTokens(nonsyms, b);
      var ts := [a] + SplitOn(b, '+');
      assert ts[1..] == SplitOn(b, '+');
    }
  }

  /** A single parse2 token emits at most one entry. */
  lemma Parse2TokenAtMostOne(nonsyms: seq<string>, token: string)
    requires '+' !in token
    ensures |SymbolList(Parse2Rules, nonsyms, token)| <= 1
  {
    RunKeepsOut(Parse2Rules, nonsyms, Start, token);
  }

  /** Under parse2 a token whose parentheses do not balance emits nothing and
      leaves the following tokens alone. */
  lemma Parse2UnbalancedTokenDropped(nonsyms: seq<string>, a: string, b: string)
    requires '+' !in a && Run(Parse2Rules, nonsyms, Start, a).paren != 0
    ensures SymbolList(Parse2Rules, nonsyms, a + ['+'] + b) == SymbolList(Parse2Rules, nonsyms, b)
  {
    RunKeepsOut(Parse2Rules, nonsyms, Start, a);
    Parse2Splits(nonsyms, a, b);
  }

  /** Under parse3 a terminator met while the depth is not 0 is ignored
      entirely: neither committed nor kept in the note. */
  lemma Parse3IgnoresTerminatorInParens(nonsyms: seq<string>, a: string, t: char, b: string)
    requires t == '+' || t == '_'
    requires Run(Parse3Rules, nonsyms, Start, a).paren != 0
    ensures SymbolList(Parse3Rules, nonsyms, a + [t] + b) == SymbolList(Parse3Rules, nonsyms, a + b)
  {
    var sc := Run(Parse3Rules, nonsyms, Start, a);
    RunConcat(Parse3Rules, nonsyms, Start, a, [t]);
    RunConcat(Parse3Rules, nonsyms, Start, a + [t], b);
    RunConcat(Parse3Rules, nonsyms, Start, a, b);
    assert Run(Parse3Rules, nonsyms, sc, [t]) == Step(Parse3Rules, nonsyms, sc, t);
  }

  /** Under parse3 a terminator at depth 0 splits the output. */
  lemma Parse3SplitsAtDepthZero(nonsyms: seq<string>, a: string, t: char, b: string)
    requires t == '+' || t == '_'
    requires Run(Parse3Rules, nonsyms, Start, a).paren == 0
    ensures SymbolList(Parse3Rules, nonsyms, a + [t] + b)
         == SymbolList(Parse3Rules, nonsyms, a) + SymbolList(Parse3Rules, nonsyms, b)
  {
    AfterCommit(Parse3Rules, nonsyms, a, t, b);
  }

  lemma {:induction false} OpenParenKeepsOut(nonsyms: seq<string>, sc: Scan, b: string)
    requires sc.paren > 0 && ')' !in b
    ensures var r := Run(Parse3Rules, nonsyms, sc, b); r.paren >= sc.paren && r.out == sc.out
    decreases |b|
  {
    if b != [] {
      OpenParenKeepsOut(nonsyms, sc, b[..|b| - 1]);
    }
  }

  /** parse3 never resets the depth: after an unclosed `(`, and as long as no
      `)` follows, nothing more is ever emitted. */
  lemma Parse3UnclosedParenSuppressesRest(nonsyms: seq<string>, a: string, b: string)
    requires Run(Parse3Rules, nonsyms, Start, a).paren > 0 && ')' !in b
    ensures SymbolList(Parse3Rules, nonsyms, a + b) == Run(Parse3Rules, nonsyms, Start, a).out
  {
    RunConcat(Parse3Rules, nonsyms, Start, a, b);
    OpenParenKeepsOut(nonsyms, Run(Parse3Rules, nonsyms, Start, a), b);
  }

  /** Under parse3, a scanner that has left `ok` state inside parentheses
      never changes again: `)` only counts in `ok` state, and the
      terminators only count at depth 0. */
  lemma {:induction false} Parse3Stuck(nonsyms: seq<string>, sc: Scan, t: string)
    requires sc.mode != Ok && sc.paren != 0
    ensures Run(Parse3Rules, nonsyms, sc, t) == sc
    decreases |t|
  {
    if t != [] {
      Parse3Stuck(nonsyms, sc, t[..|t| - 1]);
    }
  }

  /** So from then on nothing more is emitted, whatever follows, the final
      flush included. */
  lemma Parse3StuckSuppressesRest(nonsyms: seq<string>, a: string, b: string)
    requires Run(Parse3Rules, nonsyms, Start, a).mode != Ok && Run(Parse3Rules, nonsyms, Start, a).paren != 0
    ensures SymbolList(Parse3Rules, nonsyms, a + b) == Run(Parse3Rules, nonsyms, Start, a).out
  {
    RunConcat(Parse3Rules, nonsyms, Start, a, b);
    Parse3Stuck(nonsyms, Run(Parse3Rules, nonsyms, Start, a), b);
  }

  /** Under parse3, a breaking character inside parentheses drops the current
      token and every later one. */
  lemma Parse3BrokenInParensSuppressesRest(nonsyms: seq<string>, a: string, c: char, b: string)
    requires Run(Parse3Rules, nonsyms, Start, a).mode == Ok && Run(Parse3Rules, nonsyms, Start, a).paren != 0
    requires Breaks(Parse3Rules, c)
    ensures SymbolList(Parse3Rules, nonsyms, a + [c] + b) == Run(Parse3Rules, nonsyms, Start, a).out
  {
    var sc := Run(Parse3Rules, nonsyms, Start, a);
    RunConcat(Parse3Rules, nonsyms, Start, a, [c]);
    assert Run(Parse3Rules, nonsyms, sc, [c]) == Step(Parse3Rules, nonsyms, sc, c);
    assert Run(Parse3Rules, nonsyms, Start, a + [c]) == sc.(mode := Broken);
    Parse3StuckSuppressesRest(nonsyms, a + [c], b);
  }

  /** A run of good characters in `ok` state extends `sym` at depth 0 and
      `note` inside parentheses. */
  lemma {:induction false} RunGoodChars(d: Dialect, nonsyms: seq<string>, sc: Scan, w: string)
    requires sc.mode == Ok && AllGood(w) && NoTerminator(d, w)
    ensures Run(d, nonsyms, sc, w)
         == if sc.paren == 0 then sc.(sym := sc.sym + w) else sc.(note := sc.note + w)
    decreases |w|
  {
    if w == [] {
      assert sc.sym + w == sc.sym && sc.note + w == sc.note;
    } else {
      var w' := w[..|w| - 1];
      RunGoodChars(d, nonsyms, sc, w');
      assert w' + [w[|w| - 1]] == w;
      assert sc.sym + w' + [w[|w| - 1]] == sc.sym + w;
      assert sc.note + w' + [w[|w| - 1]] == sc.note + w;
    }
  }

  /** From `ok` state a `:` turns to `skip` and nothing before the next
      terminator changes the scanner any more. */
  lemma RunColon(d: Dialect, nonsyms: seq<string>, sc: Scan, b: string)
    requires NoTerminator(d, b)
    ensures Run(d, nonsyms, sc, [':'] + b) == if sc.mode == Ok then sc.(mode := Skip) else sc
  {
    RunConcat(d, nonsyms, sc, [':'], b);
    assert Run(d, nonsyms, sc, [':']) == Step(d, nonsyms, sc, ':');
    RunAbsorbs(d, nonsyms, Step(d, nonsyms, sc, ':'), b);
  }

  /** Scanning an entry's own text from the start recovers its symbol and
      note, with the parentheses balanced. */
  lemma RunEntry(d: Dialect, nonsyms: seq<string>, sym: string, note: string)
    requires AllGood(sym) && AllGood(note)
    requires d == Parse3Rules ==> '_' !in sym && '_' !in note
    ensures Run(d, nonsyms, Start, Annotate(sym, note)) == Scan(Ok, 0, sym, note, [])
  {
    GoodNoTerminator(d, sym);
    GoodNoTerminator(d, note);
    RunSymbol(d, nonsyms, sym);
    if note != [] {
      RunNote(d, nonsyms, sym, note);
      assert Annotate(sym, note) == sym + ['('] + note + [')'];
    }
  }

  lemma GoodNoTerminator(d: Dialect, w: string)
    requires AllGood(w) && (d == Parse3Rules ==> '_' !in w)
    ensures NoTerminator(d, w)
  {
  }

  lemma RunSymbol(d: Dialect, nonsyms: seq<string>, sym: string)
    requires AllGood(sym) && NoTerminator(d, sym)
    ensures Run(d, nonsyms, Start, sym) == Scan(Ok, 0, sym, [], [])
  {
    RunGoodChars(d, nonsyms, Start, sym);
    assert [] + sym == sym;
  }

  /** After the symbol, `(note)` fills the note and closes the depth again. */
  lemma RunNote(d: Dialect, nonsyms: seq<string>, sym: string, note: string)
    requires AllGood(sym) && NoTerminator(d, sym) && AllGood(note) && NoTerminator(d, note)
    ensures Run(d, nonsyms, Start, sym + ['('] + note + [')']) == Scan(Ok, 0, sym, note, [])
  {
    var open := Scan(Ok, 1, sym, [], []);
    assert Run(d, nonsyms, Start, sym + ['(']) == open by {
      RunSymbol(d, nonsyms, sym);
      RunConcat(d, nonsyms, Start, sym, ['(']);
      assert Run(d, nonsyms, Scan(Ok, 0, sym, [], []), ['(']) == open;
    }
    assert Run(d, nonsyms, Start, sym + ['('] + note) == open.(note := note) by {
      RunConcat(d, nonsyms, Start, sym + ['('], note);
      RunGoodChars(d, nonsyms, open, note);
      assert [] + note == note;
    }
    RunConcat(d, nonsyms, Start, sym + ['('] + note, [')']);
    assert Run(d, nonsyms, open.(note := note), [')']) == Scan(Ok, 0, sym, note, []);
  }

  /** The text of a valid entry, parsed on its own, is that entry. */
  lemma ParseEntry(d: Dialect, nonsyms: seq<string>, e: string)
    requires ValidEntry(nonsyms, e) && (d == Parse3Rules ==> '_' !in e)
    ensures SymbolList(d, nonsyms, e) == [e]
    ensures Run(d, nonsyms, Start, e).paren == 0
  {
    var (sym, note) := SplitEntry(e);
    assert d == Parse3Rules ==> '_' !in sym && '_' !in note by {
      if d == Parse3Rules && |note| > 0 {
        assert e == sym + "(" + note + ")";
        assert sym <= e;
        assert forall i :: 0 <= i < |note| ==> note[i] == e[|sym| + 1 + i];
      }
    }
    RunEntry(d, nonsyms, sym, note);
  }

  /** A token of the form `sym`, `sym(note)`, `sym:…` or `sym(note):…`,
      followed by a terminator at depth 0, contributes its annotated symbol
      (if the symbol passes the filter) and the rest parses on its own. */
  lemma TokenThenRest(d: Dialect, nonsyms: seq<string>, sym: string, note: string, suffix: string,
                      t: char, rest: string)
    requires AllGood(sym) && AllGood(note)
    requires d == Parse3Rules ==> '_' !in sym && '_' !in note
    requires suffix == [] || (suffix[0] == ':' && NoTerminator(d, suffix[1..]))
    requires IsTerminator(d, t)
    ensures SymbolList(d, nonsyms, Annotate(sym, note) + suffix + [t] + rest)
         == (if Filter(nonsyms, sym) then [Annotate(sym, note)] else []) + SymbolList(d, nonsyms, rest)
  {
    var e := Annotate(sym, note);
    RunEntry(d, nonsyms, sym, note);
    if suffix != [] {
      assert suffix == [':'] + suffix[1..];
      RunConcat(d, nonsyms, Start, e, suffix);
      RunColon(d, nonsyms, Run(d, nonsyms, Start, e), suffix[1..]);
      ColonEndsToken(d, nonsyms, e, suffix[1..]);
      assert e + suffix == e + [':'] + suffix[1..];
    } else {
      assert e + suffix == e;
    }
    AfterCommit(d, nonsyms, e + suffix, t, rest);
  }

  /** Re-parsing the `+`-join of valid entries gives the entries back. */
  lemma {:induction false} ReparseJoined(d: Dialect, nonsyms: seq<string>, entries: seq<string>)
    requires forall k :: 0 <= k < |entries| ==>
               ValidEntry(nonsyms, entries[k]) && (d == Parse3Rules ==> '_' !in entries[k])
    ensures SymbolList(d, nonsyms, Join(entries, '+')) == entries
  {
    if |entries| == 1 {
      ParseEntry(d, nonsyms, entries[0]);
    } else if |entries| > 1 {
      var e, rest := entries[0], entries[1..];
      assert SymbolList(d, nonsyms, Join(rest, '+')) == rest by {
        ReparseJoined(d, nonsyms, rest);
      }
      assert SymbolList(d, nonsyms, e + ['+'] + Join(rest, '+'))
          == SymbolList(d, nonsyms, e) + SymbolList(d, nonsyms, Join(rest, '+')) by {
        ParseEntry(d, nonsyms, e);
        AfterCommit(d, nonsyms, e, '+', Join(rest, '+'));
      }
      assert SymbolList(d, nonsyms, e) == [e] by {
        ParseEntry(d, nonsyms, e);
      }
      assert [e] + rest == entries;
    }
  }

  /** Parsing is idempotent: joining the parsed entries with `+` and parsing
      again gives the same list. */
  lemma ReparseIsIdempotent(d: Dialect, nonsyms: seq<string>, symbols: string)
    ensures var r := SymbolList(d, nonsyms, symbols);
            SymbolList(d, nonsyms, Join(r, '+')) == r
  {
    Entries(d, nonsyms, symbols);
    ReparseJoined(d, nonsyms, SymbolList(d, nonsyms, symbols));
  }

  // ------------------------------------------------------------------
  // parse1
  // ------------------------------------------------------------------

  /** parse1's variables: `inSymbol`, `sym` and `symlist`. */
  datatype Scan1 = Scan1(inSymbol: bool, sym: string, out: seq<string>)

  const Start1: Scan1 := Scan1(false, [], [])

  /** The characters parse1 accumulates: letters and `_`. */
  predicate SymbolChar(ch: char) {
    IsAlpha(ch) || ch == '_'
  }

  /** parse1's emission rule: a symbol is emitted when the scanner is in a
      symbol, the symbol is non-empty and it passes the filter. */
  function Emit1(nonsyms: seq<string>, sc: Scan1): (r: seq<string>)
    ensures r == sc.out || (r == sc.out + [sc.sym] && sc.inSymbol && Filter(nonsyms, sc.sym))
    ensures sc.inSymbol && Filter(nonsyms, sc.sym) ==> r == sc.out + [sc.sym]
  {
    if sc.inSymbol && sc.sym != [] && Filter(nonsyms, sc.sym) then sc.out + [sc.sym] else sc.out
  }

  /** One iteration of parse1's loop. */
  function Step1(nonsyms: seq<string>, sc: Scan1, ch: char): Scan1 {
    if ch == '+' then Scan1(true, [], Emit1(nonsyms, sc))
    else if sc.inSymbol && ch == '(' then sc.(inSymbol := false)
    else if sc.inSymbol && SymbolChar(ch) then sc.(sym := sc.sym + [ch])
    else Scan1(false, sc.sym, Emit1(nonsyms, sc))
  }

  /** One character of parse1 only appends to `symlist`, and outside a
      symbol only `+` has any effect. */
  lemma Step1Shape(nonsyms: seq<string>, sc: Scan1, ch: char)
    ensures var r := Step1(nonsyms, sc, ch);
            |sc.out| <= |r.out| && r.out[..|sc.out|] == sc.out
    ensures !sc.inSymbol && ch != '+' ==> Step1(nonsyms, sc, ch) == sc
  {
  }

  function Run1(nonsyms: seq<string>, sc: Scan1, t: string): Scan1
    decreases |t|
  {
    if t == [] then sc
    else Step1(nonsyms, Run1(nonsyms, sc, t[..|t| - 1]), t[|t| - 1])
  }

  /** What parse1 returns for `symbols`. */
  function SymbolList1(nonsyms: seq<string>, symbols: string): seq<string> {
    Emit1(nonsyms, Run1(nonsyms, Start1, symbols))
  }

  /** `parse1`. */
  method Parse1(symbols: string, nonsyms: seq<string>) returns (symlist: seq<string>)
    ensures symlist == SymbolList1(nonsyms, symbols)
  {
    var inSymbol := false;
    var sym: string := [];
    symlist := [];
    for i := 0 to |symbols|
      invariant Scan1(inSymbol, sym, symlist) == Run1(nonsyms, Start1, symbols[..i])
    {
      var ch := symbols[i];
      if ch == '+' {
        if inSymbol && sym != [] && Filter(nonsyms, sym) {
          symlist := symlist + [sym];
        }
        inSymbol := true;
        sym := [];
      } else if inSymbol && ch == '(' {
        inSymbol := false;
      } else if inSymbol && (IsAlpha(ch) || ch == '_') {
        sym := sym + [ch];
      } else {
        if inSymbol && sym != [] && Filter(nonsyms, sym) {
          symlist := symlist + [sym];
        }
        inSymbol := false;
      }
      assert symbols[..i + 1][..i] == symbols[..i];
    }
    if inSymbol && sym != [] && Filter(nonsyms, sym) {
      symlist := symlist + [sym];
    }
    assert symbols[..|symbols|] == symbols;
  }

  lemma {:induction false} Run1Concat(nonsyms: seq<string>, sc: Scan1, a: string, b: string)
    ensures Run1(nonsyms, sc, a + b) == Run1(nonsyms, Run1(nonsyms, sc, a), b)
    decreases |b|
  {
    if b == [] {
      assert a + b == a;
    } else {
      var b' := b[..|b| - 1];
      assert (a + b)[..|a + b| - 1] == a + b';
      Run1Concat(nonsyms, sc, a, b');
    }
  }

  lemma {:induction false} Run1AppendsOnly(nonsyms: seq<string>, sc: Scan1, t: string)
    ensures var clean := Run1(nonsyms, sc.(out := []), t);
            Run1(nonsyms, sc, t) == clean.(out := sc.out + clean.out)
    decreases |t|
  {
    if t != [] {
      var t' := t[..|t| - 1];
      Run1AppendsOnly(nonsyms, sc, t');
      var clean := Run1(nonsyms, sc.(out := []), t');
      Emit1AppendsOnly(nonsyms, clean, sc.out);
    }
  }

  lemma Emit1AppendsOnly(nonsyms: seq<string>, sc: Scan1, o: seq<string>)
    ensures Emit1(nonsyms, sc.(out := o + sc.out)) == o + Emit1(nonsyms, sc)
  {
    if sc.inSymbol && sc.sym != [] && Filter(nonsyms, sc.sym) {
      assert o + sc.out + [sc.sym] == o + (sc.out + [sc.sym]);
    }
  }

  /** Outside a symbol, nothing but `+` changes parse1's variables. */
  lemma {:induction false} Run1Idle(nonsyms: seq<string>, sc: Scan1, t: string)
    requires !sc.inSymbol && '+' !in t
    ensures Run1(nonsyms, sc, t) == sc
    decreases |t|
  {
    if t != [] {
      Run1Idle(nonsyms, sc, t[..|t| - 1]);
    }
  }

  /** Text before the first `+` is never emitted. */
  lemma Parse1IgnoresLeadingText(nonsyms: seq<string>, a: string, b: string)
    requires '+' !in a
    ensures SymbolList1(nonsyms, a + b) == SymbolList1(nonsyms, b)
  {
    Run1Idle(nonsyms, Start1, a);
    Run1Concat(nonsyms, Start1, a, b);
  }

  /** Every `+` ends one token and starts the next one afresh. */
  lemma Parse1Splits(nonsyms: seq<string>, a: string, b: string)
    ensures SymbolList1(nonsyms, a + ['+'] + b) == SymbolList1(nonsyms, a) + SymbolList1(nonsyms, ['+'] + b)
  {
    var sc := Run1(nonsyms, Start1, a);
    var o := SymbolList1(nonsyms, a);
    Run1Concat(nonsyms, Start1, a, ['+']);
    Run1Concat(nonsyms, Start1, a + ['+'], b);
    Run1Concat(nonsyms, Start1, ['+'], b);
    assert Run1(nonsyms, sc, ['+']) == Step1(nonsyms, sc, '+');
    assert Run1(nonsyms, Start1, ['+']) == Step1(nonsyms, Start1, '+');
    var after := Scan1(true, [], []);
    assert Step1(nonsyms, sc, '+') == after.(out := o);
    Run1AppendsOnly(nonsyms, after.(out := o), b);
    Emit1AppendsOnly(nonsyms, Run1(nonsyms, after, b), o);
  }

  /** The longest prefix of `t` made of letters and `_`. */
  function LeadingSymbol(t: string): (w: string)
    ensures |w| <= |t| && w == t[..|w|]
    ensures forall i :: 0 <= i < |w| ==> SymbolChar(w[i])
    ensures |w| < |t| ==> !SymbolChar(t[|w|])
  {
    if t == [] || !SymbolChar(t[0]) then [] else [t[0]] + LeadingSymbol(t[1..])
  }

  /** The reference reading of one parse1 token (the text after a `+`, up to
      the next `+`): its leading run of letters and `_`, unless `(` follows
      that run directly, and only if the run passes the filter. */
  function Token1(nonsyms: seq<string>, t: string): seq<string> {
    var w := LeadingSymbol(t);
    if |w| < |t| && t[|w|] == '(' then []
    else if Filter(nonsyms, w) then [w]
    else []
  }

  lemma {:induction false} Run1Word(nonsyms: seq<string>, o: seq<string>, w: string)
    requires forall i :: 0 <= i < |w| ==> SymbolChar(w[i])
    ensures Run1(nonsyms, Scan1(true, [], o), w) == Scan1(true, w, o)
    decreases |w|
  {
    if w != [] {
      Run1Word(nonsyms, o, w[..|w| - 1]);
      assert w[..|w| - 1] + [w[|w| - 1]] == w;
    }
  }

  /** A token's leading symbol, ended by a character that is not a letter
      or `_`: `(` drops the symbol, anything else emits it if it passes. */
  lemma TokenScan1Stopped(nonsyms: seq<string>, w: string, c: char, rest: string)
    requires forall i :: 0 <= i < |w| ==> SymbolChar(w[i])
    requires !SymbolChar(c) && c != '+' && '+' !in rest
    ensures Emit1(nonsyms, Run1(nonsyms, Scan1(true, [], []), w + [c] + rest))
         == if c == '(' then [] else if Filter(nonsyms, w) then [w] else []
  {
    var after := Scan1(true, [], []);
    Run1Word(nonsyms, [], w);
    var mid := Step1(nonsyms, Scan1(true, w, []), c);
    Run1Concat(nonsyms, after, w, [c]);
    assert Run1(nonsyms, Scan1(true, w, []), [c]) == mid;
    Run1Concat(nonsyms, after, w + [c], rest);
    Run1Idle(nonsyms, mid, rest);
  }

  /** The scan of one token after its `+`. */
  lemma TokenScan1(nonsyms: seq<string>, t: string)
    requires '+' !in t
    ensures Emit1(nonsyms, Run1(nonsyms, Scan1(true, [], []), t)) == Token1(nonsyms, t)
  {
    var w := LeadingSymbol(t);
    if |w| < |t| {
      assert t == w + [t[|w|]] + t[|w| + 1..];
      TokenScan1Stopped(nonsyms, w, t[|w|], t[|w| + 1..]);
    } else {
      assert t == w;
      Run1Word(nonsyms, [], w);
    }
  }

  /** One parse1 token behaves as its reference reading says. */
  lemma Parse1Token(nonsyms: seq<string>, t: string)
    requires '+' !in t
    ensures SymbolList1(nonsyms, ['+'] + t) == Token1(nonsyms, t)
  {
    Run1Concat(nonsyms, Start1, ['+'], t);
    assert Run1(nonsyms, Start1, ['+']) == Scan1(true, [], []);
    TokenScan1(nonsyms, t);
  }

  /** The reference reading of parse1: the pieces after each `+`, read as
      tokens. */
  function TokensOutput1(nonsyms: seq<string>, tokens: seq<string>): seq<string> {
    if tokens == [] then [] else Token1(nonsyms, tokens[0]) + TokensOutput1(nonsyms, tokens[1..])
  }

  lemma {:induction false} Parse1AfterPlus(nonsyms: seq<string>, t: string)
    ensures SymbolList1(nonsyms, ['+'] + t) == TokensOutput1(nonsyms, SplitOn(t, '+'))
    decreases |t|
  {
    if '+' !in t {
      SplitOnFree(t, '+');
      Parse1Token(nonsyms, t);
    } else {
      var i := IndexOf(t, '+');
      var a, b := t[..i], t[i + 1..];
      assert t == a + ['+'] + b;
      assert ['+'] + t == (['+'] + a) + ['+'] + b;
      SplitOnAfterFree(a, b, '+');
      Parse1Splits(nonsyms, ['+'] + a, b);
      Parse1Token(nonsyms, a);
      Parse1AfterPlus(nonsyms, b);
      var ts := [a] + SplitOn(b, '+');
      assert ts[1..] == SplitOn(b, '+');
    }
  }

  /** parse1 reads every piece after a `+` as a token and concatenates the
      results in order; the piece before the first `+` is ignored. */
  lemma Parse1ByTokens(nonsyms: seq<string>, symbols: string)
    ensures SymbolList1(nonsyms, symbols) == TokensOutput1(nonsyms, SplitOn(symbols, '+')[1..])
  {
    if '+' !in symbols {
      SplitOnFree(symbols, '+');
      Run1Idle(nonsyms, Start1, symbols);
    } else {
      var i := IndexOf(symbols, '+');
      var a, b := symbols[..i], symbols[i + 1..];
      assert symbols == a + ['+'] + b && '+' !in a by {
        assert symbols[i] == '+';
      }
      Parse1ByTokensAt(nonsyms, a, b);
    }
  }

  lemma Parse1ByTokensAt(nonsyms: seq<string>, a: string, b: string)
    requires '+' !in a
    ensures SymbolList1(nonsyms, a + ['+'] + b) == TokensOutput1(nonsyms, SplitOn(a + ['+'] + b, '+')[1..])
  {
    var s := a + ['+'] + b;
    assert SymbolList1(nonsyms, s) == SymbolList1(nonsyms, ['+'] + b) by {
      assert s == a + (['+'] + b);
      Parse1IgnoresLeadingText(nonsyms, a, ['+'] + b);
    }
    assert SplitOn(s, '+')[1..] == SplitOn(b, '+') by {
      SplitOnAfterFree(a, b, '+');
      assert ([a] + SplitOn(b, '+'))[1..] == SplitOn(b, '+');
    }
    Parse1AfterPlus(nonsyms, b);
  }

  /** parse1's invariant: the symbol holds letters and `_` only, and every
      emitted entry is such a symbol and passes the filter. */
  predicate Inv1(nonsyms: seq<string>, sc: Scan1) {
    && (forall i :: 0 <= i < |sc.sym| ==> SymbolChar(sc.sym[i]))
    && forall k :: 0 <= k < |sc.out| ==>
         Filter(nonsyms, sc.out[k]) && forall i :: 0 <= i < |sc.out[k]| ==> SymbolChar(sc.out[k][i])
  }

  lemma {:induction false} Run1Inv(nonsyms: seq<string>, t: string)
    ensures Inv1(nonsyms, Run1(nonsyms, Start1, t))
    decreases |t|
  {
    if t != [] {
      Run1Inv(nonsyms, t[..|t| - 1]);
    }
  }

  /** parse1 emits only filtered symbols made of letters and `_`. */
  lemma Parse1Entries(nonsyms: seq<string>, symbols: string)
    ensures var r := SymbolList1(nonsyms, symbols);
            forall k :: 0 <= k < |r| ==>
              Filter(nonsyms, r[k]) && forall i :: 0 <= i < |r[k]| ==> SymbolChar(r[k][i])
  {
    Run1Inv(nonsyms, symbols);
  }

  lemma {:induction false} TokensOutput1Bound(nonsyms: seq<string>, tokens: seq<string>)
    ensures |TokensOutput1(nonsyms, tokens)| <= |tokens|
  {
    if tokens != [] {
      TokensOutput1Bound(nonsyms, tokens[1..]);
    }
  }

  /** parse1 emits at most one entry per `+`. */
  lemma Parse1Bound(nonsyms: seq<string>, symbols: string)
    ensures |SymbolList1(nonsyms, symbols)| <= Count(symbols, '+')
  {
    Parse1ByTokens(nonsyms, symbols);
    SplitOnShape(symbols, '+');
    TokensOutput1Bound(nonsyms, SplitOn(symbols, '+')[1..]);
  }
}
