/** The parser fixtures of the command-line tool's self-test (`run_tests` in
    XKbSwitch.cpp), which the tool runs against `parse3`. The self-test checks
    only a prefix of each result, so the lemmas do too. The stop-list is a
    parameter: each lemma states which words it must hold and which it must
    not. */
module ParserFixtures {
  import opened Symbols
  import opened Parsers

  // One lemma per kind of token met in the fixtures: what the token
  // contributes, followed by whatever the rest of the input gives.

  lemma PlainToken(d: Dialect, nonsyms: seq<string>, sym: string, t: char, rest: string)
    requires AllGood(sym) && (d == Parse3Rules ==> '_' !in sym) && IsTerminator(d, t)
    ensures SymbolList(d, nonsyms, sym + [t] + rest)
         == (if Filter(nonsyms, sym) then [sym] else []) + SymbolList(d, nonsyms, rest)
  {
    TokenThenRest(d, nonsyms, sym, "", "", t, rest);
    assert Annotate(sym, "") + "" == sym;
  }

  lemma ColonToken(d: Dialect, nonsyms: seq<string>, sym: string, group: string, t: char, rest: string)
    requires AllGood(sym) && (d == Parse3Rules ==> '_' !in sym) && IsTerminator(d, t)
    requires NoTerminator(d, group)
    ensures SymbolList(d, nonsyms, sym + [':'] + group + [t] + rest)
         == (if Filter(nonsyms, sym) then [sym] else []) + SymbolList(d, nonsyms, rest)
  {
    TokenThenRest(d, nonsyms, sym, "", [':'] + group, t, rest);
    assert Annotate(sym, "") + ([':'] + group) == sym + [':'] + group;
  }

  lemma TokenUsAltIntl(nonsyms: seq<string>, rest: string)
    requires "us" !in nonsyms
    ensures SymbolList(Parse3Rules, nonsyms, "us(alt-intl):4+" + rest)
         == ["us(alt-intl)"] + SymbolList(Parse3Rules, nonsyms, rest)
  {
    assert Annotate("us", "alt-intl") == "us(alt-intl)";
    assert Annotate("us", "alt-intl") + ":4" + ['+'] == "us(alt-intl):4+";
    TokenThenRest(Parse3Rules, nonsyms, "us", "alt-intl", ":4", '+', rest);
  }

  /** `at:3+us(alt-intl):4+`, shared by the first two fixtures. */
  lemma AtUsAltIntl(nonsyms: seq<string>, rest: string)
    requires "us" !in nonsyms && "at" !in nonsyms
    ensures SymbolList(Parse3Rules, nonsyms, "at:3+" + ("us(alt-intl):4+" + rest))
         == ["at", "us(alt-intl)"] + SymbolList(Parse3Rules, nonsyms, rest)
  {
    TokenUsAltIntl(nonsyms, rest);
    ColonToken(Parse3Rules, nonsyms, "at", "3", '+', "us(alt-intl):4+" + rest);
    assert "at" + [':'] + "3" + ['+'] == "at:3+";
  }

  lemma UsToken(nonsyms: seq<string>, rest: string)
    requires "us" !in nonsyms
    ensures SymbolList(Parse3Rules, nonsyms, "us+" + rest) == ["us"] + SymbolList(Parse3Rules, nonsyms, rest)
  {
    PlainToken(Parse3Rules, nonsyms, "us", '+', rest);
    assert "us" + ['+'] == "us+";
  }

  /** `us+sk1(qwerty1):2+at:3+us(alt-intl):4+inet(evdev)+compose(ralt)`. */
  lemma Fixture1(nonsyms: seq<string>)
    requires "us" !in nonsyms && "sk1" !in nonsyms && "at" !in nonsyms
    ensures var r := SymbolList(Parse3Rules, nonsyms,
                                "us+" + ("sk1(qwerty1):2+" + ("at:3+" + ("us(alt-intl):4+" + "inet(evdev)+compose(ralt)"))));
            |r| >= 4 && r[..4] == ["us", "sk1(qwerty1)", "at", "us(alt-intl)"]
  {
    var r2 := "at:3+" + ("us(alt-intl):4+" + "inet(evdev)+compose(ralt)");
    AtUsAltIntl(nonsyms, "inet(evdev)+compose(ralt)");
    assert SymbolList(Parse3Rules, nonsyms, "sk1(qwerty1):2+" + r2)
        == ["sk1(qwerty1)"] + SymbolList(Parse3Rules, nonsyms, r2) by {
      assert Annotate("sk1", "qwerty1") == "sk1(qwerty1)";
      assert Annotate("sk1", "qwerty1") + ":2" + ['+'] == "sk1(qwerty1):2+";
      TokenThenRest(Parse3Rules, nonsyms, "sk1", "qwerty1", ":2", '+', r2);
    }
    UsToken(nonsyms, "sk1(qwerty1):2+" + r2);
  }

  /** `us+sk(qwerty):2+at:3+us(alt-intl):4+inet(evdev)+compose(ralt)`. */
  lemma Fixture2(nonsyms: seq<string>)
    requires "us" !in nonsyms && "sk" !in nonsyms && "at" !in nonsyms
    ensures var r := SymbolList(Parse3Rules, nonsyms,
                                "us+" + ("sk(qwerty):2+" + ("at:3+" + ("us(alt-intl):4+" + "inet(evdev)+compose(ralt)"))));
            |r| >= 4 && r[..4] == ["us", "sk(qwerty)", "at", "us(alt-intl)"]
  {
    var r2 := "at:3+" + ("us(alt-intl):4+" + "inet(evdev)+compose(ralt)");
    AtUsAltIntl(nonsyms, "inet(evdev)+compose(ralt)");
    assert SymbolList(Parse3Rules, nonsyms, "sk(qwerty):2+" + r2)
        == ["sk(qwerty)"] + SymbolList(Parse3Rules, nonsyms, r2) by {
      assert Annotate("sk", "qwerty") == "sk(qwerty)";
      assert Annotate("sk", "qwerty") + ":2" + ['+'] == "sk(qwerty):2+";
      TokenThenRest(Parse3Rules, nonsyms, "sk", "qwerty", ":2", '+', r2);
    }
    UsToken(nonsyms, "sk(qwerty):2+" + r2);
  }

  lemma UsRuColon(nonsyms: seq<string>, rest: string)
    requires "us" !in nonsyms && "ru" !in nonsyms
    ensures SymbolList(Parse3Rules, nonsyms, "us+" + ("ru:2+" + rest))
         == ["us", "ru"] + SymbolList(Parse3Rules, nonsyms, rest)
  {
    ColonToken(Parse3Rules, nonsyms, "ru", "2", '+', rest);
    assert "ru" + [':'] + "2" + ['+'] == "ru:2+";
    UsToken(nonsyms, "ru:2+" + rest);
  }

  /** A stop-list word, then `rest`. */
  lemma DroppedToken(nonsyms: seq<string>, word: string, t: char, rest: string)
    requires word in nonsyms && AllGood(word) && '_' !in word && IsTerminator(Parse3Rules, t)
    ensures SymbolList(Parse3Rules, nonsyms, word + [t] + rest) == SymbolList(Parse3Rules, nonsyms, rest)
  {
    PlainToken(Parse3Rules, nonsyms, word, t, rest);
  }

  /** `pc+us+ru:2+inet(evdev)+group(alt_space_toggle)+ctrl(nocaps)+ctrl(swapcaps)+eurosign(e)`. */
  lemma Fixture3(nonsyms: seq<string>)
    requires "pc" in nonsyms && "us" !in nonsyms && "ru" !in nonsyms
    ensures var r := SymbolList(Parse3Rules, nonsyms,
                                "pc+" + ("us+" + ("ru:2+"
                                + "inet(evdev)+group(alt_space_toggle)+ctrl(nocaps)+ctrl(swapcaps)+eurosign(e)")));
            |r| >= 2 && r[..2] == ["us", "ru"]
  {
    var r3 := "inet(evdev)+group(alt_space_toggle)+ctrl(nocaps)+ctrl(swapcaps)+eurosign(e)";
    UsRuColon(nonsyms, r3);
    DroppedToken(nonsyms, "pc", '+', "us+" + ("ru:2+" + r3));
    assert "pc" + ['+'] == "pc+";
  }

  lemma RuTwoUnderscore(nonsyms: seq<string>, rest: string)
    requires "ru" !in nonsyms
    ensures SymbolList(Parse3Rules, nonsyms, "ru_" + ("2_" + rest))
         == ["ru"] + SymbolList(Parse3Rules, nonsyms, rest)
  {
    PlainToken(Parse3Rules, nonsyms, "2", '_', rest);
    assert "2" + ['_'] == "2_";
    PlainToken(Parse3Rules, nonsyms, "ru", '_', "2_" + rest);
    assert "ru" + ['_'] == "ru_";
  }

  lemma UsRuTwoUnderscore(nonsyms: seq<string>, rest: string)
    requires "us" !in nonsyms && "ru" !in nonsyms
    ensures SymbolList(Parse3Rules, nonsyms, "us_" + ("ru_" + ("2_" + rest)))
         == ["us", "ru"] + SymbolList(Parse3Rules, nonsyms, rest)
  {
    RuTwoUnderscore(nonsyms, rest);
    PlainToken(Parse3Rules, nonsyms, "us", '_', "ru_" + ("2_" + rest));
    assert "us" + ['_'] == "us_";
  }

  /** `pc_us_ru_2_inet(evdev)_group(switch)_group(alt_shift_toggle)_compose(rwin)_terminate(ctrl_alt_bksp)`:
      parse3 also ends tokens at `_`. */
  lemma Fixture4(nonsyms: seq<string>)
    requires "pc" in nonsyms && "us" !in nonsyms && "ru" !in nonsyms
    ensures var r := SymbolList(Parse3Rules, nonsyms,
                                "pc_" + ("us_" + ("ru_" + ("2_"
                                + "inet(evdev)_group(switch)_group(alt_shift_toggle)_compose(rwin)_terminate(ctrl_alt_bksp)"))));
            |r| >= 2 && r[..2] == ["us", "ru"]
  {
    var r4 := "inet(evdev)_group(switch)_group(alt_shift_toggle)_compose(rwin)_terminate(ctrl_alt_bksp)";
    UsRuTwoUnderscore(nonsyms, r4);
    DroppedToken(nonsyms, "pc", '_', "us_" + ("ru_" + ("2_" + r4)));
    assert "pc" + ['_'] == "pc_";
  }

  /** `pc+us+inet(evdev)`. */
  lemma Fixture5(nonsyms: seq<string>)
    requires "pc" in nonsyms && "us" !in nonsyms
    ensures var r := SymbolList(Parse3Rules, nonsyms, "pc+" + ("us+" + "inet(evdev)"));
            |r| >= 1 && r[0] == "us"
  {
    var d := Parse3Rules;
    PlainToken(d, nonsyms, "us", '+', "inet(evdev)");
    assert "us" + ['+'] == "us+";
    PlainToken(d, nonsyms, "pc", '+', "us+" + "inet(evdev)");
    assert "pc" + ['+'] == "pc+";
  }

  lemma TokenInetDropped(nonsyms: seq<string>)
    requires "inet" in nonsyms
    ensures SymbolList(Parse3Rules, nonsyms, "inet(evdev)") == []
  {
    RunEntry(Parse3Rules, nonsyms, "inet", "evdev");
    assert Annotate("inet", "evdev") == "inet(evdev)";
  }

  /** With the stop-list holding `inet`, the trailing `inet(evdev)` of the
      last fixture is filtered out, so the result is exactly `[us]`. */
  lemma Fixture5Exact(nonsyms: seq<string>)
    requires "pc" in nonsyms && "inet" in nonsyms && "us" !in nonsyms
    ensures SymbolList(Parse3Rules, nonsyms, "pc+" + ("us+" + "inet(evdev)")) == ["us"]
  {
    var d := Parse3Rules;
    TokenInetDropped(nonsyms);
    PlainToken(d, nonsyms, "us", '+', "inet(evdev)");
    assert "us" + ['+'] == "us+";
    PlainToken(d, nonsyms, "pc", '+', "us+" + "inet(evdev)");
    assert "pc" + ['+'] == "pc+";
  }

  /** `ru:2` gives `[ru]` under both parse2 and parse3: the group counter
      after `:` is skipped. */
  lemma GroupCounterSkipped(d: Dialect, nonsyms: seq<string>)
    requires "ru" !in nonsyms
    ensures SymbolList(d, nonsyms, "ru:2") == ["ru"]
  {
    assert NoTerminator(d, "2");
    ColonEndsToken(d, nonsyms, "ru", "2");
    assert "ru" + [':'] + "2" == "ru:2";
    ParseEntry(d, nonsyms, "ru");
  }

  // A `:` inside parentheses: the scanner is in `ok` state there, so the
  // colon starts skipping and the closing `)` is never counted.

  lemma ColonInNote(d: Dialect, nonsyms: seq<string>)
    ensures Run(d, nonsyms, Start, "us(a:b)") == Scan(Skip, 1, "us", "a", [])
  {
    UsOpenA(d, nonsyms);
    assert NoTerminator(d, "b)");
    RunConcat(d, nonsyms, Start, "us(a", [':'] + "b)");
    RunColon(d, nonsyms, Scan(Ok, 1, "us", "a", []), "b)");
    assert "us(a" + ([':'] + "b)") == "us(a:b)";
  }

  lemma UsOpen(d: Dialect, nonsyms: seq<string>)
    ensures Run(d, nonsyms, Start, "us(") == Scan(Ok, 1, "us", [], [])
  {
    assert AllGood("us") && NoTerminator(d, "us");
    RunSymbol(d, nonsyms, "us");
    RunConcat(d, nonsyms, Start, "us", "(");
    assert "us" + "(" == "us(";
  }

  lemma UsOpenA(d: Dialect, nonsyms: seq<string>)
    ensures Run(d, nonsyms, Start, "us(a") == Scan(Ok, 1, "us", "a", [])
  {
    UsOpen(d, nonsyms);
    RunConcat(d, nonsyms, Start, "us(", "a");
    assert AllGood("a") && NoTerminator(d, "a");
    RunGoodChars(d, nonsyms, Scan(Ok, 1, "us", [], []), "a");
    assert "us(" + "a" == "us(a";
  }

  /** Under parse2 the token `us(a:b)` is dropped, and the next `+` starts
      afresh. */
  lemma Parse2ColonInParens(nonsyms: seq<string>, rest: string)
    ensures SymbolList(Parse2Rules, nonsyms, "us(a:b)+" + rest) == SymbolList(Parse2Rules, nonsyms, rest)
  {
    ColonInNote(Parse2Rules, nonsyms);
    Parse2UnbalancedTokenDropped(nonsyms, "us(a:b)", rest);
    assert "us(a:b)" + ['+'] + rest == "us(a:b)+" + rest;
  }

  /** Under parse3 the depth stays at 1 and the scanner stays in `skip`, so
      nothing after `us(a:b)` is ever emitted: a later `)` does not count in
      `skip` state either. */
  lemma Parse3ColonInParens(nonsyms: seq<string>, rest: string)
    ensures SymbolList(Parse3Rules, nonsyms, "us(a:b)" + rest) == []
  {
    ColonInNote(Parse3Rules, nonsyms);
    Parse3StuckSuppressesRest(nonsyms, "us(a:b)", rest);
  }

  // A breaking character inside parentheses: `.` in `us(a.b)`.

  lemma BrokenInNote(d: Dialect, nonsyms: seq<string>)
    ensures Run(d, nonsyms, Start, "us(a.b)") == Scan(Broken, 1, "us", "a", [])
  {
    var sc := Scan(Ok, 1, "us", "a", []);
    UsOpenA(d, nonsyms);
    assert NoTerminator(d, "b)");
    RunConcat(d, nonsyms, Start, "us(a", ['.'] + "b)");
    RunConcat(d, nonsyms, sc, ['.'], "b)");
    assert Run(d, nonsyms, sc, ['.']) == Step(d, nonsyms, sc, '.');
    RunAbsorbs(d, nonsyms, sc.(mode := Broken), "b)");
    assert "us(a" + (['.'] + "b)") == "us(a.b)";
  }

  /** Under parse2 the broken token `us(a.b)` is dropped, and the next `+`
      starts afresh. */
  lemma Parse2BrokenInParens(nonsyms: seq<string>, rest: string)
    ensures SymbolList(Parse2Rules, nonsyms, "us(a.b)+" + rest) == SymbolList(Parse2Rules, nonsyms, rest)
  {
    BrokenInNote(Parse2Rules, nonsyms);
    Parse2UnbalancedTokenDropped(nonsyms, "us(a.b)", rest);
    assert "us(a.b)" + ['+'] + rest == "us(a.b)+" + rest;
  }

  /** Under parse3 nothing after `us(a.b)` is ever emitted. */
  lemma Parse3BrokenInParens(nonsyms: seq<string>, rest: string)
    ensures SymbolList(Parse3Rules, nonsyms, "us(a.b)" + rest) == []
  {
    BrokenInNote(Parse3Rules, nonsyms);
    Parse3StuckSuppressesRest(nonsyms, "us(a.b)", rest);
  }

  /** `us(a.b)+ru`: parse2 gives `[ru]`, parse3 gives nothing. */
  lemma BrokenInParensExample(nonsyms: seq<string>)
    requires "ru" !in nonsyms
    ensures SymbolList(Parse2Rules, nonsyms, "us(a.b)+ru") == ["ru"]
    ensures SymbolList(Parse3Rules, nonsyms, "us(a.b)+ru") == []
  {
    Parse2BrokenInParens(nonsyms, "ru");
    assert "us(a.b)+" + "ru" == "us(a.b)+ru";
    ParseEntry(Parse2Rules, nonsyms, "ru");
    Parse3BrokenInParens(nonsyms, "+ru");
    assert "us(a.b)" + "+ru" == "us(a.b)+ru";
  }
}
