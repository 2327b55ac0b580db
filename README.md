# xkb-switch layout-string logic in Dafny

xkb-switch is a command-line tool that queries and switches the keyboard
layout group of an X session. This project models the part of it that is
pure string and list logic. The X session itself is an abstract source of
strings and of a group index.

- **Symbol-string parsers** (`XKeyboard.cpp`). Three generations of a
  tokenizer turn an XKB symbols string such as `pc+us+ru:2+inet(evdev)` into
  the ordered list of layout names, using a stop-list of non-layout words.
  - `parse1` collects letters and `_` after each `+`.
  - `parse2` is an `ok`/`skip`/`broken` state machine with a parenthesis
    depth and two accumulators, the symbol and its note.
  - `parse3` is `parse2` with `_` as a second terminator, and it ignores
    terminators inside parentheses.

  Each parser is a method with the source's loop, proved equal to a
  specification function: a fold of one step function over the input. The
  parsers' properties are lemmas about those folds. They cover:
  - the entry format;
  - `:` group counters;
  - broken tokens;
  - unbalanced parentheses;
  - output bounds and order;
  - a re-parse round trip;
  - the self-test fixtures.
- **Layout/variant zipper** (`src/XKeyboard.cpp` `build_layout_from`). Two
  comma lists are split the way `getline(…, ',')` splits them, then zipped
  position by position into `layout` or `layout(variant)`. Empty layouts
  are skipped.
- **Command-line group selection** (`src/XKbSwitch.cpp`). This covers:
  - the bracketed listing `print_layouts`;
  - the action-flag counting and the flag-combination check;
  - the next-group rotation;
  - the set-by-name lookup;
  - the `at`-checked name lookup done for printing.

Files:

| file | module | what it holds |
|---|---|---|
| `strings.dfy` | `Strings` | `IndexOf` (offset of `std::find`), `SplitOn`, `Join` and their round trips |
| `symbols.dfy` | `Symbols` | `goodchar` and its character classes, `filter`, `safe_push_back`, the entry format and its decoder |
| `parsers.dfy` | `Parsers` | `parse1`, `parse2` and `parse3`, with their specification folds and lemmas |
| `fixtures.dfy` | `ParserFixtures` | the `run_tests` fixtures of the root `XKbSwitch.cpp`, and `:` inside parentheses |
| `layouts.dfy` | `Layouts` | the `getline` field split, `build_layout_from` and the defaults of `get_layout_variant` |
| `cli.dfy` | `Cli` | `print_layouts`, the option counters, the flag check, and next/set/print group selection |

## Model

| member | source | states |
|---|---|---|
| Symbols.GoodChar | XKeyboard.cpp:204-207 | letters, digits, `_` and `-` are good; `+`, `(`, `)` and `:` are not |
| Symbols.Annotate | XKeyboard.cpp:198-200 | `s(note)` starts with `s`, and equals `s` exactly when the note is empty |
| Strings.IndexOf | src/XKbSwitch.cpp:188 | the offset `find` returns: the first index holding the value, or the length exactly when the value is absent |
| Strings.JoinSplitOn | src/XKeyboard.cpp:171-172 | joining the pieces of a split at the delimiter restores the input |
| Strings.SplitOnJoin | src/XKeyboard.cpp:171-172 | splitting a join of at least one delimiter-free piece gives the pieces back |
| Strings.SplitOnShape | src/XKeyboard.cpp:171-172 | a split has one piece more than there are delimiters, and no piece holds the delimiter |
| Strings.SplitOnLastEmpty | src/XKeyboard.cpp:171-174 | the last piece is empty exactly when the input is empty or ends with the delimiter, which is when the final `getline` fails |
| Symbols.Filter | XKeyboard.cpp:142-157 | a symbol is accepted if and only if it is non-empty, not in the stop-list, and does not start with a digit |
| Symbols.SafePushBack | XKeyboard.cpp:195-202 | an empty symbol leaves the vector unchanged; otherwise exactly one element is appended, `s` or `s(note)`, and the old elements are kept |
| Symbols.AnnotateShape | XKeyboard.cpp:198-200 | `s(note)` is the symbol, `(`, the note and `)`, and an empty note adds nothing |
| Symbols.AnnotateRoundTrip | XKeyboard.cpp:195-202 | an entry built from a symbol without `(` can be decoded back to that symbol and note |
| Symbols.AnnotateValid | XKeyboard.cpp:195-207 | a filtered symbol and a note of good characters give a valid entry |
| Parsers.Commit | XKeyboard.cpp:222-224 | a token is emitted if and only if it is not broken, its depth is 0 and its symbol passes the filter; the emitted entry is `sym` or `sym(note)` and the earlier output is kept |
| Parsers.Parse2 | XKeyboard.cpp:209-255 | the loop computes the specification fold of the parse2 rules over the input |
| Parsers.Parse3 | XKeyboard.cpp:257-304 | the loop computes the specification fold of the parse3 rules over the input |
| Parsers.RunConcat | XKeyboard.cpp:218-248 | scanning `a + b` is scanning `b` from the state after `a` |
| Parsers.RunAppendsOnly | XKeyboard.cpp:221-229 | the scan only appends to `symlist`: what was there stays in front, and the rest depends only on the input |
| Parsers.StepShape | XKeyboard.cpp:218-247 | one character (`Step`, with `InToken` for the characters inside a token) only appends to `symlist`, only a terminator can append, and in `skip` or `broken` state any other character changes nothing |
| Parsers.StepAppendsOnly | XKeyboard.cpp:221-247 | one character of input only appends to `symlist` |
| Parsers.CommitAppendsOnly | XKeyboard.cpp:222-224 | a commit only appends to `symlist` |
| Parsers.RunAbsorbs | XKeyboard.cpp:230-247 | in `skip` or `broken` state, every character but a terminator leaves the scanner unchanged |
| Parsers.RunKeepsOut | XKeyboard.cpp:230-247 | between terminators, nothing is emitted |
| Parsers.RunNeverSkips | XKeyboard.cpp:236-237 | without a `:`, the scanner never enters `skip` state within a token |
| Parsers.EmptyInput | XKeyboard.cpp:216-254 | an empty input gives an empty list, under both rule sets |
| Parsers.CommitInv | XKeyboard.cpp:271-276 | a commit keeps every emitted entry valid and, under parse3, free of `_` |
| Parsers.RunInv | XKeyboard.cpp:266-297 | the scan keeps the accumulators made of good characters and every emitted entry valid |
| Parsers.Entries | XKeyboard.cpp:268-301 | every entry either parser emits is `sym` or `sym(note)`, where `sym` passes the filter and `sym` and `note` are good characters; under parse3 no entry holds `_` |
| Parsers.ColonEndsToken | XKeyboard.cpp:285-286 | a `:` ends what the current token contributes, even inside parentheses, so `ru:2` emits what `ru` emits |
| Parsers.BrokenCharDropsToken | XKeyboard.cpp:294-296 | a character that is not good, not a parenthesis, not `:` and not a terminator, met in `ok` state, makes the rest of its token contribute nothing: up to the next terminator the output stays what was emitted before the token (under parse3 inside parentheses the terminators that follow are ignored too, see `Parsers.Parse3BrokenInParensSuppressesRest`) |
| Parsers.BrokenTokenEmitsNothing | XKeyboard.cpp:245-246 | a single token with such a character emits nothing |
| Parsers.RunOutBound | XKeyboard.cpp:218-248 | the scan emits at most one entry per terminator |
| Parsers.OutputBound | XKeyboard.cpp:266-301 | the output has at most one entry more than the input has terminators |
| Parsers.AfterCommit | XKeyboard.cpp:269-277 | at a terminator at depth 0, the output is the output of the text before it followed by the output of the text after it |
| Parsers.Parse2Splits | XKeyboard.cpp:221-229 | under parse2, every `+` splits the output into the outputs of both sides |
| Parsers.Parse2ByTokens | XKeyboard.cpp:218-252 | parse2's output is the concatenation of its tokens' outputs, in token order |
| Parsers.Parse2TokenAtMostOne | XKeyboard.cpp:250-252 | a single token yields at most one entry |
| Parsers.Parse2UnbalancedTokenDropped | XKeyboard.cpp:222-226 | a token with unbalanced parentheses is dropped, and the depth is reset for the following tokens |
| Parsers.Parse3IgnoresTerminatorInParens | XKeyboard.cpp:269-278 | under parse3, a `+` or `_` while the depth is not 0 has no effect at all |
| Parsers.Parse3SplitsAtDepthZero | XKeyboard.cpp:269-277 | under parse3, a terminator at depth 0 splits the output into the outputs of both sides |
| Parsers.OpenParenKeepsOut | XKeyboard.cpp:269-284 | under parse3, while no `)` follows, the depth never drops and nothing is emitted |
| Parsers.Parse3UnclosedParenSuppressesRest | XKeyboard.cpp:269-301 | under parse3, once the depth is positive and no `)` follows, nothing more is emitted up to and including the final flush |
| Parsers.Parse3Stuck | XKeyboard.cpp:269-296 | under parse3, in `skip` or `broken` state at a positive depth, no character changes the scanner: `)` is not counted and terminators are ignored |
| Parsers.Parse3StuckSuppressesRest | XKeyboard.cpp:269-301 | under parse3, once the scan is in `skip` or `broken` state at a positive depth, whatever follows adds nothing to the output |
| Parsers.Parse3BrokenInParensSuppressesRest | XKeyboard.cpp:279-301 | under parse3, a breaking character inside parentheses makes the output what was emitted before, whatever follows |
| Parsers.RunGoodChars | XKeyboard.cpp:288-293 | good characters in `ok` state extend `sym` at depth 0 and `note` otherwise |
| Parsers.RunColon | XKeyboard.cpp:285-287 | a `:` switches `ok` to `skip`, and the rest of the token is then ignored |
| Parsers.GoodNoTerminator | XKeyboard.cpp:204-207 | good characters are never `+`, and under parse3 none of them is `_` once `_` is excluded |
| Parsers.RunSymbol | XKeyboard.cpp:288-290 | a word of good characters read from the start becomes the symbol |
| Parsers.RunNote | XKeyboard.cpp:279-293 | `sym(note)` read from the start leaves the symbol, the note and depth 0 |
| Parsers.RunEntry | XKeyboard.cpp:279-293 | the text of an entry, read from the start, leaves its symbol and note at depth 0 with nothing emitted |
| Parsers.ParseEntry | XKeyboard.cpp:299-301 | a valid entry parsed on its own gives exactly that entry |
| Parsers.TokenThenRest | XKeyboard.cpp:269-277 | a token `sym(note)` with an optional `:` suffix, followed by a terminator, contributes its entry when the filter accepts it, followed by the output of the rest |
| Parsers.ReparseJoined | XKeyboard.cpp:218-252 | parsing the `+`-join of valid entries gives the entries back |
| Parsers.ReparseIsIdempotent | XKeyboard.cpp:266-301 | re-parsing the `+`-join of a parser's output gives the same output |
| Parsers.Emit1 | XKeyboard.cpp:168-170 | parse1 emits the symbol if and only if it is in a symbol and the symbol passes the filter, and keeps the earlier output |
| Parsers.Step1Shape | XKeyboard.cpp:165-186 | one character of parse1 only appends to `symlist`, and outside a symbol any character but `+` changes nothing |
| Parsers.Parse1 | XKeyboard.cpp:159-193 | the loop computes the specification fold of the parse1 rules over the input |
| Parsers.Run1Concat | XKeyboard.cpp:165-186 | scanning `a + b` is scanning `b` from the state after `a` |
| Parsers.Run1AppendsOnly | XKeyboard.cpp:165-186 | parse1 only appends to `symlist` |
| Parsers.Emit1AppendsOnly | XKeyboard.cpp:168-170 | an emission only appends |
| Parsers.Run1Idle | XKeyboard.cpp:180-185 | outside a symbol, only `+` has any effect |
| Parsers.Parse1IgnoresLeadingText | XKeyboard.cpp:161 | text before the first `+` is never emitted |
| Parsers.Parse1Splits | XKeyboard.cpp:167-173 | every `+` splits parse1's output into the outputs of both sides |
| Parsers.LeadingSymbol | XKeyboard.cpp:177-179 | the longest prefix of letters and `_` |
| Parsers.Run1Word | XKeyboard.cpp:177-179 | after a `+`, letters and `_` accumulate into the symbol |
| Parsers.TokenScan1Stopped | XKeyboard.cpp:174-185 | a symbol stopped by `(` is dropped; a symbol stopped by another character is emitted when the filter accepts it |
| Parsers.TokenScan1 | XKeyboard.cpp:165-190 | one token after a `+` contributes what its leading symbol and the character after it decide |
| Parsers.Parse1Token | XKeyboard.cpp:167-190 | a symbol immediately followed by `(` is dropped, and otherwise the leading symbol is emitted when it passes the filter |
| Parsers.Parse1AfterPlus | XKeyboard.cpp:165-190 | after a `+`, the output is the concatenation of the outputs of the `+`-separated tokens |
| Parsers.Parse1ByTokens | XKeyboard.cpp:159-193 | parse1's output is the concatenation of the outputs of the tokens after the first `+`, in order |
| Parsers.Parse1ByTokensAt | XKeyboard.cpp:159-193 | the same, for an input split at its first `+` |
| Parsers.Run1Inv | XKeyboard.cpp:165-186 | the symbol and every emitted entry consist of letters and `_`, and every entry passes the filter |
| Parsers.Parse1Entries | XKeyboard.cpp:174-190 | every entry parse1 emits passes the filter and consists of letters and `_` only |
| Parsers.TokensOutput1Bound | XKeyboard.cpp:167-185 | each token contributes at most one entry |
| Parsers.Parse1Bound | XKeyboard.cpp:159-193 | parse1 emits at most one entry per `+` |
| ParserFixtures.PlainToken | XKeyboard.cpp:269-277 | a plain symbol followed by a terminator contributes itself when the filter accepts it |
| ParserFixtures.ColonToken | XKeyboard.cpp:285-286 | a symbol with a `:N` suffix contributes the symbol alone |
| ParserFixtures.TokenUsAltIntl | XKbSwitch.cpp:71-76 | `us(alt-intl):4+` contributes `us(alt-intl)` |
| ParserFixtures.AtUsAltIntl | XKbSwitch.cpp:71-76 | `at:3+us(alt-intl):4+` contributes `at, us(alt-intl)` |
| ParserFixtures.UsToken | XKbSwitch.cpp:71-73 | `us+` contributes `us` |
| ParserFixtures.Fixture1 | XKbSwitch.cpp:71-76 | the first fixture's output starts with `us, sk1(qwerty1), at, us(alt-intl)` |
| ParserFixtures.Fixture2 | XKbSwitch.cpp:79-84 | the second fixture's output starts with `us, sk(qwerty), at, us(alt-intl)` |
| ParserFixtures.UsRuColon | XKbSwitch.cpp:87-90 | `us+ru:2+` contributes `us, ru` |
| ParserFixtures.DroppedToken | XKbSwitch.cpp:87-89 | a stop-list word followed by a terminator contributes nothing |
| ParserFixtures.Fixture3 | XKbSwitch.cpp:87-90 | with `pc` in the stop-list, the third fixture's output starts with `us, ru` |
| ParserFixtures.RuTwoUnderscore | XKbSwitch.cpp:93-96 | `ru_2_` contributes `ru` under parse3 |
| ParserFixtures.UsRuTwoUnderscore | XKbSwitch.cpp:93-96 | `us_ru_2_` contributes `us, ru`: the group counter `2` is filtered out |
| ParserFixtures.Fixture4 | XKbSwitch.cpp:93-96 | with `pc` in the stop-list, the `_`-separated fixture's output starts with `us, ru` |
| ParserFixtures.Fixture5 | XKbSwitch.cpp:99-101 | with `pc` in the stop-list, the last fixture's output starts with `us` |
| ParserFixtures.TokenInetDropped | XKbSwitch.cpp:99-101 | with `inet` in the stop-list, `inet(evdev)` contributes nothing |
| ParserFixtures.Fixture5Exact | XKbSwitch.cpp:99-101 | with `pc` and `inet` in the stop-list, the last fixture gives exactly `[us]` |
| ParserFixtures.GroupCounterSkipped | XKeyboard.cpp:236-237 | `ru:2` gives exactly `[ru]` under both rule sets |
| ParserFixtures.ColonInNote | XKeyboard.cpp:230-237 | in `us(a:b)`, the `:` inside the parentheses starts skipping, so the `)` is never counted and the depth stays 1 |
| ParserFixtures.UsOpen | XKeyboard.cpp:279-281 | `us(` leaves the symbol `us` at depth 1 |
| ParserFixtures.UsOpenA | XKeyboard.cpp:288-292 | `us(a` leaves the symbol `us` and the note `a` at depth 1 |
| ParserFixtures.Parse2ColonInParens | XKeyboard.cpp:221-237 | under parse2, the token `us(a:b)` is dropped, and parsing starts afresh at the next `+` |
| ParserFixtures.Parse3ColonInParens | XKeyboard.cpp:269-301 | under parse3, `us(a:b)` at the start leaves the output empty whatever follows, a later `)` included |
| ParserFixtures.BrokenInNote | XKeyboard.cpp:279-296 | in `us(a.b)`, the `.` inside the parentheses breaks the token at depth 1, and the `)` is never counted |
| ParserFixtures.Parse2BrokenInParens | XKeyboard.cpp:221-247 | under parse2, the token `us(a.b)` is dropped, and parsing starts afresh at the next `+` |
| ParserFixtures.Parse3BrokenInParens | XKeyboard.cpp:269-301 | under parse3, `us(a.b)` at the start leaves the output empty whatever follows |
| ParserFixtures.BrokenInParensExample | XKeyboard.cpp:209-304 | `us(a.b)+ru` gives `[ru]` under parse2 and `[]` under parse3 |
| Layouts.Fields | src/XKeyboard.cpp:171-172 | no field holds a comma |
| Layouts.ZipEntry | src/XKeyboard.cpp:178-184 | a position contributes at most one entry, and none exactly when its layout field is empty |
| Layouts.FieldsShape | src/XKeyboard.cpp:171-172 | no field holds a comma, and an empty string has no fields |
| Layouts.FieldsJoin | src/XKeyboard.cpp:171-172 | the fields joined with commas, plus the final comma if there was one, are the input |
| Layouts.FieldsOfJoin | src/XKeyboard.cpp:171-172 | comma-free fields whose last one is non-empty are read back from their join |
| Layouts.FieldsOf | src/XKeyboard.cpp:171-174 | a split whose last piece is non-empty is the field list |
| Layouts.FieldsPair | src/XKeyboard.cpp:171-172 | `a,b` with a non-empty `b` has the fields `a` and `b` |
| Layouts.FieldsSingle | src/XKeyboard.cpp:171-172 | a non-empty comma-free string is its only field |
| Layouts.FieldsUsDe | src/XKeyboard.cpp:171 | `us,de` has the fields `us` and `de` |
| Layouts.FieldsQwerty | src/XKeyboard.cpp:172 | `,qwerty` has the fields `` (empty) and `qwerty` |
| Layouts.EntryText | src/XKeyboard.cpp:178-183 | `l + "(" + v + ")"` for a non-empty variant and `l` otherwise is the parsers' entry format |
| Layouts.ZipAdvance | src/XKeyboard.cpp:168-188 | one turn of the loop appends the entry of its position |
| Layouts.BuildLayoutFrom | src/XKeyboard.cpp:161-189 | the output is the zip of the two field lists; it starts from an empty list, so it depends only on the layout and variant strings |
| Layouts.ReadFields | src/XKeyboard.cpp:168-188 | the loop runs until both field lists are exhausted and emits the zip of the two lists |
| Layouts.LayoutVariant | src/XKeyboard.cpp:157-158 | an absent layout defaults to `us` and an absent variant to the empty string; present values are kept |
| Layouts.BuildLayout | src/XKeyboard.cpp:157-196 | `build_layout`: the layouts `build_layout_from` builds from the defaulted strings of `get_layout_variant` |
| Layouts.DefaultLayout | src/XKeyboard.cpp:157-158 | with no layout string, the result is the single entry `us`, annotated with the first variant field |
| Layouts.PositionsFromBounds | src/XKeyboard.cpp:181-184 | every listed position holds a non-empty layout |
| Layouts.PositionsFromSorted | src/XKeyboard.cpp:168-188 | the positions are listed in increasing order |
| Layouts.PositionsFromComplete | src/XKeyboard.cpp:181-187 | every position with a non-empty layout is listed |
| Layouts.PositionsShape | src/XKeyboard.cpp:181-187 | the positions of non-empty layouts: in range, in order, and all of them |
| Layouts.ZipPastLayouts | src/XKeyboard.cpp:174-187 | past the last layout field nothing is emitted, however many variant fields remain |
| Layouts.ZipFromPositions | src/XKeyboard.cpp:178-187 | the entries from position `k` on correspond one to one to the non-empty layouts from `k` on |
| Layouts.ZipByPositions | src/XKeyboard.cpp:178-187 | entry `j` is the `j`-th non-empty layout annotated with the variant at its own position, so empty layouts are skipped, not padded, and field order is kept |
| Layouts.ZipCount | src/XKeyboard.cpp:181-187 | there are as many entries as non-empty layouts, and as many as layouts when none is empty |
| Layouts.PositionsAllFrom | src/XKeyboard.cpp:181-184 | with no empty layout, every position from `start` is listed |
| Layouts.PositionsAll | src/XKeyboard.cpp:181-184 | with no empty layout, every position is listed |
| Layouts.ZipTwo | src/XKeyboard.cpp:178-184 | two non-empty layouts give their two annotated entries |
| Layouts.ZipExampleFields | src/XKeyboard.cpp:178-184 | layouts `us, de` with variants ``, `qwerty` give `us, de(qwerty)` |
| Layouts.ZipExample | src/XKeyboard.cpp:161-189 | `us,de` with `,qwerty` give `[us, de(qwerty)]` |
| Cli.Bracketed | src/XKbSwitch.cpp:53-66 | the listing starts with `[` and ends with `]` |
| Cli.PrintLayouts | src/XKbSwitch.cpp:53-66 | the loop writes `[`, the elements separated by single spaces, and `]` |
| Cli.BracketedEmpty | src/XKbSwitch.cpp:53-66 | an empty list prints as `[]` |
| Cli.BracketedShape | src/XKbSwitch.cpp:58-64 | the listing starts with `[` and ends with `]`, with no space before the `]` when the last element does not end in one |
| Cli.JoinEndsWithLast | src/XKbSwitch.cpp:59-63 | a join ends with its last piece |
| Cli.BracketedRoundTrip | src/XKbSwitch.cpp:53-66 | for a non-empty list of space-free names, the text between the brackets split at spaces is the list |
| Cli.ApplyOption | src/XKbSwitch.cpp:102-145 | one option fails exactly when it is unknown or an empty `-s` |
| Cli.CollectOptions | src/XKbSwitch.cpp:101-146 | the option loop computes the fold of the option rules, stopping at the first failure |
| Cli.OptionStep | src/XKbSwitch.cpp:102-144 | one option fails exactly when it is unknown or an empty `-s`; otherwise `m_cnt` grows by one exactly for the action flags, and only `-s` changes `newgrp` |
| Cli.OptionsOutcome | src/XKbSwitch.cpp:101-146 | the option loop fails exactly when an option is unknown or an empty `-s`; otherwise `m_cnt` counts the action flags, and `newgrp` is untouched without a `-s` |
| Cli.OptionTallied | src/XKbSwitch.cpp:102-128 | one option keeps `m_cnt` at least the number of action variables set |
| Cli.OptionsTallied | src/XKbSwitch.cpp:101-146 | the option loop keeps `m_cnt` at least the number of action variables set |
| Cli.CheckFlags | src/XKbSwitch.cpp:153-159 | the check fails only with the invalid-combination error, and otherwise changes nothing but `m_print` |
| Cli.CheckFlagsOutcome | src/XKbSwitch.cpp:153-159 | the check fails exactly when `--list`, `--longwait` or `-s` comes with a count other than 1; otherwise only `m_print` changes, and it is on exactly when it was on or no action flag was given |
| Cli.ExclusiveActions | src/XKbSwitch.cpp:153-155 | after a successful check, `--list`, `--longwait` and `-s` each come without any other action |
| Cli.NoOptionsPrints | src/XKbSwitch.cpp:157-159 | with no option, the check passes and the current group is printed |
| Cli.FlagExamples | src/XKbSwitch.cpp:153-159 | `-l -p` is refused, and `-n -p` both switches and prints |
| Cli.Find | src/XKbSwitch.cpp:193 | the linear search returns the first index holding the name, or the length |
| Cli.FirstIndex | src/XKbSwitch.cpp:188 | the first position holding the value, or the end, is the `find` offset |
| Cli.GroupName | src/XKbSwitch.cpp:199-201 | `syms.at(g)` succeeds if and only if `g` is a valid index, and then yields `syms[g]`; otherwise it reports `g` as out of range |
| Cli.NextIndex | src/XKbSwitch.cpp:185-191 | the rotation succeeds exactly on a non-empty list and a valid index, and then gives a valid index |
| Cli.NextGroup | src/XKbSwitch.cpp:185-191 | the iterator walk computes one plus the first index of the current group's name, modulo the number of groups; an empty list and an invalid index are errors |
| Cli.WrapAround | src/XKbSwitch.cpp:189 | stepping past the end and wrapping to the beginning is counting modulo the length |
| Cli.NextIndexOutcome | src/XKbSwitch.cpp:185-191 | the rotation fails exactly on an empty list or an index outside it, and otherwise gives a valid group index |
| Cli.NextOfDistinct | src/XKbSwitch.cpp:187-190 | with distinct names, `--next` moves to the following group and wraps from the last to the first |
| Cli.NextOfDuplicate | src/XKbSwitch.cpp:187-188 | with `[us, us, ru]`, `--next` from group 1 selects group 1 again: duplicates resolve to the first occurrence |
| Cli.SetGroup | src/XKbSwitch.cpp:192-197 | `-s NAME` succeeds if and only if the name is in the list, selecting its first occurrence, and otherwise reports it as unsupported |
| Cli.TargetGroup | src/XKbSwitch.cpp:185-197 | `--next` takes priority over `-s`; `-s` with a name not in the list fails with that name reported as unsupported; with neither, the current group stays |
| Cli.PrintAfterSet | src/XKbSwitch.cpp:196-201 | after `-s NAME`, the printed name is `NAME` |

## Left out

- The X session (`open_display`, `wait_event`, `get_group`, `set_group`,
  `get_long_group_name`, `XkbRF_GetNamesProp` and the resource wrappers) is
  foreign code. The model takes its place with two inputs:
  - the symbols or layout/variant strings;
  - the current group index.
- `set_group` is read as taking effect at once: the name printed after a
  switch is that of the selected group. The `--fancy` long name comes from
  X, so it is not modelled.
- `XKeyboard::BuildLayout` (`XKeyboard.cpp`) is not modelled. Its `strtok`
  split is tied to an X call and to a fixed 20-byte `strcpy` buffer.
- Both `XKbSwitchApi.cpp` files are not modelled. They are process-wide
  caches around X calls, and the root copy relies on `XkbSymbolParser`,
  which is not part of this model.
- `getopt_long` is foreign. `Cli.CollectOptions` takes the options as it
  would return them, as a sequence of `Opt` values. What `-v` and `-h` write
  to stderr, and the debug messages, are not modelled.
- The `--wait` and `--longwait` event loops and the `--list` output are X
  calls and output, so they are not modelled. Only the flags that select
  them are.
- The default stop-list `nonsyms()` is not part of this model. Every parser
  and fixture takes the stop-list as a parameter, and each fixture lemma
  states which words it needs in the list and which not.
- `isalpha` and `isdigit` are modelled as ASCII tests, which is what the C
  locale does. Locales are not modelled.
- The parenthesis depth is an unbounded integer. The source's `int` would
  overflow only after more than two billion `(`.
- The verbosity counter is likewise unbounded.
- `filter` in `src/XKeyboard.cpp:271-286` is the same code as the root
  copy, and `Symbols.Filter` models both.
- The root `XKbSwitch.cpp` `main` is not part of this model; it differs from
  the `src` one:
  - it reads its arguments in a hand-written loop, not with getopt, and an
    unknown argument throws (`XKbSwitch.cpp:174-176`);
  - `-v` returns 0 at once and `-h` returns 1 (`XKbSwitch.cpp:142-145`,
    `XKbSwitch.cpp:170-173`);
  - it accepts `-x`, which prints the raw symbols string, and `--test`, which
    runs the self-test (`XKbSwitch.cpp:162-169`);
  - its flag check also makes `--next` exclusive (`XKbSwitch.cpp:179-180`);
  - it has no `-d` and no `-f`.

  Only its copies of `print_layouts` and of the next-group and set-group
  logic are the same as the `src` ones, which model them. Its `run_tests`
  provides the fixtures.
- `safe_push_back` takes the vector by reference. In the model it is a
  function that returns the extended list.
- The parsers' fixture lemmas (`ParserFixtures.Fixture1` to
  `ParserFixtures.Fixture5`) state a prefix of the output, which is what the
  self-test checks. `ParserFixtures.Fixture5Exact` pins down the exact result
  of the last fixture. An exact result for the others would depend on the
  default stop-list: for example, `compose(ralt)` is emitted unless
  `compose` is in it.
- A `:` inside parentheses is not a plain character. After the terminator
  test, each branch of the parsers tests only `state == ok`, never the depth,
  so the colon switches to `skip` at any depth. The closing `)` is then never counted:
  - under parse2 that token is dropped;
  - under parse3 the terminators that follow are ignored too, because the
    depth stays positive, and a later `)` is not counted in `skip` state.
    Nothing after the token is ever emitted.

  A character that breaks a token inside parentheses has the same effect.
  The model follows the code (see `Parsers.ColonEndsToken`,
  `Parsers.Parse3StuckSuppressesRest` and `ParserFixtures.ColonInNote`).
