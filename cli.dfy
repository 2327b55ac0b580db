/** The group-selection logic of the command-line front end
    (src/XKbSwitch.cpp): the bracketed layout listing, the counting of
    action flags, the flag-combination check, the next-group rotation, the
    set-by-name lookup and the name printed for the current group.

    The X session is abstracted away: the list of layout groups and the
    current group index are inputs, and the group that `set_group` selects is
    returned as a value. */
module Cli {
  import opened Strings

  // ------------------------------------------------------------------
  // print_layouts
  // ------------------------------------------------------------------

  /** The listing of `sv`: its elements separated by single spaces, in
      brackets. */
  function Bracketed(sv: seq<string>): (r: string)
    ensures |r| >= 2 && r[0] == '[' && r[|r| - 1] == ']'
  {
    "[" + Join(sv, ' ') + "]"
  }

  /** `print_layouts`: the loop writes a space before every element but the
      first. */
  method PrintLayouts(sv: seq<string>) returns (s: string)
    ensures s == Bracketed(sv)
  {
    var fst := true;
    s := "[";
    for i := 0 to |sv|
      invariant fst <==> i == 0
      invariant s == "[" + Join(sv[..i], ' ')
    {
      if !fst {
        s := s + " ";
        JoinSnoc(sv[..i], sv[i], ' ');
      }
      s := s + sv[i];
      fst := false;
      assert sv[..i + 1] == sv[..i] + [sv[i]];
    }
    assert sv[..|sv|] == sv;
    s := s + "]";
  }

  /** An empty list prints as `[]`. */
  lemma BracketedEmpty()
    ensures Bracketed([]) == "[]"
  {
  }

  /** The listing starts with `[`, ends with `]`, and there is no space right
      before the `]` when the last element does not end in one. */
  lemma BracketedShape(sv: seq<string>)
    ensures var s := Bracketed(sv);
            |s| >= 2 && s[0] == '[' && s[|s| - 1] == ']'
    ensures sv != [] && sv[|sv| - 1] != [] && sv[|sv| - 1][|sv[|sv| - 1]| - 1] != ' ' ==>
              Bracketed(sv)[|Bracketed(sv)| - 2] != ' '
  {
    if sv != [] && sv[|sv| - 1] != [] {
      JoinEndsWithLast(sv, ' ');
    }
  }

  /** A join ends with its last piece. */
  lemma {:induction false} JoinEndsWithLast(parts: seq<string>, d: char)
    requires |parts| >= 1
    ensures var j := Join(parts, d);
            |j| >= |parts[|parts| - 1]| && j[|j| - |parts[|parts| - 1]|..] == parts[|parts| - 1]
    decreases |parts|
  {
    if |parts| > 1 {
      JoinEndsWithLast(parts[1..], d);
      var tail := Join(parts[1..], d);
      assert Join(parts, d) == (parts[0] + [d]) + tail;
    }
  }

  /** The listing of space-free names can be read back: the text between the
      brackets, split at spaces, is the list again. */
  lemma BracketedRoundTrip(sv: seq<string>)
    requires |sv| >= 1 && NoneContains(sv, ' ')
    ensures var s := Bracketed(sv);
            SplitOn(s[1..|s| - 1], ' ') == sv
  {
    var s := Bracketed(sv);
    assert s[1..|s| - 1] == Join(sv, ' ');
    SplitOnJoin(sv, ' ');
  }

  // ------------------------------------------------------------------
  // Errors and results
  // ------------------------------------------------------------------

  /** The failures `main` reports before exiting with status 2. */
  datatype CliError =
    | ArgumentExpected          // `-s` with an empty argument
    | InvalidArguments          // an option getopt does not know
    | InvalidFlagCombination    // --list, --longwait or -s together with another action
    | NoLayoutGroups            // --next with no layout configured
    | GroupIndexOutOfRange(g: int)   // `syms.at(g)` past the list
    | GroupNotSupported(name: string)   // -s with a name not in the list

  datatype Result<T> = Success(value: T) | Failure(error: CliError)

  // ------------------------------------------------------------------
  // Option counting and the flag-combination check
  // ------------------------------------------------------------------

  /** An option as getopt returns it, with its argument for `-s`. */
  datatype Opt =
    | SetOpt(arg: string)   // -s ARG, --set ARG
    | ListOpt               // -l
    | VersionOpt            // -v
    | WaitOpt               // -w
    | LongWaitOpt           // -W
    | PrintOpt              // -p
    | NextOpt               // -n
    | HelpOpt               // -h
    | DebugOpt              // -d
    | FancyOpt              // -f
    | UnknownOpt            // '?' or any other character

  /** The variables `main` sets while reading options: `m_cnt` counts the
      action flags, `newgrp` is the argument of the last `-s`. */
  datatype Flags = Flags(cnt: nat, wait: bool, lwait: bool, printGroup: bool, next: bool,
                         list: bool, fancy: nat, verbose: nat, newgrp: string)

  const Initial: Flags := Flags(0, false, false, false, false, false, 0, 1, [])

  /** Whether an option is one of the action flags counted in `m_cnt`. */
  predicate Counted(o: Opt) {
    o.SetOpt? || o == ListOpt || o == WaitOpt || o == LongWaitOpt || o == PrintOpt || o == NextOpt
  }

  /** Whether an option makes the option loop throw. */
  predicate Rejected(o: Opt) {
    o == UnknownOpt || (o.SetOpt? && o.arg == [])
  }

  /** One turn of the option loop. `-v` and `-h` only write to stderr. */
  function ApplyOption(f: Flags, o: Opt): (r: Result<Flags>)
    ensures r.Failure? <==> Rejected(o)
  {
    match o
    case SetOpt(arg) =>
      if arg == [] then Failure(ArgumentExpected) else Success(f.(newgrp := arg, cnt := f.cnt + 1))
    case ListOpt => Success(f.(list := true, cnt := f.cnt + 1))
    case VersionOpt => Success(f)
    case WaitOpt => Success(f.(wait := true, cnt := f.cnt + 1))
    case LongWaitOpt => Success(f.(lwait := true, cnt := f.cnt + 1))
    case PrintOpt => Success(f.(printGroup := true, cnt := f.cnt + 1))
    case NextOpt => Success(f.(next := true, cnt := f.cnt + 1))
    case HelpOpt => Success(f)
    case DebugOpt => Success(f.(verbose := f.verbose + 1))
    case FancyOpt => Success(f.(fancy := f.fancy + 1))
    case UnknownOpt => Failure(InvalidArguments)
  }

  /** The whole option loop from flags `f`: stops at the first failure. */
  function ApplyOptions(f: Flags, opts: seq<Opt>): Result<Flags>
    decreases |opts|
  {
    if opts == [] then Success(f)
    else match ApplyOption(f, opts[0])
      case Failure(e) => Failure(e)
      case Success(f') => ApplyOptions(f', opts[1..])
  }

  /** The option loop of `main`. */
  method CollectOptions(opts: seq<Opt>) returns (r: Result<Flags>)
    ensures r == ApplyOptions(Initial, opts)
  {
    var f := Initial;
    var i := 0;
    while i < |opts|
      invariant 0 <= i <= |opts|
      invariant ApplyOptions(f, opts[i..]) == ApplyOptions(Initial, opts)
    {
      var o := opts[i];
      assert opts[i..][0] == o;
      if o.SetOpt? {
        if o.arg == [] {
          return Failure(ArgumentExpected);
        }
        f := f.(newgrp := o.arg, cnt := f.cnt + 1);
      } else if o == ListOpt {
        f := f.(list := true, cnt := f.cnt + 1);
      } else if o == WaitOpt {
        f := f.(wait := true, cnt := f.cnt + 1);
      } else if o == LongWaitOpt {
        f := f.(lwait := true, cnt := f.cnt + 1);
      } else if o == PrintOpt {
        f := f.(printGroup := true, cnt := f.cnt + 1);
      } else if o == NextOpt {
        f := f.(next := true, cnt := f.cnt + 1);
      } else if o == DebugOpt {
        f := f.(verbose := f.verbose + 1);
      } else if o == FancyOpt {
        f := f.(fancy := f.fancy + 1);
      } else if o == UnknownOpt {
        return Failure(InvalidArguments);
      }
      assert opts[i..][1..] == opts[i + 1..];
      i := i + 1;
    }
    assert opts[i..] == [];
    r := Success(f);
  }

  function CountCounted(opts: seq<Opt>): nat {
    if opts == [] then 0 else (if Counted(opts[0]) then 1 else 0) + CountCounted(opts[1..])
  }

  /** The option loop fails exactly when some option is unknown or is a `-s`
      with an empty argument; otherwise `m_cnt` has grown by the number of
      action flags, and `newgrp` and the other variables keep what they had
      unless an option sets them. */
  lemma {:induction false} OptionsOutcome(f: Flags, opts: seq<Opt>)
    ensures ApplyOptions(f, opts).Success? <==> forall k :: 0 <= k < |opts| ==> !Rejected(opts[k])
    ensures ApplyOptions(f, opts).Success? ==>
              ApplyOptions(f, opts).value.cnt == f.cnt + CountCounted(opts)
    ensures ApplyOptions(f, opts).Success? && (forall k :: 0 <= k < |opts| ==> !opts[k].SetOpt?) ==>
              ApplyOptions(f, opts).value.newgrp == f.newgrp
    decreases |opts|
  {
    if opts != [] {
      var o := opts[0];
      OptionStep(f, o);
      if !Rejected(o) {
        var f' := ApplyOption(f, o).value;
        assert ApplyOptions(f, opts) == ApplyOptions(f', opts[1..]);
        OptionsOutcome(f', opts[1..]);
        assert forall k :: 1 <= k < |opts| ==> opts[k] == opts[1..][k - 1];
      } else {
        assert ApplyOptions(f, opts).Failure?;
      }
    }
  }

  /** One option fails exactly when it is rejected, and otherwise counts
      itself and leaves `newgrp` alone unless it is a `-s`. */
  lemma OptionStep(f: Flags, o: Opt)
    ensures ApplyOption(f, o).Success? <==> !Rejected(o)
    ensures ApplyOption(f, o).Success? ==>
              ApplyOption(f, o).value.cnt == f.cnt + (if Counted(o) then 1 else 0)
    ensures ApplyOption(f, o).Success? && !o.SetOpt? ==> ApplyOption(f, o).value.newgrp == f.newgrp
  {
  }

  /** `m_cnt` is at least the number of action variables set, since each is
      set only together with an increment. */
  predicate Tallied(f: Flags) {
    f.cnt >= (if f.list then 1 else 0) + (if f.wait then 1 else 0) + (if f.lwait then 1 else 0)
             + (if f.printGroup then 1 else 0) + (if f.next then 1 else 0) + (if f.newgrp != [] then 1 else 0)
  }

  /** The option loop keeps the count in step with the flags. */
  lemma {:induction false} OptionsTallied(f: Flags, opts: seq<Opt>)
    requires Tallied(f)
    ensures ApplyOptions(f, opts).Success? ==> Tallied(ApplyOptions(f, opts).value)
    decreases |opts|
  {
    if opts != [] && ApplyOption(f, opts[0]).Success? {
      var f' := ApplyOption(f, opts[0]).value;
      assert Tallied(f') by {
        OptionTallied(f, opts[0]);
      }
      assert ApplyOptions(f, opts) == ApplyOptions(f', opts[1..]);
      OptionsTallied(f', opts[1..]);
    }
  }

  lemma OptionTallied(f: Flags, o: Opt)
    requires Tallied(f)
    ensures ApplyOption(f, o).Success? ==> Tallied(ApplyOption(f, o).value)
  {
  }

  /** The check after the option loop: `--list`, `--longwait` and `-s` must
      be the only action flag; with no action flag at all, the current group
      is printed. */
  function CheckFlags(f: Flags): (r: Result<Flags>)
    ensures r.Failure? ==> r.error == InvalidFlagCombination
    ensures r.Success? ==> r.value.(printGroup := f.printGroup) == f
  {
    if (f.list || f.lwait || f.newgrp != []) && f.cnt != 1 then Failure(InvalidFlagCombination)
    else if f.cnt == 0 then Success(f.(printGroup := true))
    else Success(f)
  }

  /** The check rejects exactly the combinations it names, changes nothing
      but `m_print`, and turns `m_print` on exactly when it was on or no action
      flag was given. */
  lemma CheckFlagsOutcome(f: Flags)
    ensures CheckFlags(f).Failure? <==> (f.list || f.lwait || f.newgrp != []) && f.cnt != 1
    ensures CheckFlags(f).Failure? ==> CheckFlags(f).error == InvalidFlagCombination
    ensures CheckFlags(f).Success? ==>
              CheckFlags(f).value == f.(printGroup := f.printGroup || f.cnt == 0)
  {
  }

  /** After a successful check, `--list`, `--longwait` and `-s` each come
      alone: no other action is requested beside them. */
  lemma ExclusiveActions(f: Flags)
    requires Tallied(f) && CheckFlags(f).Success?
    ensures var g := CheckFlags(f).value;
            (g.list ==> !g.wait && !g.lwait && !g.printGroup && !g.next && g.newgrp == []) &&
            (g.lwait ==> !g.wait && !g.list && !g.printGroup && !g.next && g.newgrp == []) &&
            (g.newgrp != [] ==> !g.wait && !g.lwait && !g.list && !g.printGroup && !g.next)
  {
  }

  /** Without any option, `xkb-switch` prints the current group. */
  lemma NoOptionsPrints()
    ensures ApplyOptions(Initial, []).Success?
    ensures CheckFlags(ApplyOptions(Initial, []).value).Success?
    ensures CheckFlags(ApplyOptions(Initial, []).value).value.printGroup
  {
  }

  /** `-l -p` is refused, but `-n -p` switches and prints. */
  lemma FlagExamples()
    ensures CheckFlags(ApplyOptions(Initial, [ListOpt, PrintOpt]).value) == Failure(InvalidFlagCombination)
    ensures var g := CheckFlags(ApplyOptions(Initial, [NextOpt, PrintOpt]).value);
            g.Success? && g.value.next && g.value.printGroup
  {
    assert ApplyOptions(Initial, [ListOpt, PrintOpt]).value.cnt == 2 by {
      assert [ListOpt, PrintOpt][1..] == [PrintOpt];
    }
    assert ApplyOptions(Initial, [NextOpt, PrintOpt]).value.next by {
      assert [NextOpt, PrintOpt][1..] == [PrintOpt];
    }
  }

  // ------------------------------------------------------------------
  // Group selection
  // ------------------------------------------------------------------

  /** `find(syms.begin(), syms.end(), x) - syms.begin()`. */
  method Find(syms: seq<string>, x: string) returns (i: nat)
    ensures i == IndexOf(syms, x)
  {
    i := 0;
    while i < |syms| && syms[i] != x
      invariant i <= |syms|
      invariant forall j :: 0 <= j < i ==> syms[j] != x
    {
      i := i + 1;
    }
    FirstIndex(syms, x, i);
  }

  /** The first position holding `x` (or the end) is what IndexOf names. */
  lemma {:induction false} FirstIndex(syms: seq<string>, x: string, i: nat)
    requires i <= |syms| && (i < |syms| ==> syms[i] == x)
    requires forall j :: 0 <= j < i ==> syms[j] != x
    ensures i == IndexOf(syms, x)
  {
    if i < |syms| {
      assert IndexOf(syms, x) <= i;
    } else {
      assert x !in syms;
    }
  }

  /** `syms.at(g)`: the name of group `g`, or an out-of-range error. */
  function GroupName(syms: seq<string>, g: int): (r: Result<string>)
    ensures r.Success? <==> 0 <= g < |syms|
    ensures r.Success? ==> r.value == syms[g]
    ensures r.Failure? ==> r.error == GroupIndexOutOfRange(g)
  {
    if 0 <= g < |syms| then Success(syms[g]) else Failure(GroupIndexOutOfRange(g))
  }

  /** The next-group rotation, stated by position: one past the first
      occurrence of the current group's name, modulo the number of groups. */
  function NextIndex(syms: seq<string>, group: int): (r: Result<nat>)
    ensures r.Success? <==> syms != [] && 0 <= group < |syms|
    ensures r.Success? ==> r.value < |syms|
  {
    if syms == [] then Failure(NoLayoutGroups)
    else if !(0 <= group < |syms|) then Failure(GroupIndexOutOfRange(group))
    else Success((IndexOf(syms, syms[group]) + 1) % |syms|)
  }

  /** `--next`: looks up the current group's name, finds its first
      occurrence and steps the iterator, wrapping to the beginning at the
      end. */
  method NextGroup(syms: seq<string>, group: int) returns (r: Result<nat>)
    ensures r == NextIndex(syms, group)
  {
    if syms == [] {
      return Failure(NoLayoutGroups);
    }
    var current := GroupName(syms, group);
    if current.Failure? {
      return Failure(current.error);
    }
    var i := Find(syms, current.value);
    assert i < |syms| by {
      assert syms[group] == current.value;
    }
    WrapAround(i, |syms|);
    i := i + 1;
    if i == |syms| {
      i := 0;
    }
    return Success(i);
  }

  /** Stepping an iterator and wrapping at the end is counting modulo `n`. */
  lemma WrapAround(k: nat, n: nat)
    requires k < n
    ensures (k + 1) % n == if k + 1 == n then 0 else k + 1
  {
  }

  /** The rotation fails exactly on an empty list or an index outside it,
      and otherwise lands on a valid group. */
  lemma NextIndexOutcome(syms: seq<string>, group: int)
    ensures NextIndex(syms, group).Success? <==> 0 <= group < |syms|
    ensures syms == [] ==> NextIndex(syms, group) == Failure(NoLayoutGroups)
    ensures NextIndex(syms, group).Success? ==> NextIndex(syms, group).value < |syms|
  {
  }

  /** With distinct names, `--next` moves to the following group and wraps
      from the last one to the first. */
  lemma NextOfDistinct(syms: seq<string>, group: int)
    requires forall i, j :: 0 <= i < j < |syms| ==> syms[i] != syms[j]
    requires 0 <= group < |syms|
    ensures NextIndex(syms, group) == Success(if group + 1 == |syms| then 0 else group + 1)
  {
    var i := IndexOf(syms, syms[group]);
    assert syms[i] == syms[group];
    WrapAround(group, |syms|);
  }

  /** A duplicated name resolves to its first occurrence: with
      `[us, us, ru]`, `--next` from group 1 selects group 1 again, so the
      third group is never reached from there. */
  lemma NextOfDuplicate()
    ensures NextIndex(["us", "us", "ru"], 1) == Success(1)
  {
    assert IndexOf(["us", "us", "ru"], "us") == 0;
  }

  /** `-s NAME`: the first group with that name, or an error when no group
      has it. */
  method SetGroup(syms: seq<string>, name: string) returns (r: Result<nat>)
    ensures r.Success? <==> name in syms
    ensures r.Success? ==>
              r.value < |syms| && syms[r.value] == name && forall j :: 0 <= j < r.value ==> syms[j] != name
    ensures r.Failure? ==> r.error == GroupNotSupported(name)
  {
    var i := Find(syms, name);
    if i == |syms| {
      return Failure(GroupNotSupported(name));
    }
    return Success(i);
  }

  /** The group `main` asks `set_group` for: `--next` wins over `-s`, and with
      neither the current group stays. Checking the current index for
      `--print` is left to GroupName. */
  method TargetGroup(syms: seq<string>, group: int, f: Flags) returns (r: Result<int>)
    ensures f.next ==> r == (match NextIndex(syms, group)
                               case Success(i) => Success(i as int)
                               case Failure(e) => Failure(e))
    ensures !f.next && f.newgrp != [] ==>
              (r.Success? <==> f.newgrp in syms) &&
              (r.Success? ==> r.value == IndexOf(syms, f.newgrp)) &&
              (r.Failure? ==> r.error == GroupNotSupported(f.newgrp))
    ensures !f.next && f.newgrp == [] ==> r == Success(group)
  {
    if f.next {
      var n := NextGroup(syms, group);
      if n.Failure? {
        return Failure(n.error);
      }
      return Success(n.value);
    } else if f.newgrp != [] {
      var s := SetGroup(syms, f.newgrp);
      if s.Failure? {
        return Failure(s.error);
      }
      FirstIndex(syms, f.newgrp, s.value);
      return Success(s.value);
    }
    return Success(group);
  }

  /** The line `--print` writes without `--fancy`: the name of the group
      selected, which fails when that index is not a group. */
  lemma PrintAfterSet(syms: seq<string>, name: string)
    requires name in syms
    ensures GroupName(syms, IndexOf(syms, name)) == Success(name)
  {
  }
}
