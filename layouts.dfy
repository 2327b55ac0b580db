/** The layout/variant form of the configuration (src/XKeyboard.cpp): the
    window system's rules property gives a comma-separated list of layouts
    and a parallel comma-separated list of variants, and `build_layout_from`
    zips them position by position into `layout` or `layout(variant)`. */
module Layouts {
  import opened Strings
  import opened Symbols

  datatype Option<T> = None | Some(value: T)

  /** The fields that successive `getline(stream, field, ',')` calls read
      before the stream fails: the pieces between commas, except that a read
      that finds the stream already exhausted fails instead of giving an
      empty field. So `""` has no field and `"a,"` has just `a`. */
  function Fields(s: string): (r: seq<string>)
    ensures NoneContains(r, ',')
  {
    SplitOnShape(s, ',');
    var parts := SplitOn(s, ',');
    if parts[|parts| - 1] == [] then parts[..|parts| - 1] else parts
  }

  /** No field holds a comma, and the empty string has no field. */
  lemma FieldsShape(s: string)
    ensures NoneContains(Fields(s), ',')
    ensures s == [] ==> Fields(s) == []
  {
    SplitOnShape(s, ',');
  }

  /** The fields lose only a trailing comma: joining them with commas gives
      the string back, less the final comma if it had one. */
  lemma FieldsJoin(s: string)
    ensures Join(Fields(s), ',') + (if s != [] && s[|s| - 1] == ',' then [','] else []) == s
  {
    var parts := SplitOn(s, ',');
    assert Join(parts, ',') == s by {
      JoinSplitOn(s, ',');
    }
    SplitOnLastEmpty(s, ',');
    if s == [] {
    } else if s[|s| - 1] == ',' {
      assert |parts| >= 2 by {
        SplitOnShape(s, ',');
        assert ',' in s;
      }
      var init := parts[..|parts| - 1];
      assert parts == init + [[]];
      assert Fields(s) == init;
      assert Join(parts, ',') == Join(init, ',') + [','] by {
        JoinSnoc(init, [], ',');
      }
    } else {
      assert Fields(s) == parts;
    }
  }

  /** The field a stream gives at a position: the empty string once it has
      failed. */
  function FieldAt(fs: seq<string>, k: nat): string {
    if k < |fs| then fs[k] else []
  }

  /** The entry position `k` contributes: nothing when the layout field is
      empty, otherwise the layout annotated with the variant at the same
      position. */
  function ZipEntry(layouts: seq<string>, variants: seq<string>, k: nat): (r: seq<string>)
    ensures |r| <= 1
    ensures r == [] <==> FieldAt(layouts, k) == []
  {
    if FieldAt(layouts, k) == [] then [] else [Annotate(FieldAt(layouts, k), FieldAt(variants, k))]
  }

  /** The entries of positions `k` on, until both lists are exhausted. */
  function ZipFrom(layouts: seq<string>, variants: seq<string>, k: nat): seq<string>
    decreases |layouts| + |variants| - k
  {
    if k >= |layouts| && k >= |variants| then []
    else ZipEntry(layouts, variants, k) + ZipFrom(layouts, variants, k + 1)
  }

  /** The zip of layout fields and variant fields, position by position. */
  function ZipEntries(layouts: seq<string>, variants: seq<string>): seq<string> {
    ZipFrom(layouts, variants, 0)
  }

  /** The text `build_layout_from` pushes is the entry format. */
  lemma EntryText(l: string, v: string)
    ensures l + (if v == [] then [] else "(" + v + ")") == Annotate(l, v)
  {
  }

  /** Moving the loop of `build_layout_from` one position on keeps its
      invariant. */
  lemma ZipAdvance(layouts: seq<string>, variants: seq<string>, k: nat, out: seq<string>)
    requires k < |layouts| || k < |variants|
    requires out + ZipFrom(layouts, variants, k) == ZipEntries(layouts, variants)
    ensures (out + ZipEntry(layouts, variants, k)) + ZipFrom(layouts, variants, k + 1)
         == ZipEntries(layouts, variants)
  {
    var e, rest := ZipEntry(layouts, variants, k), ZipFrom(layouts, variants, k + 1);
    assert (out + e) + rest == out + (e + rest);
  }

  /** `build_layout_from`: `out` is cleared, then both lists are read field by
      field until both streams have failed. */
  method BuildLayoutFrom(lv: (string, string)) returns (out: seq<string>)
    ensures out == ZipEntries(Fields(lv.0), Fields(lv.1))
  {
    out := ReadFields(Fields(lv.0), Fields(lv.1));
  }

  /** The reading loop of `build_layout_from`, over the fields the two
      streams give. */
  method ReadFields(layout: seq<string>, variant: seq<string>) returns (out: seq<string>)
    ensures out == ZipEntries(layout, variant)
  {
    out := [];
    var k := 0;
    while true
      invariant out + ZipFrom(layout, variant, k) == ZipEntries(layout, variant)
      decreases |layout| + |variant| - k
    {
      var l := FieldAt(layout, k);
      var v := FieldAt(variant, k);
      if k >= |layout| && k >= |variant| {
        break;
      }
      ZipAdvance(layout, variant, k, out);
      EntryText(l, v);
      ghost var before := out;
      if v != "" {
        v := "(" + v + ")";
      }
      if l != "" {
        out := out + [l + v];
      }
      assert out == before + ZipEntry(layout, variant, k);
      k := k + 1;
    }
  }

  /** `get_layout_variant`'s defaults: a missing layout property reads as
      `us`, a missing variant property as the empty string. */
  function LayoutVariant(layout: Option<string>, variant: Option<string>): (lv: (string, string))
    ensures layout.Some? ==> lv.0 == layout.value
    ensures layout.None? ==> lv.0 == "us"
    ensures variant.Some? ==> lv.1 == variant.value
    ensures variant.None? ==> lv.1 == []
  {
    (if layout.Some? then layout.value else "us", if variant.Some? then variant.value else "")
  }

  /** `build_layout`: the layout list of the session's current properties. */
  method BuildLayout(layout: Option<string>, variant: Option<string>) returns (out: seq<string>)
    ensures out == ZipEntries(Fields(LayoutVariant(layout, variant).0), Fields(LayoutVariant(layout, variant).1))
  {
    out := BuildLayoutFrom(LayoutVariant(layout, variant));
  }

  /** Splitting a comma-join of comma-free fields whose last field is not
      empty gives the fields back. */
  lemma FieldsOfJoin(fs: seq<string>)
    requires |fs| >= 1 && fs[|fs| - 1] != []
    requires NoneContains(fs, ',')
    ensures Fields(Join(fs, ',')) == fs
  {
    SplitOnJoin(fs, ',');
    FieldsOf(Join(fs, ','), fs);
  }

  lemma FieldsOf(s: string, fs: seq<string>)
    requires SplitOn(s, ',') == fs && fs[|fs| - 1] != []
    ensures Fields(s) == fs
  {
  }

  /** The positions from `start` on that hold a non-empty field, in
      increasing order. */
  function PositionsFrom(ls: seq<string>, start: nat): seq<nat>
    decreases |ls| - start
  {
    if start >= |ls| then []
    else (if ls[start] != [] then [start] else []) + PositionsFrom(ls, start + 1)
  }

  /** `PositionsFrom` lists only non-empty positions from `start` on... */
  lemma {:induction false} PositionsFromBounds(ls: seq<string>, start: nat)
    ensures forall j :: 0 <= j < |PositionsFrom(ls, start)| ==>
              start <= PositionsFrom(ls, start)[j] < |ls| && ls[PositionsFrom(ls, start)[j]] != []
    decreases |ls| - start
  {
    if start < |ls| {
      PositionsFromBounds(ls, start + 1);
      var ps, rest := PositionsFrom(ls, start), PositionsFrom(ls, start + 1);
      if ls[start] != [] {
        assert ps == [start] + rest;
        forall j | 0 < j < |ps|
          ensures ps[j] == rest[j - 1]
        {
        }
      }
    }
  }

  /** ... in increasing order ... */
  lemma {:induction false} PositionsFromSorted(ls: seq<string>, start: nat)
    ensures forall j, j' :: 0 <= j < j' < |PositionsFrom(ls, start)| ==>
              PositionsFrom(ls, start)[j] < PositionsFrom(ls, start)[j']
    decreases |ls| - start
  {
    if start < |ls| {
      PositionsFromBounds(ls, start + 1);
      PositionsFromSorted(ls, start + 1);
      var ps, rest := PositionsFrom(ls, start), PositionsFrom(ls, start + 1);
      if ls[start] != [] {
        assert ps == [start] + rest;
        forall j | 0 < j < |ps|
          ensures ps[j] == rest[j - 1] && start < ps[j]
        {
        }
      }
    }
  }

  /** ... and all of them. */
  lemma {:induction false} PositionsFromComplete(ls: seq<string>, start: nat)
    ensures forall k :: start <= k < |ls| && ls[k] != [] ==> k in PositionsFrom(ls, start)
    decreases |ls| - start
  {
    if start < |ls| {
      PositionsFromComplete(ls, start + 1);
    }
  }

  /** The non-empty layout positions, each once, in increasing order. */
  lemma PositionsShape(ls: seq<string>)
    ensures var ps := NonEmptyPositions(ls);
            (forall j :: 0 <= j < |ps| ==> ps[j] < |ls| && ls[ps[j]] != []) &&
            (forall j, j' :: 0 <= j < j' < |ps| ==> ps[j] < ps[j']) &&
            (forall k :: 0 <= k < |ls| && ls[k] != [] ==> k in ps)
  {
    PositionsFromBounds(ls, 0);
    PositionsFromSorted(ls, 0);
    PositionsFromComplete(ls, 0);
  }

  /** The positions of the non-empty fields, in increasing order. */
  function NonEmptyPositions(ls: seq<string>): seq<nat> {
    PositionsFrom(ls, 0)
  }

  /** Past the last layout field the zip emits nothing, however many
      variant fields remain. */
  lemma {:induction false} ZipPastLayouts(ls: seq<string>, vs: seq<string>, k: nat)
    requires k >= |ls|
    ensures ZipFrom(ls, vs, k) == []
    decreases |ls| + |vs| - k
  {
    if k < |vs| {
      ZipPastLayouts(ls, vs, k + 1);
    }
  }

  /** The zip from position `k` on, position by position. */
  lemma {:induction false} ZipFromPositions(ls: seq<string>, vs: seq<string>, k: nat)
    ensures var out, ps := ZipFrom(ls, vs, k), PositionsFrom(ls, k);
            |out| == |ps| &&
            forall j :: 0 <= j < |ps| ==> out[j] == Annotate(FieldAt(ls, ps[j]), FieldAt(vs, ps[j]))
    decreases |ls| + |vs| - k
  {
    if k < |ls| {
      ZipFromPositions(ls, vs, k + 1);
      var rest, prest := ZipFrom(ls, vs, k + 1), PositionsFrom(ls, k + 1);
      if ls[k] != [] {
        assert ZipFrom(ls, vs, k) == [Annotate(ls[k], FieldAt(vs, k))] + rest;
        assert PositionsFrom(ls, k) == [k] + prest;
      }
    } else {
      ZipPastLayouts(ls, vs, k);
    }
  }

  /** What `build_layout_from` promises: one entry per non-empty layout
      field, in order, each the layout annotated with the variant at the same
      position (none when the variant list is shorter); variants past the
      last layout are ignored. */
  lemma ZipByPositions(ls: seq<string>, vs: seq<string>)
    ensures var out, ps := ZipEntries(ls, vs), NonEmptyPositions(ls);
            |out| == |ps| &&
            forall j :: 0 <= j < |ps| ==> ps[j] < |ls| && out[j] == Annotate(ls[ps[j]], FieldAt(vs, ps[j]))
  {
    PositionsShape(ls);
    ZipFromPositions(ls, vs, 0);
  }

  /** `build_layout_from` has no stop-list: an entry is dropped only when its
      layout field is empty, so the number of entries is the number of
      non-empty layout fields. */
  lemma ZipCount(ls: seq<string>, vs: seq<string>)
    ensures |ZipEntries(ls, vs)| == |NonEmptyPositions(ls)|
    ensures (forall k :: 0 <= k < |ls| ==> ls[k] != []) ==> |ZipEntries(ls, vs)| == |ls|
  {
    ZipByPositions(ls, vs);
    var ps := NonEmptyPositions(ls);
    if forall k :: 0 <= k < |ls| ==> ls[k] != [] {
      PositionsAll(ls);
    }
  }

  lemma {:induction false} PositionsAllFrom(ls: seq<string>, start: nat)
    requires forall k :: 0 <= k < |ls| ==> ls[k] != []
    ensures |PositionsFrom(ls, start)| == if start < |ls| then |ls| - start else 0
    decreases |ls| - start
  {
    if start < |ls| {
      PositionsAllFrom(ls, start + 1);
    }
  }

  lemma PositionsAll(ls: seq<string>)
    requires forall k :: 0 <= k < |ls| ==> ls[k] != []
    ensures |NonEmptyPositions(ls)| == |ls|
  {
    PositionsAllFrom(ls, 0);
  }

  /** Two comma-free fields, the second non-empty. */
  lemma FieldsPair(a: string, b: string)
    requires ',' !in a && ',' !in b && b != []
    ensures Fields(a + [','] + b) == [a, b]
  {
    SplitOnAfterFree(a, b, ',');
    SplitOnFree(b, ',');
    FieldsOf(a + [','] + b, [a, b]);
  }

  lemma FieldsUsDe()
    ensures Fields("us,de") == ["us", "de"]
  {
    assert "us,de" == "us" + [','] + "de";
    FieldsPair("us", "de");
  }

  lemma FieldsQwerty()
    ensures Fields(",qwerty") == ["", "qwerty"]
  {
    assert ",qwerty" == [] + [','] + "qwerty";
    FieldsPair([], "qwerty");
  }

  /** Two layout fields and two variant fields. */
  lemma ZipTwo(l0: string, l1: string, v0: string, v1: string)
    requires l0 != [] && l1 != []
    ensures ZipEntries([l0, l1], [v0, v1]) == [Annotate(l0, v0), Annotate(l1, v1)]
  {
    assert ZipFrom([l0, l1], [v0, v1], 2) == [];
    assert ZipFrom([l0, l1], [v0, v1], 1) == [Annotate(l1, v1)];
  }

  /** The example of the layout form: layouts `us,de` and variants `,qwerty`
      give `us` and `de(qwerty)`. */
  lemma ZipExample()
    ensures ZipEntries(Fields("us,de"), Fields(",qwerty")) == ["us", "de(qwerty)"]
  {
    FieldsUsDe();
    FieldsQwerty();
    ZipExampleFields();
  }

  lemma ZipExampleFields()
    ensures ZipEntries(["us", "de"], ["", "qwerty"]) == ["us", "de(qwerty)"]
  {
    ZipTwo("us", "de", "", "qwerty");
    assert Annotate("de", "qwerty") == "de(qwerty)";
  }

  /** Without a layout property the list is the single layout `us`, carrying
      the first variant if there is one. */
  lemma DefaultLayout(variant: Option<string>)
    ensures var lv := LayoutVariant(None, variant);
            ZipEntries(Fields(lv.0), Fields(lv.1)) == [Annotate("us", FieldAt(Fields(lv.1), 0))]
  {
    var lv := LayoutVariant(None, variant);
    FieldsSingle("us");
    ZipPastLayouts(["us"], Fields(lv.1), 1);
  }

  lemma FieldsSingle(a: string)
    requires ',' !in a && a != []
    ensures Fields(a) == [a]
  {
    SplitOnFree(a, ',');
    FieldsOf(a, [a]);
  }
}
