/** Sequence helpers shared by the symbol parsers, the comma splitter and the
    command-line front end: first-occurrence search (std::find), splitting on a
    delimiter and joining with one. */
module Strings {

  /** Index of the first occurrence of `x` in `xs`, or `|xs|` when `x` does
      not occur; this is what `std::find` returns, as an offset. */
  function IndexOf<T(==)>(xs: seq<T>, x: T): (i: nat)
    ensures i <= |xs|
    ensures i < |xs| ==> xs[i] == x
    ensures forall j :: 0 <= j < i ==> xs[j] != x
    ensures i == |xs| <==> x !in xs
  {
    if xs == [] then 0
    else if xs[0] == x then 0
    else 1 + IndexOf(xs[1..], x)
  }

  /** Number of occurrences of `d` in `s`. */
  function Count<T(==)>(s: seq<T>, d: T): (n: nat)
    ensures n <= |s|
    ensures n == 0 <==> d !in s
  {
    if s == [] then 0 else (if s[0] == d then 1 else 0) + Count(s[1..], d)
  }

  /** The pieces of `s` between occurrences of `d`, empty pieces included. */
  function SplitOn<T(==)>(s: seq<T>, d: T): (parts: seq<seq<T>>)
    ensures |parts| >= 1
  {
    if s == [] then [[]]
    else
      var rest := SplitOn(s[1..], d);
      if s[0] == d then [[]] + rest
      else [[s[0]] + rest[0]] + rest[1..]
  }

  /** No piece contains `d`. */
  predicate NoneContains<T(==)>(parts: seq<seq<T>>, d: T) {
    forall k :: 0 <= k < |parts| ==> d !in parts[k]
  }

  /** There is always one piece more than there are delimiters, and no piece
      contains the delimiter. */
  lemma {:induction false} SplitOnShape<T>(s: seq<T>, d: T)
    ensures |SplitOn(s, d)| == Count(s, d) + 1
    ensures NoneContains(SplitOn(s, d), d)
  {
    if s != [] {
      SplitOnShape(s[1..], d);
      var rest := SplitOn(s[1..], d);
      if s[0] != d {
        assert d !in [s[0]] + rest[0];
      }
    }
  }

  /** The pieces of `parts` with one `d` between each two of them. */
  function Join<T>(parts: seq<seq<T>>, d: T): seq<T>
  {
    if |parts| == 0 then []
    else if |parts| == 1 then parts[0]
    else parts[0] + [d] + Join(parts[1..], d)
  }

  /** Joining the pieces of a split restores the original sequence. */
  lemma {:induction false} JoinSplitOn<T>(s: seq<T>, d: T)
    ensures Join(SplitOn(s, d), d) == s
  {
    if s != [] {
      var rest := SplitOn(s[1..], d);
      JoinSplitOn(s[1..], d);
      if s[0] == d {
        assert s == [d] + s[1..];
      } else if |rest| == 1 {
        assert s == [s[0]] + s[1..];
      } else {
        assert Join(rest, d) == rest[0] + [d] + Join(rest[1..], d);
        assert s == [s[0]] + s[1..];
      }
    }
  }

  /** Splitting a join of `d`-free pieces gives the pieces back. */
  lemma {:induction false} SplitOnJoin<T>(parts: seq<seq<T>>, d: T)
    requires |parts| >= 1
    requires NoneContains(parts, d)
    ensures SplitOn(Join(parts, d), d) == parts
  {
    if |parts| == 1 {
      SplitOnFree(parts[0], d);
    } else {
      SplitOnJoin(parts[1..], d);
      SplitOnAfterFree(parts[0], Join(parts[1..], d), d);
      assert [parts[0]] + parts[1..] == parts;
    }
  }

  /** A sequence without the delimiter is a single piece. */
  lemma {:induction false} SplitOnFree<T>(a: seq<T>, d: T)
    requires d !in a
    ensures SplitOn(a, d) == [a]
  {
    if a != [] {
      SplitOnFree(a[1..], d);
      assert a == [a[0]] + a[1..];
    }
  }

  /** The first piece is everything before the first delimiter. */
  lemma {:induction false} SplitOnAfterFree<T>(a: seq<T>, b: seq<T>, d: T)
    requires d !in a
    ensures SplitOn(a + [d] + b, d) == [a] + SplitOn(b, d)
  {
    var s := a + [d] + b;
    if a == [] {
      assert s[0] == d && s[1..] == b;
    } else {
      assert s[0] == a[0] && s[1..] == a[1..] + [d] + b;
      var rest := SplitOn(s[1..], d);
      assert rest == [a[1..]] + SplitOn(b, d) by {
        SplitOnAfterFree(a[1..], b, d);
      }
      assert rest[0] == a[1..] && rest[1..] == SplitOn(b, d);
      assert [a[0]] + a[1..] == a;
    }
  }

  /** Joining one more piece appends a delimiter and the piece. */
  lemma {:induction false} JoinSnoc<T>(parts: seq<seq<T>>, x: seq<T>, d: T)
    requires |parts| >= 1
    ensures Join(parts + [x], d) == Join(parts, d) + [d] + x
    decreases |parts|
  {
    if |parts| > 1 {
      JoinSnoc(parts[1..], x, d);
      assert (parts + [x])[1..] == parts[1..] + [x];
    }
  }

  /** The last piece of a split is empty exactly when the sequence is empty
      or ends with the delimiter. */
  lemma {:induction false} SplitOnLastEmpty<T>(s: seq<T>, d: T)
    ensures var parts := SplitOn(s, d);
            parts[|parts| - 1] == [] <==> s == [] || s[|s| - 1] == d
    decreases |s|
  {
    if s != [] {
      var rest := SplitOn(s[1..], d);
      if s[1..] == [] {
        assert |s| == 1;
      } else {
        SplitOnLastEmpty(s[1..], d);
        assert s[|s| - 1] == s[1..][|s[1..]| - 1];
        if s[0] != d && |rest| == 1 {
          assert s[1..][|s[1..]| - 1] != d by {
            SplitOnShape(s[1..], d);
          }
        }
      }
    }
  }
}
