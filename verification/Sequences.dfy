/** Splitting and joining at a separator, and the option type, shared by the other modules. */
module Sequences {

  datatype Option<+T> = None | Some(value: T) {
    predicate IsFailure() { None? }

    function PropagateFailure<U>(): Option<U>
      requires None?
    {
      None
    }

    function Extract(): T
      requires Some?
    {
      value
    }
  }

  // Python's `s.split(sep)` for a one-element separator: always at least one piece.
  function Split<T(==)>(s: seq<T>, sep: T): (pieces: seq<seq<T>>)
    ensures |pieces| >= 1
  {
    if s == [] then [[]]
    else
      var rest := Split(s[1..], sep);
      if s[0] == sep then [[]] + rest else [[s[0]] + rest[0]] + rest[1..]
  }

  // Python's `sep.join(pieces)`.
  function Join<T>(pieces: seq<seq<T>>, sep: T): seq<T>
    requires |pieces| >= 1
  {
    if |pieces| == 1 then pieces[0] else pieces[0] + [sep] + Join(pieces[1..], sep)
  }

  function Flatten<T>(parts: seq<seq<T>>): seq<T> {
    if parts == [] then [] else Flatten(parts[..|parts| - 1]) + parts[|parts| - 1]
  }

  function Filter<T>(s: seq<T>, keep: T -> bool): seq<T> {
    if s == [] then []
    else (if keep(s[0]) then [s[0]] else []) + Filter(s[1..], keep)
  }

  function IndexOf<T(==)>(s: seq<T>, x: T): (i: nat)
    requires x in s
    ensures i < |s| && s[i] == x && x !in s[..i]
  {
    if s[0] == x then 0 else 1 + IndexOf(s[1..], x)
  }

  ghost predicate Distinct<T>(s: seq<T>) {
    forall i, j :: 0 <= i < j < |s| ==> s[i] != s[j]
  }

  // The pieces of the two halves, with the two at the seam glued together.
  function Glue<T>(l: seq<seq<T>>, r: seq<seq<T>>): seq<seq<T>>
    requires |l| >= 1 && |r| >= 1
  {
    l[..|l| - 1] + [l[|l| - 1] + r[0]] + r[1..]
  }

  lemma Associate<T>(a: seq<T>, b: seq<T>, c: seq<T>)
    ensures (a + b) + c == a + (b + c)
  {
  }

  lemma GlueCons<T>(x: T, l: seq<seq<T>>, r: seq<seq<T>>)
    requires |l| >= 1 && |r| >= 1
    ensures Glue([[]] + l, r) == [[]] + Glue(l, r)
    ensures Glue([[x] + l[0]] + l[1..], r) == [[x] + Glue(l, r)[0]] + Glue(l, r)[1..]
  {
    if |l| == 1 {
      assert ([x] + l[0]) + r[0] == [x] + (l[0] + r[0]);
    }
  }

  lemma {:induction false} SplitAppend<T>(a: seq<T>, b: seq<T>, sep: T)
    ensures Split(a + b, sep) == Glue(Split(a, sep), Split(b, sep))
  {
    if a == [] {
      assert a + b == b;
      var r := Split(b, sep);
      assert [] + r[0] == r[0];
    } else {
      SplitAppend(a[1..], b, sep);
      GlueCons(a[0], Split(a[1..], sep), Split(b, sep));
      var ab := a + b;
      assert ab[1..] == a[1..] + b && ab[0] == a[0];
    }
  }

  // A separator between two parts cuts there and nowhere else.
  lemma SplitAtSeparator<T>(a: seq<T>, b: seq<T>, sep: T)
    ensures Split(a + [sep] + b, sep) == Split(a, sep) + Split(b, sep)
  {
    SplitAppend(a, [sep] + b, sep);
    assert a + [sep] + b == a + ([sep] + b);
    assert ([sep] + b)[1..] == b;
    var l := Split(a, sep);
    assert l[..|l| - 1] + [l[|l| - 1]] == l;
    assert l[|l| - 1] + [] == l[|l| - 1];
  }

  lemma {:induction false} SplitFree<T>(s: seq<T>, sep: T)
    requires sep !in s
    ensures Split(s, sep) == [s]
  {
    if s != [] {
      SplitFree(s[1..], sep);
      assert [s[0]] + s[1..] == s;
    }
  }

  lemma {:induction false} PiecesAreFree<T>(s: seq<T>, sep: T)
    ensures forall i :: 0 <= i < |Split(s, sep)| ==> sep !in Split(s, sep)[i]
  {
    if s != [] {
      PiecesAreFree(s[1..], sep);
    }
  }

  lemma {:induction false} SplitInvertsJoin<T>(pieces: seq<seq<T>>, sep: T)
    requires |pieces| >= 1
    requires forall i :: 0 <= i < |pieces| ==> sep !in pieces[i]
    ensures Split(Join(pieces, sep), sep) == pieces
  {
    SplitFree(pieces[0], sep);
    if |pieces| > 1 {
      SplitInvertsJoin(pieces[1..], sep);
      SplitAtSeparator(pieces[0], Join(pieces[1..], sep), sep);
      assert [pieces[0]] + pieces[1..] == pieces;
    }
  }

  lemma GlueLast<T>(l: seq<seq<T>>, r: seq<seq<T>>)
    requires |l| >= 1 && |r| >= 1
    ensures Glue(l, r) == l[..|l| - 1] + Glue([l[|l| - 1]], r)
  {
    var last := l[|l| - 1];
    assert Glue([last], r) == [last + r[0]] + r[1..];
  }

  // What follows the last separator, extended: the finished pieces stay as they are.
  lemma SplitResume<T>(a: seq<T>, b: seq<T>, sep: T)
    ensures var l := Split(a, sep);
            Split(a + b, sep) == l[..|l| - 1] + Split(l[|l| - 1] + b, sep)
  {
    var l := Split(a, sep);
    var last := l[|l| - 1];
    SplitAppend(a, b, sep);
    PiecesAreFree(a, sep);
    SplitFree(last, sep);
    SplitAppend(last, b, sep);
    GlueLast(l, Split(b, sep));
  }

  lemma SplitAtFirst<T>(s: seq<T>, sep: T)
    requires sep in s
    ensures var k := IndexOf(s, sep); Split(s, sep) == [s[..k]] + Split(s[k + 1..], sep)
  {
    var k := IndexOf(s, sep);
    assert s == s[..k] + [sep] + s[k + 1..];
    SplitAtSeparator(s[..k], s[k + 1..], sep);
    SplitFree(s[..k], sep);
  }

  lemma {:induction false} FilterAppend<T>(a: seq<T>, b: seq<T>, keep: T -> bool)
    ensures Filter(a + b, keep) == Filter(a, keep) + Filter(b, keep)
  {
    if a == [] {
      assert a + b == b;
    } else {
      FilterAppend(a[1..], b, keep);
      var ab := a + b;
      assert ab[1..] == a[1..] + b && ab[0] == a[0];
      Associate(if keep(a[0]) then [a[0]] else [], Filter(a[1..], keep), Filter(b, keep));
    }
  }

  lemma {:induction false} FilterMembers<T>(s: seq<T>, keep: T -> bool)
    ensures forall x :: x in Filter(s, keep) <==> x in s && keep(x)
  {
    if s != [] {
      FilterMembers(s[1..], keep);
      assert s == [s[0]] + s[1..];
    }
  }

  lemma {:induction false} FilterAll<T>(s: seq<T>, keep: T -> bool)
    requires forall x :: x in s ==> keep(x)
    ensures Filter(s, keep) == s
  {
    if s != [] {
      FilterAll(s[1..], keep);
      assert [s[0]] + s[1..] == s;
    }
  }

  lemma {:induction false} FilterDistinct<T>(s: seq<T>, keep: T -> bool)
    requires Distinct(s)
    ensures Distinct(Filter(s, keep))
  {
    if s != [] {
      FilterDistinct(s[1..], keep);
      FilterMembers(s[1..], keep);
    }
  }
}
