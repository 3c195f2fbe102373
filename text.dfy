/** String helpers the dashboard borrows from Python and pandas:
    `', '.join`, `str.split(', ')`, `Series.unique()` and `str.upper()`. */
module Text {

  /** The separator both `', '.join` and `.split(', ')` use. */
  const Sep: string := ", "

  /** True when `s` holds no occurrence of the separator. */
  predicate NoSep(s: string) {
    forall i :: 0 <= i < |s| - 1 ==> !(s[i] == ',' && s[i + 1] == ' ')
  }

  /** The summed lengths of some strings. */
  function TotalLength(xs: seq<string>): nat {
    if |xs| == 0 then 0 else |xs[0]| + TotalLength(xs[1..])
  }

  /** `', '.join(xs)`: the pieces with one separator between each two. */
  function Join(xs: seq<string>): (r: string)
    ensures |xs| > 0 ==> |r| == TotalLength(xs) + 2 * (|xs| - 1)
  {
    if |xs| == 0 then ""
    else if |xs| == 1 then xs[0]
    else xs[0] + Sep + Join(xs[1..])
  }

  /** `s.split(', ')`: cuts at every leftmost non-overlapping separator.
      Like Python it always yields at least one piece (`"".split(', ') == [""]`). */
  function Split(s: string): (r: seq<string>)
    ensures |r| >= 1
    decreases |s|
  {
    if |s| < 2 then [s]
    else if s[0] == ',' && s[1] == ' ' then [""] + Split(s[2..])
    else
      var rest := Split(s[1..]);
      [[s[0]] + rest[0]] + rest[1..]
  }

  /** Joining a leading piece onto a non-empty list puts one separator
      between them. */
  lemma {:induction false} JoinCons(x: string, xs: seq<string>)
    requires |xs| > 0
    ensures Join([x] + xs) == x + Sep + Join(xs)
  {
    assert ([x] + xs)[0] == x && ([x] + xs)[1..] == xs;
  }

  /** Prefixing the first piece with a character prefixes the join with it. */
  lemma {:induction false} JoinHeadExtend(c: char, rest: seq<string>)
    requires |rest| > 0
    ensures Join([[c] + rest[0]] + rest[1..]) == [c] + Join(rest)
  {
    if |rest| == 1 {
      assert [[c] + rest[0]] + rest[1..] == [[c] + rest[0]];
    } else {
      JoinCons([c] + rest[0], rest[1..]);
      JoinCons(rest[0], rest[1..]);
      assert rest == [rest[0]] + rest[1..];
      assert ([c] + rest[0]) + Sep + Join(rest[1..]) == [c] + (rest[0] + Sep + Join(rest[1..]));
    }
  }

  /** Joining the pieces of a split gives back the string that was split. */
  lemma {:induction false} JoinSplit(s: string)
    ensures Join(Split(s)) == s
    decreases |s|
  {
    if |s| < 2 {
    } else if s[0] == ',' && s[1] == ' ' {
      var rest := Split(s[2..]);
      JoinSplit(s[2..]);
      JoinCons("", rest);
      assert s == Sep + s[2..];
    } else {
      var rest := Split(s[1..]);
      JoinSplit(s[1..]);
      JoinHeadExtend(s[0], rest);
      assert [s[0]] + s[1..] == s;
    }
  }

  /** A piece free of the separator is split into itself. */
  lemma {:induction false} SplitPiece(x: string)
    requires NoSep(x)
    ensures Split(x) == [x]
    decreases |x|
  {
    if |x| >= 2 {
      assert !(x[0] == ',' && x[1] == ' ');
      assert NoSep(x[1..]) by {
        forall i | 0 <= i < |x[1..]| - 1 ensures !(x[1..][i] == ',' && x[1..][i + 1] == ' ') {
          assert x[1..][i] == x[i + 1] && x[1..][i + 1] == x[i + 2];
        }
      }
      SplitPiece(x[1..]);
      assert [x[0]] + x[1..] == x;
    }
  }

  /** Splitting stops at the first separator after a separator-free piece. */
  lemma {:induction false} SplitAfterPiece(x: string, t: string)
    requires NoSep(x)
    ensures Split(x + Sep + t) == [x] + Split(t)
    decreases |x|
  {
    var s := x + Sep + t;
    if |x| == 0 {
      assert s[0] == ',' && s[1] == ' ';
      assert s[2..] == t;
    } else {
      assert s[0] == x[0];
      if |x| >= 2 {
        assert s[1] == x[1];
        assert !(x[0] == ',' && x[1] == ' ');
      } else {
        assert s[1] == ',';
      }
      assert NoSep(x[1..]) by {
        forall i | 0 <= i < |x[1..]| - 1 ensures !(x[1..][i] == ',' && x[1..][i + 1] == ' ') {
          assert x[1..][i] == x[i + 1] && x[1..][i + 1] == x[i + 2];
        }
      }
      assert s[1..] == x[1..] + Sep + t;
      SplitAfterPiece(x[1..], t);
      assert [x[0]] + x[1..] == x;
    }
  }

  /** Splitting undoes joining, provided no piece contains the separator. */
  lemma {:induction false} SplitJoin(xs: seq<string>)
    requires |xs| >= 1
    requires forall i :: 0 <= i < |xs| ==> NoSep(xs[i])
    ensures Split(Join(xs)) == xs
    decreases |xs|
  {
    if |xs| == 1 {
      SplitPiece(xs[0]);
    } else {
      SplitJoin(xs[1..]);
      SplitAfterPiece(xs[0], Join(xs[1..]));
      assert [xs[0]] + xs[1..] == xs;
    }
  }

  /** No element occurs twice. */
  predicate NoDuplicates<T(==)>(s: seq<T>) {
    forall i, j :: 0 <= i < j < |s| ==> s[i] != s[j]
  }

  /** Index of the first occurrence of `x` in `xs`. */
  function FirstIndex<T(==)>(xs: seq<T>, x: T): (k: nat)
    requires x in xs
    ensures k < |xs| && xs[k] == x
    ensures forall j :: 0 <= j < k ==> xs[j] != x
  {
    if xs[0] == x then 0 else 1 + FirstIndex(xs[1..], x)
  }

  /** `Series.unique()`: the distinct values of `xs`, each at the place it is
      first seen. */
  function Distinct<T(==,!new)>(xs: seq<T>): (r: seq<T>)
    ensures forall x :: x in r <==> x in xs
    ensures NoDuplicates(r)
    ensures |r| <= |xs|
  {
    if |xs| == 0 then []
    else
      var init := xs[..|xs| - 1];
      var y := xs[|xs| - 1];
      assert xs == init + [y];
      var p := Distinct(init);
      if y in p then p else p + [y]
  }

  lemma {:induction false} FirstIndexUnique<T>(xs: seq<T>, x: T, k: nat)
    requires k < |xs| && xs[k] == x
    requires forall j :: 0 <= j < k ==> xs[j] != x
    ensures FirstIndex(xs, x) == k
  {
  }

  lemma {:induction false} FirstIndexExtend<T>(xs: seq<T>, y: T, x: T)
    requires x in xs
    ensures FirstIndex(xs + [y], x) == FirstIndex(xs, x)
  {
    var k := FirstIndex(xs, x);
    assert (xs + [y])[k] == x;
    forall j | 0 <= j < k ensures (xs + [y])[j] != x {
      assert (xs + [y])[j] == xs[j];
    }
    FirstIndexUnique(xs + [y], x, k);
  }

  /** The distinct values come out in the order in which they are first seen. */
  lemma {:induction false} DistinctFirstSeen<T(!new)>(xs: seq<T>)
    ensures forall i, j :: 0 <= i < j < |Distinct(xs)| ==>
      FirstIndex(xs, Distinct(xs)[i]) < FirstIndex(xs, Distinct(xs)[j])
    decreases |xs|
  {
    if |xs| > 0 {
      var init := xs[..|xs| - 1];
      var y := xs[|xs| - 1];
      assert xs == init + [y];
      var p := Distinct(init);
      DistinctFirstSeen(init);
      var r := Distinct(xs);
      forall i, j | 0 <= i < j < |r| ensures FirstIndex(xs, r[i]) < FirstIndex(xs, r[j]) {
        assert r[i] == p[i];
        FirstIndexExtend(init, y, r[i]);
        if j < |p| {
          assert r[j] == p[j];
          FirstIndexExtend(init, y, r[j]);
        } else {
          assert r[j] == y && y !in init;
          FirstIndexUnique(xs, y, |xs| - 1);
        }
      }
    }
  }

  predicate IsLower(c: char) { 'a' <= c <= 'z' }

  /** `str.upper()` on one character, for the ASCII letters. */
  function UpperChar(c: char): (u: char)
    ensures !IsLower(u)
    ensures IsLower(c) ==> u as int == c as int - 32
    ensures !IsLower(c) ==> u == c
  {
    if IsLower(c) then (c as int - 32) as char else c
  }

  /** `str.upper()`: every lower-case ASCII letter becomes its capital and
      every other character is kept. */
  function ToUpper(s: string): (r: string)
    ensures |r| == |s|
    ensures forall i :: 0 <= i < |r| ==> !IsLower(r[i])
    ensures forall i :: 0 <= i < |r| ==> r[i] == UpperChar(s[i])
  {
    seq(|s|, i requires 0 <= i < |s| => UpperChar(s[i]))
  }

  /** Upper-casing twice is upper-casing once. */
  lemma {:induction false} ToUpperIdempotent(s: string)
    ensures ToUpper(ToUpper(s)) == ToUpper(s)
  {
  }
}
